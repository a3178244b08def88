/** Decoding undoes encoding. */
module MarshalRoundTrip {
  import opened Bytes
  import opened MarshalDecoding
  import opened MarshalEncoding
  import opened MarshalTypes
  import opened PackedFields
  import opened Options
  import opened StringTable
  import opened ZeroRuns

  // ------------------------------------------------------------------
  // What comes back
  // ------------------------------------------------------------------

  // The value as it comes back: negative zero is zero, and packed integers are wrapped to their column.
  function Canon(v: Value): Value
    decreases v, 1
  {
    match v
    case RealValue(bits) => RealValue(if bits == NEGATIVE_ZERO then 0 else bits)
    case TupleValue(items) => TupleValue(CanonAll(items))
    case ListValue(items) => ListValue(CanonAll(items))
    case DictValue(entries) => DictValue(CanonEntries(entries))
    case ObjectValue(typeName, args) => ObjectValue(typeName, Canon(args))
    case ObjectExValue(isType2, header, list, dict) => ObjectExValue(isType2, Canon(header), CanonAll(list), CanonEntries(dict))
    case SubStructValue(inner) => SubStructValue(Canon(inner))
    case ChecksumedValue(checksum, inner) => ChecksumedValue(checksum, Canon(inner))
    case PackedRowValue(columns, values) => PackedRowValue(columns, CanonFields(columns, values, 0))
    case _ => v
  }

  function CanonAll(items: seq<Value>): (r: seq<Value>)
    ensures |r| == |items|
    decreases items, 0
  {
    if items == [] then [] else [Canon(items[0])] + CanonAll(items[1..])
  }

  function CanonEntries(entries: seq<Entry>): (r: seq<Entry>)
    ensures |r| == |entries|
    decreases entries, 0
  {
    if entries == [] then []
    else [CanonEntry(entries[0])] + CanonEntries(entries[1..])
  }

  function CanonEntry(entry: Entry): Entry
    decreases entry, 2
  {
    Entry(Canon(entry.key), Canon(entry.value))
  }

  // The fields from column `i` on; those without a width are values of their own.
  function CanonFields(columns: seq<Column>, values: seq<Value>, i: nat): (r: seq<Value>)
    requires i <= |values|
    ensures |r| == |values| - i
    decreases values, |values| - i
  {
    if i == |values| then []
    else
      var field := if BitsAt(columns, i) == 0 then Canon(values[i]) else WrappedField(TypeAt(columns, i), values[i]);
      [field] + CanonFields(columns, values, i + 1)
  }

  // The values that come back unchanged.
  predicate Plain(v: Value)
    decreases v, 1
  {
    match v
    case RealValue(bits) => bits != NEGATIVE_ZERO
    case TupleValue(items) => AllPlain(items)
    case ListValue(items) => AllPlain(items)
    case DictValue(entries) => PlainEntries(entries)
    case ObjectValue(_, args) => Plain(args)
    case ObjectExValue(_, header, list, dict) => Plain(header) && AllPlain(list) && PlainEntries(dict)
    case SubStructValue(inner) => Plain(inner)
    case ChecksumedValue(_, inner) => Plain(inner)
    case PackedRowValue(columns, values) => PlainFields(columns, values, 0)
    case _ => true
  }

  predicate AllPlain(items: seq<Value>)
    decreases items, 0
  {
    items == [] || (Plain(items[0]) && AllPlain(items[1..]))
  }

  predicate PlainEntries(entries: seq<Entry>)
    decreases entries, 0
  {
    entries == [] || (PlainEntry(entries[0]) && PlainEntries(entries[1..]))
  }

  predicate PlainEntry(entry: Entry)
    decreases entry, 2
  {
    Plain(entry.key) && Plain(entry.value)
  }

  predicate PlainFields(columns: seq<Column>, values: seq<Value>, i: nat)
    requires i <= |values|
    decreases values, |values| - i
  {
    i == |values| || (PlainField(columns, values, i) && PlainFields(columns, values, i + 1))
  }

  predicate PlainField(columns: seq<Column>, values: seq<Value>, i: nat)
    requires i < |values|
    decreases values, 0
  {
    if BitsAt(columns, i) == 0 then Plain(values[i])
    else TypeBytes(TypeAt(columns, i)) > 0 && values[i].IntValue? ==> InColumnRange(TypeAt(columns, i), values[i].i)
  }

  lemma {:induction false} FirstPlain(items: seq<Value>)
    requires items != []
    ensures CanonAll(items) == items <==> Canon(items[0]) == items[0] && CanonAll(items[1..]) == items[1..]
  {
    assert items == [items[0]] + items[1..];
    assert CanonAll(items)[0] == Canon(items[0]) && CanonAll(items)[1..] == CanonAll(items[1..]);
  }

  lemma {:induction false} CanonKeeps(v: Value)
    ensures Canon(v) == v <==> Plain(v)
    decreases v, 1
  {
    match v {
      case TupleValue(items) => CanonKeepsAll(items);
      case ListValue(items) => CanonKeepsAll(items);
      case DictValue(entries) => CanonKeepsEntries(entries);
      case ObjectValue(_, args) => CanonKeeps(args);
      case ObjectExValue(_, header, list, dict) =>
        CanonKeeps(header);
        CanonKeepsAll(list);
        CanonKeepsEntries(dict);
      case SubStructValue(inner) => CanonKeeps(inner);
      case ChecksumedValue(_, inner) => CanonKeeps(inner);
      case PackedRowValue(columns, values) =>
        CanonKeepsFields(columns, values, 0);
        assert values[0..] == values;
      case _ =>
    }
  }

  lemma {:induction false} CanonKeepsAll(items: seq<Value>)
    ensures CanonAll(items) == items <==> AllPlain(items)
    decreases items, 0
  {
    if items != [] {
      CanonKeeps(items[0]);
      CanonKeepsAll(items[1..]);
      FirstPlain(items);
    }
  }

  lemma {:induction false} CanonKeepsEntries(entries: seq<Entry>)
    ensures CanonEntries(entries) == entries <==> PlainEntries(entries)
    decreases entries, 0
  {
    if entries != [] {
      CanonKeepsEntry(entries[0]);
      CanonKeepsEntries(entries[1..]);
      assert entries == [entries[0]] + entries[1..];
      assert CanonEntries(entries)[1..] == CanonEntries(entries[1..]);
    }
  }

  lemma {:induction false} CanonKeepsEntry(entry: Entry)
    ensures CanonEntry(entry) == entry <==> PlainEntry(entry)
    decreases entry, 2
  {
    CanonKeeps(entry.key);
    CanonKeeps(entry.value);
  }

  lemma {:induction false} CanonKeepsFields(columns: seq<Column>, values: seq<Value>, i: nat)
    requires i <= |values|
    ensures CanonFields(columns, values, i) == values[i..] <==> PlainFields(columns, values, i)
    decreases values, |values| - i
  {
    if i < |values| {
      if BitsAt(columns, i) == 0 {
        CanonKeeps(values[i]);
      } else if TypeBytes(TypeAt(columns, i)) > 0 && values[i].IntValue? {
        WrapKeepsInRange(TypeAt(columns, i), values[i].i);
      }
      CanonKeepsFields(columns, values, i + 1);
      assert values[i..] == [values[i]] + values[i + 1..];
      assert CanonFields(columns, values, i)[1..] == CanonFields(columns, values, i + 1);
    }
  }

  lemma {:induction false} CanonFieldAt(columns: seq<Column>, values: seq<Value>, i: nat, k: nat)
    requires i <= k < |values|
    ensures CanonFields(columns, values, i)[k - i] ==
      if BitsAt(columns, k) == 0 then Canon(values[k]) else WrappedField(TypeAt(columns, k), values[k])
    decreases |values| - i
  {
    if i < k {
      CanonFieldAt(columns, values, i + 1, k);
    }
  }

  // ------------------------------------------------------------------
  // Encodings lying in a stream
  // ------------------------------------------------------------------

  // `bytes` lies at the cursor, before the end of the values, in a stream of acceptable length.
  predicate Placed(input: Input, c: Cursor, bytes: seq<byte>) {
    && At(input.bytes, c.offset, bytes)
    && c.offset + |bytes| <= input.end && |input.bytes| <= MAX_STREAM_BYTES
  }

  // The result is the value, after exactly `length` bytes, with the save table as it was.
  ghost predicate Reads<T>(r: Parsed<T>, value: T, c: Cursor, length: nat) {
    r.Got? && r.value == value && r.cursor.offset == c.offset + length && r.cursor.saved == c.saved
  }

  // The cursor `length` bytes on.
  predicate After(c: Cursor, next: Cursor, length: nat) {
    next.offset == c.offset + length && next.saved == c.saved
  }

  lemma PlacedSplits(input: Input, c: Cursor, a: seq<byte>, b: seq<byte>)
    requires Placed(input, c, a + b)
    ensures Placed(input, c, a) && |a| + |b| <= MAX_STREAM_BYTES
    ensures forall next :: After(c, next, |a|) ==> Placed(input, next, b)
  {
    AtSplits(input.bytes, c.offset, a, b);
  }

  lemma ReadsByte(input: Input, c: Cursor, b: byte)
    requires Placed(input, c, [b])
    ensures ReadByte(input, c) == Got(b, c.(offset := c.offset + 1))
  {
    AtByte(input.bytes, c.offset, b);
  }

  lemma ReadsBytes(input: Input, c: Cursor, bytes: seq<byte>)
    requires Placed(input, c, bytes)
    ensures ReadBytes(input, c, |bytes|) == Got(bytes, c.(offset := c.offset + |bytes|))
  {
    AtSlice(input.bytes, c.offset, bytes);
  }

  lemma ReadsWord(input: Input, c: Cursor, v: nat, n: nat)
    requires Placed(input, c, LittleEndian(v, n)) && v < Power256(n)
    ensures ReadWord(input, c, n) == Got(v, c.(offset := c.offset + n))
  {
    ReadsBytes(input, c, LittleEndian(v, n));
    DecodeLittleEndian(v, n);
    ModuloKeeps(v, Power256(n));
  }

  lemma ReadsBounded(input: Input, c: Cursor, size: Word32, limit: nat)
    requires Placed(input, c, SizeEx(size)) && size <= limit
    ensures ReadBounded(input, c, limit) == Got(size, c.(offset := c.offset + |SizeEx(size)|))
  {
    hide Placed;
    PowersOf256();
    if size < SIZE_EX_ESCAPE {
      ReadsByte(input, c, size);
    } else {
      PlacedSplits(input, c, [SIZE_EX_ESCAPE], LittleEndian(size, 4));
      ReadsByte(input, c, SIZE_EX_ESCAPE);
      ReadsWord(input, c.(offset := c.offset + 1), size, 4);
    }
  }

  lemma SizesFit(size: nat)
    requires size <= MAX_STREAM_BYTES
    ensures Size32(size) == size
  {
  }

  lemma ReadsSized(input: Input, c: Cursor, bytes: seq<byte>)
    requires Placed(input, c, Sized(bytes))
    ensures ReadSized(input, c) == Got(bytes, c.(offset := c.offset + |Sized(bytes)|))
  {
    hide Placed, SizeEx;
    PlacedSplits(input, c, SizeEx(Size32(|bytes|)), bytes);
    SizesFit(|bytes|);
    ReadsBounded(input, c, |bytes|, MAX_STRING_BYTES);
    ReadsBytes(input, c.(offset := c.offset + |SizeEx(|bytes|)|), bytes);
  }

  // The opcode of a value is read first; the decoder goes on with what follows it.
  lemma Opens(input: Input, c: Cursor, op: Opcode, rest: seq<byte>, depth: nat) returns (begun: Cursor)
    requires Placed(input, c, Op(op) + rest) && depth <= MAX_MARSHAL_DEPTH
    ensures After(c, begun, 1) && Placed(input, begun, rest) && InStream(input, begun)
    ensures DecodeValue(input, c, depth) == DecodeCode(input, begun, Code(op), depth)
    ensures OpcodeOf(Code(op)) == Ok(op)
  {
    hide DecodeCode, OpcodeOf;
    begun := Cursor(c.offset + 1, c.saved, c.calls + 1);
    PlacedSplits(input, c, Op(op), rest);
    AtByte(input.bytes, c.offset, Code(op));
    CodeIsOpcode(op);
  }

  // ------------------------------------------------------------------
  // Values without parts
  // ------------------------------------------------------------------

  // The value of an opcode that needs nothing more.
  function ConstantOf(op: Opcode): Option<Value> {
    match op
    case PyNone => Some(NoneValue)
    case PyTrue => Some(BoolValue(true))
    case PyFalse => Some(BoolValue(false))
    case PyMinusOne => Some(IntValue(-1))
    case PyZeroInteger => Some(IntValue(0))
    case PyOneInteger => Some(IntValue(1))
    case PyZeroReal => Some(RealValue(0))
    case PyEmptyString => Some(StringValue([]))
    case PyEmptyWString => Some(WStringValue([]))
    case _ => None
  }

  lemma OpcodeReads(input: Input, c: Cursor, op: Opcode, depth: nat)
    requires Placed(input, c, Op(op)) && depth <= MAX_MARSHAL_DEPTH && ConstantOf(op).Some?
    ensures Reads(DecodeValue(input, c, depth), ConstantOf(op).value, c, 1)
  {
    hide DecodeValue, DecodeNested, OpcodeOf, Code;
    assert Op(op) + [] == Op(op);
    var begun := Opens(input, c, op, [], depth);
  }

  lemma SignedReads(input: Input, c: Cursor, op: Opcode, i: Int64, n: nat, depth: nat)
    requires (op, n) == (PyByte, 1) || (op, n) == (PySignedShort, 2) || (op, n) == (PyLong, 4) || (op, n) == (PyLongLong, 8)
    requires FitsSigned(i, n) && depth <= MAX_MARSHAL_DEPTH
    requires Placed(input, c, Op(op) + LittleEndian(ToUnsigned(i, n), n))
    ensures Reads(DecodeValue(input, c, depth), IntValue(i), c, 1 + n)
  {
    hide DecodeValue, DecodeNested, Placed, Code, OpcodeOf;
    var begun := Opens(input, c, op, LittleEndian(ToUnsigned(i, n), n), depth);
    ReadsWord(input, begun, ToUnsigned(i, n), n);
    SignedRoundTrip(i, n);
  }

  lemma IntegerReads(input: Input, c: Cursor, i: Int64, depth: nat)
    requires Placed(input, c, EncodedInteger(i)) && depth <= MAX_MARSHAL_DEPTH
    ensures Reads(DecodeValue(input, c, depth), IntValue(i), c, |EncodedInteger(i)|)
  {
    hide DecodeValue, DecodeCode, Placed, Code;
    PowersOf256();
    if i == -1 { OpcodeReads(input, c, PyMinusOne, depth); }
    else if i == 0 { OpcodeReads(input, c, PyZeroInteger, depth); }
    else if i == 1 { OpcodeReads(input, c, PyOneInteger, depth); }
    else if -0x80 <= i < 0x80 { SignedReads(input, c, PyByte, i, 1, depth); }
    else if -0x8000 <= i < 0x8000 { SignedReads(input, c, PySignedShort, i, 2, depth); }
    else if -0x8000_0000 <= i < 0x8000_0000 { SignedReads(input, c, PyLong, i, 4, depth); }
    else { SignedReads(input, c, PyLongLong, i, 8, depth); }
  }

  lemma RealReads(input: Input, c: Cursor, bits: Word64, depth: nat)
    requires Placed(input, c, EncodedReal(bits)) && depth <= MAX_MARSHAL_DEPTH
    ensures Reads(DecodeValue(input, c, depth), Canon(RealValue(bits)), c, |EncodedReal(bits)|)
  {
    hide DecodeValue, DecodeNested, Placed, Code, OpcodeOf;
    PowersOf256();
    if bits == 0 || bits == NEGATIVE_ZERO {
      OpcodeReads(input, c, PyZeroReal, depth);
    } else {
      var begun := Opens(input, c, PyReal, LittleEndian(bits, 8), depth);
      ReadsWord(input, begun, bits, 8);
    }
  }

  // A value that is an opcode and sized bytes.
  lemma SizedReads(input: Input, c: Cursor, op: Opcode, bytes: seq<byte>, v: Value, depth: nat)
    requires Placed(input, c, Op(op) + Sized(bytes)) && depth <= MAX_MARSHAL_DEPTH
    requires
      || (op == PyLongString && v == StringValue(bytes)) || (op == PyWStringUTF8 && v == WStringValue(bytes))
      || (op == PyToken && v == TokenValue(bytes)) || (op == PyBuffer && v == BufferValue(bytes))
      || (op == PySubStream && v == SubStreamValue(bytes)) || (op == CPicked && v == CPickedValue(bytes))
    ensures Reads(DecodeValue(input, c, depth), v, c, 1 + |Sized(bytes)|)
  {
    hide DecodeValue, DecodeNested, Placed, Sized, Code, OpcodeOf;
    var begun := Opens(input, c, op, Sized(bytes), depth);
    ReadsSized(input, begun, bytes);
  }

  lemma StringReads(input: Input, c: Cursor, text: seq<byte>, depth: nat)
    requires Placed(input, c, EncodedString(input.table, text)) && depth <= MAX_MARSHAL_DEPTH
    ensures Reads(DecodeValue(input, c, depth), StringValue(text), c, |EncodedString(input.table, text)|)
  {
    hide DecodeValue, DecodeNested, Placed, Sized, IndexOf, Code, OpcodeOf;
    var index := IndexOf(input.table, text);
    if |text| == 0 {
      OpcodeReads(input, c, PyEmptyString, depth);
    } else if |text| == 1 {
      var begun := Opens(input, c, PyCharString, text, depth);
      assert text == [text[0]];
      ReadsByte(input, begun, text[0]);
    } else if index.Some? {
      var begun := Opens(input, c, PyStringTableItem, [index.value], depth);
      ReadsByte(input, begun, index.value);
      LookupUndone(input.table, text);
    } else {
      SizedReads(input, c, PyLongString, text, StringValue(text), depth);
    }
  }

  lemma WStringReads(input: Input, c: Cursor, text: seq<byte>, depth: nat)
    requires Placed(input, c, EncodedWString(text)) && depth <= MAX_MARSHAL_DEPTH
    ensures Reads(DecodeValue(input, c, depth), WStringValue(text), c, |EncodedWString(text)|)
  {
    hide DecodeValue, DecodeCode, Placed, Sized, Code;
    if |text| == 0 {
      OpcodeReads(input, c, PyEmptyWString, depth);
    } else {
      SizedReads(input, c, PyWStringUTF8, text, WStringValue(text), depth);
    }
  }

  // ------------------------------------------------------------------
  // Containers
  // ------------------------------------------------------------------

  predicate IsNested(op: Opcode) {
    op in {PyEmptyTuple, PyOneTuple, PyTwoTuple, PyTuple, PyEmptyList, PyOneList, PyList, PyDict, PyObject, PyObjectEx1, PyObjectEx2,
           PySubStruct, PyChecksumedStream, PyPackedRow}
  }

  lemma OpensNested(input: Input, c: Cursor, op: Opcode, rest: seq<byte>, depth: nat) returns (begun: Cursor)
    requires Placed(input, c, Op(op) + rest) && depth <= MAX_MARSHAL_DEPTH && IsNested(op)
    ensures After(c, begun, 1) && Placed(input, begun, rest) && InStream(input, begun)
    ensures DecodeValue(input, c, depth) == DecodeNested(input, begun, op, depth)
  {
    hide DecodeValue, DecodeNested, Placed, Code, OpcodeOf;
    begun := Opens(input, c, op, rest, depth);
  }

  lemma NestedForm(input: Input, begun: Cursor, op: Opcode, depth: nat)
    requires InStream(input, begun) && depth <= MAX_MARSHAL_DEPTH
    requires op == PyObject || op == PyObjectEx1 || op == PyObjectEx2 || op == PyChecksumedStream || op == PyPackedRow
    ensures DecodeNested(input, begun, op, depth) ==
      if op == PyObject then DecodeObject(input, begun, depth)
      else if op == PyChecksumedStream then DecodeChecksumed(input, begun, depth)
      else if op == PyPackedRow then DecodeRow(input, begun, depth)
      else DecodeObjectEx(input, begun, op == PyObjectEx2, depth)
  {
    hide DecodeObject, DecodeObjectEx, DecodeChecksumed, DecodeRow;
  }

  // The two parts of a sequence of encodings.
  lemma ThenPlaced(input: Input, c: Cursor, first: Encoding, second: Encoding)
    requires Then(first, second).Ok? && Placed(input, c, Then(first, second).value)
    ensures first.Ok? && second.Ok? && Placed(input, c, first.value)
    ensures |Then(first, second).value| == |first.value| + |second.value|
    ensures forall next :: After(c, next, |first.value|) ==> Placed(input, next, second.value)
  {
    PlacedSplits(input, c, first.value, second.value);
  }

  // Every encoding begins with an opcode that is not the terminator.
  predicate BeginsValue(e: Encoding) {
    e.Ok? ==> e.value != [] && e.value[0] < 0x40 && e.value[0] != Code(PackedTerminator)
  }

  lemma ThenBegins(first: Encoding, second: Encoding)
    requires BeginsValue(first)
    ensures BeginsValue(Then(first, second))
  {
  }

  lemma RowBegins(table: Table, columns: seq<Column>, values: seq<Value>, depth: nat)
    requires depth <= MAX_MARSHAL_DEPTH
    ensures BeginsValue(EncodedRow(table, columns, values, depth))
  {
    hide Then, EncodedValue, EncodedAll, EncodedFields, BeginsValue;
    var header := EncodedValue(table, RowHeader(columns), depth + 1);
    assert BeginsValue(Ok(Op(PyPackedRow))) by { OpBegins(PyPackedRow); }
    ThenBegins(Ok(Op(PyPackedRow)), header);
    ThenBegins(Then(Ok(Op(PyPackedRow)), header),
               Then(EncodedFields(columns, values), EncodedAll(table, Select(values, Trailing(columns, SizeOrder(columns))), depth + 1)));
    ErrorBegins();
  }

  lemma OpBegins(op: Opcode)
    requires op != PackedTerminator
    ensures BeginsValue(Ok(Op(op)))
    ensures forall rest :: BeginsValue(Ok(Op(op) + rest))
  {
    assert Code(op) != Code(PackedTerminator);
  }

  lemma ErrorBegins()
    ensures forall error :: BeginsValue(Err(error))
  {
  }

  lemma LeafBegins(table: Table, v: Value)
    ensures v.IntValue? ==> BeginsValue(Ok(EncodedInteger(v.i)))
    ensures v.RealValue? ==> BeginsValue(Ok(EncodedReal(v.bits)))
    ensures v.StringValue? ==> BeginsValue(Ok(EncodedString(table, v.text)))
    ensures v.WStringValue? ==> BeginsValue(Ok(EncodedWString(v.text)))
  {
    hide LittleEndian, ToUnsigned, IndexOf, Sized;
  }

  lemma HeadBegins(count: nat)
    ensures BeginsValue(Limited(count, TupleHead(count))) && BeginsValue(Limited(count, ListHead(count)))
    ensures BeginsValue(Limited(count, DictHead(count)))
  {
    hide SizeEx;
  }

  lemma EncodingBegins(table: Table, v: Value, depth: nat)
    requires depth <= MAX_MARSHAL_DEPTH + 1
    ensures BeginsValue(EncodedValue(table, v, depth))
  {
    hide EncodedAll, EncodedDict, EncodedObjectEx, EncodedRow, EncodedInteger, EncodedReal, EncodedString, EncodedWString, Sized, BeginsValue,
      Then, Limited, TupleHead, ListHead, DictHead, Op, LittleEndian;
    ErrorBegins();
    LeafBegins(table, v);
    if depth <= MAX_MARSHAL_DEPTH {
      match v {
        case NoneValue => OpBegins(PyNone);
        case BoolValue(b) => OpBegins(if b then PyTrue else PyFalse);
        case IntValue(_) =>
        case RealValue(_) =>
        case StringValue(_) =>
        case WStringValue(_) =>
        case TokenValue(_) => OpBegins(PyToken);
        case BufferValue(_) => OpBegins(PyBuffer);
        case SubStreamValue(_) => OpBegins(PySubStream);
        case CPickedValue(_) => OpBegins(CPicked);
        case TupleValue(items) =>
          HeadBegins(|items|);
          ThenBegins(Limited(|items|, TupleHead(|items|)), EncodedAll(table, items, depth + 1));
        case ListValue(items) =>
          HeadBegins(|items|);
          ThenBegins(Limited(|items|, ListHead(|items|)), EncodedAll(table, items, depth + 1));
        case DictValue(entries) =>
          HeadBegins(|entries|);
          ThenBegins(Limited(|entries|, DictHead(|entries|)), EncodedDict(table, entries, depth + 1));
        case ObjectValue(typeName, args) =>
          OpBegins(PyObject);
          ThenBegins(Ok(Op(PyObject) + EncodedString(table, typeName)), EncodedValue(table, args, depth + 1));
        case ObjectExValue(isType2, header, list, dict) =>
          var op := if isType2 then PyObjectEx2 else PyObjectEx1;
          OpBegins(op);
          ThenBegins(Ok(Op(op)), EncodedObjectEx(table, header, list, dict, depth));
        case SubStructValue(inner) =>
          OpBegins(PySubStruct);
          ThenBegins(Ok(Op(PySubStruct)), EncodedValue(table, inner, depth + 1));
        case ChecksumedValue(checksum, inner) =>
          OpBegins(PyChecksumedStream);
          ThenBegins(Ok(Op(PyChecksumedStream) + LittleEndian(checksum, 4)), EncodedValue(table, inner, depth + 1));
        case PackedRowValue(columns, values) => RowBegins(table, columns, values, depth);
      }
    }
  }

  lemma {:induction false} TupleHeadReads(input: Input, c: Cursor, count: nat, depth: nat) returns (next: Cursor)
    requires Placed(input, c, TupleHead(count)) && count <= MAX_CONTAINER_COUNT && depth <= MAX_MARSHAL_DEPTH
    ensures After(c, next, |TupleHead(count)|) && InStream(input, next)
    ensures DecodeValue(input, c, depth) == DecodeTuple(input, next, count, depth)
  {
    hide DecodeValue, DecodeTuple, Placed, SizeEx, Code;
    var op := if count == 0 then PyEmptyTuple else if count == 1 then PyOneTuple else if count == 2 then PyTwoTuple else PyTuple;
    var rest := if count > 2 then SizeEx(Size32(count)) else [];
    assert TupleHead(count) == Op(op) + rest;
    next := OpensNested(input, c, op, rest, depth);
    if count > 2 {
      ReadsBounded(input, next, count, MAX_CONTAINER_COUNT);
      next := next.(offset := next.offset + |rest|);
    }
  }

  lemma {:induction false} ListHeadReads(input: Input, c: Cursor, count: nat, depth: nat) returns (next: Cursor)
    requires Placed(input, c, ListHead(count)) && count <= MAX_CONTAINER_COUNT && depth <= MAX_MARSHAL_DEPTH
    ensures After(c, next, |ListHead(count)|) && InStream(input, next)
    ensures DecodeValue(input, c, depth) == DecodeList(input, next, count, depth)
  {
    hide DecodeValue, DecodeList, Placed, SizeEx, Code;
    var op := if count == 0 then PyEmptyList else if count == 1 then PyOneList else PyList;
    var rest := if count > 1 then SizeEx(Size32(count)) else [];
    assert ListHead(count) == Op(op) + rest;
    next := OpensNested(input, c, op, rest, depth);
    if count > 1 {
      ReadsBounded(input, next, count, MAX_CONTAINER_COUNT);
      next := next.(offset := next.offset + |rest|);
    }
  }

  // The terminator is recognised, and nothing else is taken for it.
  lemma TerminatorReads(input: Input, c: Cursor)
    requires Placed(input, c, Op(PackedTerminator))
    ensures InStream(input, c) && AtTerminator(input, c) == Got(true, c.(offset := c.offset + 1))
  {
    AtByte(input.bytes, c.offset, Code(PackedTerminator));
  }

  lemma NoTerminator(input: Input, c: Cursor, e: Encoding)
    requires e.Ok? && BeginsValue(e) && Placed(input, c, e.value)
    ensures InStream(input, c) && AtTerminator(input, c) == Got(false, c)
  {
    assert e.value == [e.value[0]] + e.value[1..];
    AtSplits(input.bytes, c.offset, [e.value[0]], e.value[1..]);
    AtByte(input.bytes, c.offset, e.value[0]);
  }

  // ------------------------------------------------------------------
  // Rows
  // ------------------------------------------------------------------

  lemma {:induction false} ColumnsRestored(columns: seq<Column>)
    ensures ColumnsOf(ColumnTuples(columns)) == Ok(columns)
    ensures CanonAll(ColumnTuples(columns)) == ColumnTuples(columns)
  {
    if columns != [] {
      var tuple := ColumnTuple(columns[0]);
      PowersOf256();
      ModuloKeeps(columns[0].dbType, 0x100);
      PlainColumn(columns[0]);
      ColumnsRestored(columns[1..]);
      assert ColumnTuples(columns)[1..] == ColumnTuples(columns[1..]);
      assert columns == [columns[0]] + columns[1..];
    }
  }

  lemma PlainColumn(column: Column)
    ensures Canon(ColumnTuple(column)) == ColumnTuple(column)
  {
    var items := [StringValue(column.name), IntValue(column.dbType)];
    assert items[1..] == [IntValue(column.dbType)];
    assert items[1..][1..] == [];
    assert AllPlain(items);
    CanonKeeps(ColumnTuple(column));
  }

  /** The header of a row comes back as it was and yields the columns of the row. */
  lemma HeaderRestored(columns: seq<Column>)
    requires |columns| <= MAX_PACKED_ROW_COLUMNS
    ensures Canon(RowHeader(columns)) == RowHeader(columns)
    ensures ExtractColumns(RowHeader(columns)) == Ok(columns)
  {
    ColumnsRestored(columns);
    var list := [TupleValue(ColumnTuples(columns))];
    assert list[1..] == [];
    assert CanonAll(list) == list;
    assert CanonEntries([]) == [];
  }

  lemma FieldsRestored(columns: seq<Column>, values: seq<Value>)
    requires PackedRow(columns, values).Ok? && |values| == |columns|
    ensures DecodeFields(columns, Compressed(PackedRow(columns, values).value)).Ok?
    ensures Restored(columns, values, SizeOrder(columns), seq(|columns|, _ => NoneValue),
      DecodeFields(columns, Compressed(PackedRow(columns, values).value)).value)
  {
    hide PackedRow, Decompressed, Compressed, Restored, Unpacked, ExpectedBytes;
    ExpectedIsPacked(columns, values);
    ExpandCompressed(PackedRow(columns, values).value);
    UnpackPacked(columns, values, seq(|columns|, _ => NoneValue));
  }

  // What the trailing values make of the row: those columns hold their value, the others are as before.
  ghost predicate Filled(columns: seq<Column>, values: seq<Value>, indexes: seq<nat>, before: seq<Value>, after: seq<Value>) {
    && |before| == |after| == |columns|
    && forall i: nat :: i < |columns| ==> after[i] == if i in indexes then Canon(ValueAt(values, i)) else before[i]
  }

  lemma FilledNext(columns: seq<Column>, values: seq<Value>, indexes: seq<nat>, before: seq<Value>, after: seq<Value>)
    requires indexes != [] && InSizeOrder(columns, indexes) && indexes[0] < |columns| == |before|
    requires Filled(columns, values, indexes[1..], before[indexes[0] := Canon(ValueAt(values, indexes[0]))], after)
    ensures Filled(columns, values, indexes, before, after)
  {
    RestWithoutFirst(columns, indexes);
  }

  lemma {:induction false} TrailingElements(columns: seq<Column>, order: seq<nat>)
    requires InSizeOrder(columns, order)
    ensures InSizeOrder(columns, Trailing(columns, order))
    ensures forall x: nat :: x in Trailing(columns, order) <==> x in order && BitsAt(columns, x) == 0
  {
    if order != [] {
      RestWithoutFirst(columns, order);
      TrailingElements(columns, order[1..]);
      if BitsAt(columns, order[0]) == 0 {
        forall x: nat | x in Trailing(columns, order[1..])
          ensures Precedes(columns, order[0], x)
        {
          var k :| 0 <= k < |order| - 1 && order[1..][k] == x;
          assert order[k + 1] == x;
        }
        PrependKeepsOrder(columns, order[0], Trailing(columns, order[1..]));
      }
    }
  }

  // Fields with a width and trailing values together are the whole row.
  lemma RowComplete(columns: seq<Column>, values: seq<Value>, fields: seq<Value>, after: seq<Value>)
    requires |values| == |columns|
    requires Restored(columns, values, SizeOrder(columns), seq(|columns|, _ => NoneValue), fields)
    requires Filled(columns, values, Trailing(columns, SizeOrder(columns)), fields, after)
    ensures after == CanonFields(columns, values, 0)
  {
    SizeOrderIsSorted(columns);
    TrailingElements(columns, SizeOrder(columns));
    forall i: nat | i < |columns|
      ensures after[i] == CanonFields(columns, values, 0)[i]
    {
      assert i in SizeOrder(columns);
      CanonFieldAt(columns, values, 0, i);
    }
  }

  // ------------------------------------------------------------------
  // The round trip
  // ------------------------------------------------------------------

  /** Wherever the encoding of a value lies in a stream, whatever comes before and after it, the decoder
      reads the value back and stops right behind it. */
  lemma {:induction false} ValueReads(input: Input, c: Cursor, v: Value, depth: nat)
    requires depth <= MAX_MARSHAL_DEPTH + 1 && EncodedValue(input.table, v, depth).Ok?
    requires Placed(input, c, EncodedValue(input.table, v, depth).value)
    ensures InStream(input, c)
    ensures Reads(DecodeValue(input, c, depth), Canon(v), c, |EncodedValue(input.table, v, depth).value|)
    decreases MAX_MARSHAL_DEPTH + 1 - depth, 1, 0
  {
    hide DecodeValue, EncodedAll, EncodedDict, EncodedObjectEx, EncodedRow, Sized, EncodedInteger, EncodedReal, EncodedString, EncodedWString,
      CanonAll, CanonEntries, CanonFields, Reads, Then, Limited, Code;
    match v {
      case NoneValue => OpcodeReads(input, c, PyNone, depth);
      case BoolValue(b) => OpcodeReads(input, c, if b then PyTrue else PyFalse, depth);
      case IntValue(i) => IntegerReads(input, c, i, depth);
      case RealValue(bits) => RealReads(input, c, bits, depth);
      case StringValue(text) => StringReads(input, c, text, depth);
      case WStringValue(text) => WStringReads(input, c, text, depth);
      case TokenValue(text) => SizedReads(input, c, PyToken, text, v, depth);
      case BufferValue(data) => SizedReads(input, c, PyBuffer, data, v, depth);
      case SubStreamValue(data) => SizedReads(input, c, PySubStream, data, v, depth);
      case CPickedValue(data) => SizedReads(input, c, CPicked, data, v, depth);
      case TupleValue(items) => TupleReads(input, c, items, depth);
      case ListValue(items) => ListReads(input, c, items, depth);
      case DictValue(entries) => DictReads(input, c, entries, depth);
      case ObjectValue(typeName, args) => ObjectReads(input, c, typeName, args, depth);
      case ObjectExValue(isType2, header, list, dict) => ObjectExReads(input, c, isType2, header, list, dict, depth);
      case SubStructValue(inner) => SubStructReads(input, c, inner, depth);
      case ChecksumedValue(checksum, inner) => ChecksumedReads(input, c, checksum, inner, depth);
      case PackedRowValue(columns, values) => RowReads(input, c, columns, values, depth);
    }
  }

  lemma {:induction false} ItemsRead(input: Input, c: Cursor, items: seq<Value>, depth: nat)
    requires depth <= MAX_MARSHAL_DEPTH + 1 && EncodedAll(input.table, items, depth).Ok? && InStream(input, c)
    requires Placed(input, c, EncodedAll(input.table, items, depth).value)
    ensures Reads(DecodeItems(input, c, |items|, depth), CanonAll(items), c, |EncodedAll(input.table, items, depth).value|)
    decreases MAX_MARSHAL_DEPTH + 1 - depth, 2, |items|
  {
    hide DecodeValue, EncodedValue, Canon, Placed, Then;
    if items != [] {
      var first, rest := EncodedValue(input.table, items[0], depth), EncodedAll(input.table, items[1..], depth);
      ThenPlaced(input, c, first, rest);
      ValueReads(input, c, items[0], depth);
      var next := DecodeValue(input, c, depth).cursor;
      ItemsRead(input, next, items[1..], depth);
    }
  }

  lemma {:induction false} DictEntriesRead(input: Input, c: Cursor, entries: seq<Entry>, depth: nat)
    requires depth <= MAX_MARSHAL_DEPTH + 1 && EncodedDict(input.table, entries, depth).Ok? && InStream(input, c)
    requires Placed(input, c, EncodedDict(input.table, entries, depth).value)
    ensures Reads(DecodeEntries(input, c, |entries|, depth), CanonEntries(entries), c, |EncodedDict(input.table, entries, depth).value|)
    decreases MAX_MARSHAL_DEPTH + 1 - depth, 2, |entries|
  {
    hide DecodeValue, EncodedValue, Canon, Placed, Then;
    if entries != [] {
      var entry := entries[0];
      var value, key := EncodedValue(input.table, entry.value, depth), EncodedValue(input.table, entry.key, depth);
      ThenPlaced(input, c, Then(value, key), EncodedDict(input.table, entries[1..], depth));
      ThenPlaced(input, c, value, key);
      ValueReads(input, c, entry.value, depth);
      var middle := DecodeValue(input, c, depth).cursor;
      ValueReads(input, middle, entry.key, depth);
      var next := DecodeValue(input, middle, depth).cursor;
      DictEntriesRead(input, next, entries[1..], depth);
    }
  }

  lemma {:induction false} UntilReads(input: Input, c: Cursor, list: seq<Value>, depth: nat)
    requires depth <= MAX_MARSHAL_DEPTH + 1 && InStream(input, c)
    requires Then(EncodedAll(input.table, list, depth), Ok(Op(PackedTerminator))).Ok?
    requires Placed(input, c, Then(EncodedAll(input.table, list, depth), Ok(Op(PackedTerminator))).value)
    ensures Reads(DecodeUntil(input, c, depth), CanonAll(list), c, |EncodedAll(input.table, list, depth).value| + 1)
    decreases MAX_MARSHAL_DEPTH + 1 - depth, 2, |list|
  {
    hide DecodeValue, EncodedValue, Canon, Placed, AtTerminator, BeginsValue;
    var end: Encoding := Ok(Op(PackedTerminator));
    if list == [] {
      assert [] + Op(PackedTerminator) == Op(PackedTerminator);
      TerminatorReads(input, c);
    } else {
      var first, rest := EncodedValue(input.table, list[0], depth), EncodedAll(input.table, list[1..], depth);
      ThenAssociates(first, rest, end);
      ThenPlaced(input, c, first, Then(rest, end));
      EncodingBegins(input.table, list[0], depth);
      NoTerminator(input, c, first);
      ValueReads(input, c, list[0], depth);
      UntilReads(input, DecodeValue(input, c, depth).cursor, list[1..], depth);
    }
  }

  lemma ThenAssociates(a: Encoding, b: Encoding, c: Encoding)
    ensures Then(Then(a, b), c) == Then(a, Then(b, c))
  {
    if a.Ok? && b.Ok? && c.Ok? {
      assert a.value + b.value + c.value == a.value + (b.value + c.value);
    }
  }

  lemma {:induction false} PairsRead(input: Input, c: Cursor, dict: seq<Entry>, depth: nat)
    requires depth <= MAX_MARSHAL_DEPTH + 1 && InStream(input, c)
    requires Then(EncodedPairs(input.table, dict, depth), Ok(Op(PackedTerminator))).Ok?
    requires Placed(input, c, Then(EncodedPairs(input.table, dict, depth), Ok(Op(PackedTerminator))).value)
    ensures Reads(DecodePairs(input, c, depth), CanonEntries(dict), c, |EncodedPairs(input.table, dict, depth).value| + 1)
    decreases MAX_MARSHAL_DEPTH + 1 - depth, 2, |dict|
  {
    hide DecodeValue, EncodedValue, Canon, Placed, AtTerminator, BeginsValue;
    var end: Encoding := Ok(Op(PackedTerminator));
    if dict == [] {
      assert [] + Op(PackedTerminator) == Op(PackedTerminator);
      TerminatorReads(input, c);
    } else {
      var entry := dict[0];
      var key, value := EncodedValue(input.table, entry.key, depth), EncodedValue(input.table, entry.value, depth);
      var rest := EncodedPairs(input.table, dict[1..], depth);
      ThenAssociates(Then(key, value), rest, end);
      ThenPlaced(input, c, Then(key, value), Then(rest, end));
      ThenPlaced(input, c, key, value);
      EncodingBegins(input.table, entry.key, depth);
      NoTerminator(input, c, key);
      ValueReads(input, c, entry.key, depth);
      var middle := DecodeValue(input, c, depth).cursor;
      ValueReads(input, middle, entry.value, depth);
      PairsRead(input, DecodeValue(input, middle, depth).cursor, dict[1..], depth);
    }
  }

  lemma {:induction false} TupleReads(input: Input, c: Cursor, items: seq<Value>, depth: nat)
    requires depth <= MAX_MARSHAL_DEPTH && EncodedValue(input.table, TupleValue(items), depth).Ok?
    requires Placed(input, c, EncodedValue(input.table, TupleValue(items), depth).value)
    ensures Reads(DecodeValue(input, c, depth), TupleValue(CanonAll(items)), c, |EncodedValue(input.table, TupleValue(items), depth).value|)
    decreases MAX_MARSHAL_DEPTH + 1 - depth, 0, 0
  {
    hide DecodeValue, DecodeItems, EncodedAll, CanonAll, Placed, Then, TupleHead;
    ThenPlaced(input, c, Limited(|items|, TupleHead(|items|)), EncodedAll(input.table, items, depth + 1));
    var next := TupleHeadReads(input, c, |items|, depth);
    ItemsRead(input, next, items, depth + 1);
  }

  lemma {:induction false} ListReads(input: Input, c: Cursor, items: seq<Value>, depth: nat)
    requires depth <= MAX_MARSHAL_DEPTH && EncodedValue(input.table, ListValue(items), depth).Ok?
    requires Placed(input, c, EncodedValue(input.table, ListValue(items), depth).value)
    ensures Reads(DecodeValue(input, c, depth), ListValue(CanonAll(items)), c, |EncodedValue(input.table, ListValue(items), depth).value|)
    decreases MAX_MARSHAL_DEPTH + 1 - depth, 0, 0
  {
    hide DecodeValue, DecodeItems, EncodedAll, CanonAll, Placed, Then, ListHead;
    ThenPlaced(input, c, Limited(|items|, ListHead(|items|)), EncodedAll(input.table, items, depth + 1));
    var next := ListHeadReads(input, c, |items|, depth);
    ItemsRead(input, next, items, depth + 1);
  }

  lemma DictEncoding(table: Table, entries: seq<Entry>, depth: nat)
    requires depth <= MAX_MARSHAL_DEPTH
    ensures EncodedValue(table, DictValue(entries), depth) ==
      Then(Limited(|entries|, DictHead(|entries|)), EncodedDict(table, entries, depth + 1))
  {
    hide EncodedDict, Then;
  }

  lemma {:induction false} DictReads(input: Input, c: Cursor, entries: seq<Entry>, depth: nat)
    requires depth <= MAX_MARSHAL_DEPTH && EncodedValue(input.table, DictValue(entries), depth).Ok?
    requires Placed(input, c, EncodedValue(input.table, DictValue(entries), depth).value)
    ensures Reads(DecodeValue(input, c, depth), DictValue(CanonEntries(entries)), c,
      |EncodedValue(input.table, DictValue(entries), depth).value|)
    decreases MAX_MARSHAL_DEPTH + 1 - depth, 0, 0
  {
    hide DecodeValue, DecodeEntries, EncodedValue, EncodedDict, CanonEntries, Placed, Then, SizeEx, Code;
    DictEncoding(input.table, entries, depth);
    ThenPlaced(input, c, Limited(|entries|, DictHead(|entries|)), EncodedDict(input.table, entries, depth + 1));
    var begun := OpensNested(input, c, PyDict, SizeEx(Size32(|entries|)), depth);
    ReadsBounded(input, begun, |entries|, MAX_CONTAINER_COUNT);
    DictEntriesRead(input, begun.(offset := begun.offset + |SizeEx(|entries|)|), entries, depth + 1);
  }

  lemma {:induction false} ObjectReads(input: Input, c: Cursor, typeName: seq<byte>, args: Value, depth: nat)
    requires depth <= MAX_MARSHAL_DEPTH && EncodedValue(input.table, ObjectValue(typeName, args), depth).Ok?
    requires Placed(input, c, EncodedValue(input.table, ObjectValue(typeName, args), depth).value)
    ensures Reads(DecodeValue(input, c, depth), ObjectValue(typeName, Canon(args)), c,
      |EncodedValue(input.table, ObjectValue(typeName, args), depth).value|)
    decreases MAX_MARSHAL_DEPTH + 1 - depth, 0, 0
  {
    hide DecodeValue, DecodeNested, DecodeObjectEx, DecodeChecksumed, DecodeRow, Canon, Placed, Then, EncodedString, Code;
    var name := EncodedString(input.table, typeName);
    var rest := EncodedValue(input.table, args, depth + 1);
    ThenPlaced(input, c, Ok(Op(PyObject) + name), rest);
    ThenIsSum(Ok(Op(PyObject) + name), rest);
    var begun := OpensNested(input, c, PyObject, name, depth);
    assert depth < MAX_MARSHAL_DEPTH;
    StringReads(input, begun, typeName, depth + 1);
    var next := DecodeValue(input, begun, depth + 1).cursor;
    assert After(c, next, |Op(PyObject) + name|);
    ValueReads(input, next, args, depth + 1);
    NestedForm(input, begun, PyObject, depth);
  }

  lemma {:induction false} SubStructReads(input: Input, c: Cursor, inner: Value, depth: nat)
    requires depth <= MAX_MARSHAL_DEPTH && EncodedValue(input.table, SubStructValue(inner), depth).Ok?
    requires Placed(input, c, EncodedValue(input.table, SubStructValue(inner), depth).value)
    ensures Reads(DecodeValue(input, c, depth), SubStructValue(Canon(inner)), c,
      |EncodedValue(input.table, SubStructValue(inner), depth).value|)
    decreases MAX_MARSHAL_DEPTH + 1 - depth, 0, 0
  {
    hide DecodeValue, Canon, Placed, Then;
    ThenIsSum(Ok(Op(PySubStruct)), EncodedValue(input.table, inner, depth + 1));
    var begun := OpensNested(input, c, PySubStruct, EncodedValue(input.table, inner, depth + 1).value, depth);
    ValueReads(input, begun, inner, depth + 1);
  }

  lemma {:induction false} ChecksumedReads(input: Input, c: Cursor, checksum: Word32, inner: Value, depth: nat)
    requires depth <= MAX_MARSHAL_DEPTH && EncodedValue(input.table, ChecksumedValue(checksum, inner), depth).Ok?
    requires Placed(input, c, EncodedValue(input.table, ChecksumedValue(checksum, inner), depth).value)
    ensures Reads(DecodeValue(input, c, depth), ChecksumedValue(checksum, Canon(inner)), c,
      |EncodedValue(input.table, ChecksumedValue(checksum, inner), depth).value|)
    decreases MAX_MARSHAL_DEPTH + 1 - depth, 0, 0
  {
    hide DecodeValue, DecodeNested, DecodeObject, DecodeObjectEx, DecodeRow, EncodedValue, Canon, Placed, Then, Code, LittleEndian;
    var rest := EncodedValue(input.table, inner, depth + 1);
    PowersOf256();
    ChecksumedEncoding(input.table, checksum, inner, depth);
    ThenPlaced(input, c, Ok(Op(PyChecksumedStream) + LittleEndian(checksum, 4)), rest);
    var begun := OpensNested(input, c, PyChecksumedStream, LittleEndian(checksum, 4), depth);
    ReadsWord(input, begun, checksum, 4);
    ValueReads(input, begun.(offset := begun.offset + 4), inner, depth + 1);
    NestedForm(input, begun, PyChecksumedStream, depth);
  }

  lemma ChecksumedEncoding(table: Table, checksum: Word32, inner: Value, depth: nat)
    requires depth <= MAX_MARSHAL_DEPTH
    ensures EncodedValue(table, ChecksumedValue(checksum, inner), depth) ==
      Then(Ok(Op(PyChecksumedStream) + LittleEndian(checksum, 4)), EncodedValue(table, inner, depth + 1))
  {
  }

  lemma {:induction false} ObjectExReads(input: Input, c: Cursor, isType2: bool, header: Value, list: seq<Value>, dict: seq<Entry>, depth: nat)
    requires depth <= MAX_MARSHAL_DEPTH && EncodedValue(input.table, ObjectExValue(isType2, header, list, dict), depth).Ok?
    requires Placed(input, c, EncodedValue(input.table, ObjectExValue(isType2, header, list, dict), depth).value)
    ensures Reads(DecodeValue(input, c, depth), ObjectExValue(isType2, Canon(header), CanonAll(list), CanonEntries(dict)), c,
      |EncodedValue(input.table, ObjectExValue(isType2, header, list, dict), depth).value|)
    decreases MAX_MARSHAL_DEPTH + 1 - depth, 0, 1
  {
    hide DecodeValue, DecodeNested, DecodeObject, DecodeChecksumed, DecodeRow, DecodeObjectEx, EncodedObjectEx, Canon, CanonAll, CanonEntries,
      Placed, Then, Code;
    var op := if isType2 then PyObjectEx2 else PyObjectEx1;
    var parts := EncodedObjectEx(input.table, header, list, dict, depth);
    ThenIsSum(Ok(Op(op)), parts);
    var begun := OpensNested(input, c, op, parts.value, depth);
    NestedForm(input, begun, op, depth);
    ObjectExPartsRead(input, begun, isType2, header, list, dict, depth);
  }

  lemma {:induction false} ObjectExPartsRead(input: Input, c: Cursor, isType2: bool, header: Value, list: seq<Value>, dict: seq<Entry>,
                                             depth: nat)
    requires depth <= MAX_MARSHAL_DEPTH && InStream(input, c) && EncodedObjectEx(input.table, header, list, dict, depth).Ok?
    requires Placed(input, c, EncodedObjectEx(input.table, header, list, dict, depth).value)
    ensures Reads(DecodeObjectEx(input, c, isType2, depth), ObjectExValue(isType2, Canon(header), CanonAll(list), CanonEntries(dict)), c,
      |EncodedObjectEx(input.table, header, list, dict, depth).value|)
    decreases MAX_MARSHAL_DEPTH + 1 - depth, 0, 0
  {
    hide DecodeValue, EncodedValue, Canon, CanonAll, CanonEntries, Placed, Then, DecodeUntil, DecodePairs, EncodedAll, EncodedPairs, Code;
    var end: Encoding := Ok(Op(PackedTerminator));
    var head := EncodedValue(input.table, header, depth + 1);
    var listed, paired := Then(EncodedAll(input.table, list, depth + 1), end), Then(EncodedPairs(input.table, dict, depth + 1), end);
    ThenPlaced(input, c, head, Then(listed, paired));
    ValueReads(input, c, header, depth + 1);
    var second := DecodeValue(input, c, depth + 1).cursor;
    ThenPlaced(input, second, listed, paired);
    ThenIsSum(EncodedAll(input.table, list, depth + 1), end);
    ThenIsSum(EncodedPairs(input.table, dict, depth + 1), end);
    UntilReads(input, second, list, depth + 1);
    PairsRead(input, DecodeUntil(input, second, depth + 1).cursor, dict, depth + 1);
  }

  lemma ThenIsSum(first: Encoding, second: Encoding)
    requires Then(first, second).Ok?
    ensures first.Ok? && second.Ok? && Then(first, second).value == first.value + second.value
  {
  }

  lemma {:induction false} TrailingReads(input: Input, c: Cursor, columns: seq<Column>, values: seq<Value>, indexes: seq<nat>,
                                         before: seq<Value>, depth: nat)
    requires depth <= MAX_MARSHAL_DEPTH + 1 && InStream(input, c)
    requires AllBelow(indexes, |columns|) && |before| == |columns| && InSizeOrder(columns, indexes)
    requires EncodedAll(input.table, Select(values, indexes), depth).Ok?
    requires Placed(input, c, EncodedAll(input.table, Select(values, indexes), depth).value)
    ensures var r := DecodeTrailing(input, c, indexes, before, depth);
      r.Got? && Filled(columns, values, indexes, before, r.value)
      && After(c, r.cursor, |EncodedAll(input.table, Select(values, indexes), depth).value|)
    decreases MAX_MARSHAL_DEPTH + 1 - depth, 2, |indexes|
  {
    hide DecodeValue, EncodedValue, Canon, Placed, Then, Filled;
    if indexes == [] {
      NothingFilled(columns, values, before);
    } else {
      var v, rest := ValueAt(values, indexes[0]), indexes[1..];
      assert Select(values, indexes)[1..] == Select(values, rest);
      ThenPlaced(input, c, EncodedValue(input.table, v, depth), EncodedAll(input.table, Select(values, rest), depth));
      ValueReads(input, c, v, depth);
      var next := DecodeValue(input, c, depth).cursor;
      RestWithoutFirst(columns, indexes);
      TrailingReads(input, next, columns, values, rest, before[indexes[0] := Canon(v)], depth);
      FilledNext(columns, values, indexes, before, DecodeTrailing(input, c, indexes, before, depth).value);
    }
  }

  lemma NothingFilled(columns: seq<Column>, values: seq<Value>, before: seq<Value>)
    requires |before| == |columns|
    ensures Filled(columns, values, [], before, before)
  {
  }

  lemma {:induction false} RowBodyReads(input: Input, c: Cursor, columns: seq<Column>, values: seq<Value>, depth: nat)
    requires depth <= MAX_MARSHAL_DEPTH + 1 && InStream(input, c) && |values| == |columns|
    requires var rest := Then(EncodedFields(columns, values), EncodedAll(input.table, Select(values, Trailing(columns, SizeOrder(columns))), depth));
      rest.Ok? && Placed(input, c, rest.value)
    ensures var rest := Then(EncodedFields(columns, values), EncodedAll(input.table, Select(values, Trailing(columns, SizeOrder(columns))), depth));
      Reads(DecodeRowBody(input, c, columns, depth), PackedRowValue(columns, CanonFields(columns, values, 0)), c, |rest.value|)
    decreases MAX_MARSHAL_DEPTH + 1 - depth, 3, 0
  {
    hide CanonFields, Placed, Then, EncodedAll, PackedRow, Compressed, DecodeFields, Sized, DecodeTrailing, Filled, Restored, InSizeOrder;
    var order := SizeOrder(columns);
    var indexes := Trailing(columns, order);
    ThenPlaced(input, c, EncodedFields(columns, values), EncodedAll(input.table, Select(values, indexes), depth));
    ReadsSized(input, c, Compressed(PackedRow(columns, values).value));
    FieldsRestored(columns, values);
    SizeOrderIsSorted(columns);
    TrailingBelow(columns, order, |columns|);
    TrailingElements(columns, order);
    var next := ReadSized(input, c).cursor;
    var unpacked := DecodeFields(columns, Compressed(PackedRow(columns, values).value)).value;
    TrailingReads(input, next, columns, values, indexes, unpacked, depth);
    RowComplete(columns, values, unpacked, DecodeTrailing(input, next, indexes, unpacked, depth).value);
  }

  lemma {:induction false} RowReads(input: Input, c: Cursor, columns: seq<Column>, values: seq<Value>, depth: nat)
    requires depth <= MAX_MARSHAL_DEPTH && EncodedRow(input.table, columns, values, depth).Ok?
    requires Placed(input, c, EncodedRow(input.table, columns, values, depth).value)
    ensures Reads(DecodeValue(input, c, depth), PackedRowValue(columns, CanonFields(columns, values, 0)), c,
      |EncodedRow(input.table, columns, values, depth).value|)
    decreases MAX_MARSHAL_DEPTH + 1 - depth, 0, 0
  {
    hide DecodeValue, DecodeNested, DecodeObject, DecodeObjectEx, DecodeChecksumed, DecodeRowBody, Canon, CanonFields, Placed, Then, EncodedValue, EncodedAll, EncodedFields, RowHeader,
      ExtractColumns, Code, Select, Trailing, SizeOrder;
    var head := EncodedValue(input.table, RowHeader(columns), depth + 1);
    var rest := Then(EncodedFields(columns, values), EncodedAll(input.table, Select(values, Trailing(columns, SizeOrder(columns))), depth + 1));
    ThenPlaced(input, c, Then(Ok(Op(PyPackedRow)), head), rest);
    ThenIsSum(Ok(Op(PyPackedRow)), head);
    var begun := OpensNested(input, c, PyPackedRow, head.value, depth);
    NestedForm(input, begun, PyPackedRow, depth);
    HeaderRestored(columns);
    ValueReads(input, begun, RowHeader(columns), depth + 1);
    var second := DecodeValue(input, begun, depth + 1).cursor;
    assert After(c, second, |Op(PyPackedRow) + head.value|);
    RowBodyReads(input, second, columns, values, depth + 1);
  }
}
