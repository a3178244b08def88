/** The encoder: writes a value into a growing buffer, as the encoding specifies. */
module MarshalEncoder {
  import opened Bytes
  import opened MarshalEncoding
  import opened MarshalTypes
  import opened PackedFields
  import opened Options
  import opened StringTable
  import ZeroRuns

  // The error an encoding ends with, if any.
  function ErrorOf(e: Encoding): Option<Error> {
    if e.Err? then Some(e.error) else None
  }

  class Writer {
    var bytes: seq<byte>

    constructor ()
      ensures bytes == []
    {
      bytes := [];
    }

    method PutU8(value: byte)
      modifies this
      ensures bytes == old(bytes) + [value]
    {
      bytes := bytes + [value];
    }

    method PutUnsigned(value: nat, n: nat)
      modifies this
      ensures bytes == old(bytes) + LittleEndian(value, n)
    {
      bytes := AppendUnsigned(bytes, value, n);
    }

    method PutBytes(more: seq<byte>)
      modifies this
      ensures bytes == old(bytes) + more
    {
      bytes := bytes + more;
    }

    method PutSizeEx(size: Word32)
      modifies this
      ensures bytes == old(bytes) + SizeEx(size)
    {
      if size < SIZE_EX_ESCAPE {
        PutU8(size);
      } else {
        PutU8(SIZE_EX_ESCAPE);
        PutUnsigned(size, 4);
      }
    }

    method PutOpcode(op: Opcode)
      modifies this
      ensures bytes == old(bytes) + Op(op)
    {
      PutU8(Code(op));
    }

    // A size and as many bytes.
    method PutSized(data: seq<byte>)
      modifies this
      ensures bytes == old(bytes) + Sized(data)
    {
      PutSizeEx(Size32(|data|));
      PutBytes(data);
    }

    // ------------------------------------------------------------------
    // Scalars
    // ------------------------------------------------------------------

    method EncodeInteger(i: Int64)
      modifies this
      ensures bytes == old(bytes) + EncodedInteger(i)
    {
      hide LittleEndian, ToUnsigned, Code;
      if i == -1 { PutOpcode(PyMinusOne); }
      else if i == 0 { PutOpcode(PyZeroInteger); }
      else if i == 1 { PutOpcode(PyOneInteger); }
      else if -0x80 <= i < 0x80 { PutOpcode(PyByte); PutUnsigned(ToUnsigned(i, 1), 1); }
      else if -0x8000 <= i < 0x8000 { PutOpcode(PySignedShort); PutUnsigned(ToUnsigned(i, 2), 2); }
      else if -0x8000_0000 <= i < 0x8000_0000 { PutOpcode(PyLong); PutUnsigned(ToUnsigned(i, 4), 4); }
      else { PutOpcode(PyLongLong); PutUnsigned(ToUnsigned(i, 8), 8); }
    }

    method EncodeReal(bits: Word64)
      modifies this
      ensures bytes == old(bytes) + EncodedReal(bits)
    {
      hide LittleEndian, Code;
      if bits == 0 || bits == NEGATIVE_ZERO {
        PutOpcode(PyZeroReal);
      } else {
        PutOpcode(PyReal);
        PutUnsigned(bits, 8);
      }
    }

    method EncodeString(table: Table, text: seq<byte>)
      modifies this
      ensures bytes == old(bytes) + EncodedString(table, text)
    {
      hide Code, IndexOf, Sized;
      if |text| == 0 {
        PutOpcode(PyEmptyString);
      } else if |text| == 1 {
        PutOpcode(PyCharString);
        PutU8(text[0]);
        assert text == [text[0]];
      } else {
        var index := LookupStringIndex(table, text);
        if index.Some? {
          PutOpcode(PyStringTableItem);
          PutU8(index.value);
        } else {
          PutOpcode(PyLongString);
          PutSized(text);
        }
      }
    }

    method EncodeWString(text: seq<byte>)
      modifies this
      ensures bytes == old(bytes) + EncodedWString(text)
    {
      hide Code, Sized;
      if |text| == 0 {
        PutOpcode(PyEmptyWString);
      } else {
        PutOpcode(PyWStringUTF8);
        PutSized(text);
      }
    }

    method EncodeSized(op: Opcode, data: seq<byte>)
      modifies this
      ensures bytes == old(bytes) + (Op(op) + Sized(data))
    {
      hide Code, Sized;
      PutOpcode(op);
      PutSized(data);
    }

    // ------------------------------------------------------------------
    // Values
    // ------------------------------------------------------------------

    // Writes a value or stops with the error of its encoding.
    method EncodeValue(table: Table, v: Value, depth: nat) returns (error: Option<Error>)
      requires depth <= MAX_MARSHAL_DEPTH + 1
      modifies this
      ensures error == ErrorOf(EncodedValue(table, v, depth))
      ensures error.None? ==> bytes == old(bytes) + EncodedValue(table, v, depth).value
      decreases MAX_MARSHAL_DEPTH + 1 - depth, 1, 0
    {
      hide Code, Op, Sized, EncodedInteger, EncodedReal, EncodedString, EncodedWString, EncodedAll, EncodedDict, EncodedObjectEx, EncodedRow,
        TupleHead, ListHead, DictHead, Limited;
      if depth > MAX_MARSHAL_DEPTH { return Some(TooDeep); }
      error := None;
      match v {
        case NoneValue => PutOpcode(PyNone);
        case BoolValue(b) => PutOpcode(if b then PyTrue else PyFalse);
        case IntValue(i) => EncodeInteger(i);
        case RealValue(bits) => EncodeReal(bits);
        case StringValue(text) => EncodeString(table, text);
        case WStringValue(text) => EncodeWString(text);
        case TokenValue(text) => EncodeSized(PyToken, text);
        case BufferValue(data) => EncodeSized(PyBuffer, data);
        case TupleValue(items) => error := EncodeTuple(table, items, depth);
        case ListValue(items) => error := EncodeList(table, items, depth);
        case DictValue(entries) => error := EncodeDict(table, entries, depth);
        case ObjectValue(typeName, args) => error := EncodeObject(table, typeName, args, depth);
        case ObjectExValue(isType2, header, list, dict) => error := EncodeObjectEx(table, isType2, header, list, dict, depth);
        case SubStructValue(inner) => error := EncodeSubStruct(table, inner, depth);
        case SubStreamValue(data) => EncodeSized(PySubStream, data);
        case ChecksumedValue(checksum, inner) => error := EncodeChecksumed(table, checksum, inner, depth);
        case PackedRowValue(columns, values) => error := EncodePackedRow(table, columns, values, depth);
        case CPickedValue(data) => EncodeSized(CPicked, data);
      }
    }

    method EncodeItems(table: Table, items: seq<Value>, depth: nat) returns (error: Option<Error>)
      requires depth <= MAX_MARSHAL_DEPTH + 1
      modifies this
      ensures error == ErrorOf(EncodedAll(table, items, depth))
      ensures error.None? ==> bytes == old(bytes) + EncodedAll(table, items, depth).value
      decreases MAX_MARSHAL_DEPTH + 1 - depth, 2, |items|
    {
      hide EncodedValue;
      ghost var written: seq<byte> := [];
      WrittenNothing(EncodedAll(table, items, depth));
      assert items[0..] == items;
      for i := 0 to |items|
        invariant bytes == old(bytes) + written
        invariant EncodedAll(table, items, depth) == Then(Ok(written), EncodedAll(table, items[i..], depth))
      {
        ghost var head, rest := EncodedValue(table, items[i], depth), EncodedAll(table, items[i + 1..], depth);
        assert items[i..][0] == items[i] && items[i..][1..] == items[i + 1..];
        assert EncodedAll(table, items[i..], depth) == Then(head, rest);
        WrittenMore(written, head, rest);
        error := EncodeValue(table, items[i], depth);
        if error.Some? { return; }
        written := written + head.value;
      }
      assert items[|items|..] == [];
      assert written + [] == written;
      error := None;
    }

    method EncodeTuple(table: Table, items: seq<Value>, depth: nat) returns (error: Option<Error>)
      requires depth <= MAX_MARSHAL_DEPTH
      modifies this
      ensures var spec := Then(Limited(|items|, TupleHead(|items|)), EncodedAll(table, items, depth + 1));
        error == ErrorOf(spec) && (error.None? ==> bytes == old(bytes) + spec.value)
      decreases MAX_MARSHAL_DEPTH + 1 - depth, 0, 0
    {
      hide EncodedAll, Code, SizeEx;
      if |items| > MAX_CONTAINER_COUNT { return Some(LimitExceeded); }
      if |items| == 0 { PutOpcode(PyEmptyTuple); }
      else if |items| == 1 { PutOpcode(PyOneTuple); }
      else if |items| == 2 { PutOpcode(PyTwoTuple); }
      else { PutOpcode(PyTuple); PutSizeEx(Size32(|items|)); }
      error := EncodeItems(table, items, depth + 1);
    }

    method EncodeList(table: Table, items: seq<Value>, depth: nat) returns (error: Option<Error>)
      requires depth <= MAX_MARSHAL_DEPTH
      modifies this
      ensures var spec := Then(Limited(|items|, ListHead(|items|)), EncodedAll(table, items, depth + 1));
        error == ErrorOf(spec) && (error.None? ==> bytes == old(bytes) + spec.value)
      decreases MAX_MARSHAL_DEPTH + 1 - depth, 0, 0
    {
      hide EncodedAll, Code, SizeEx;
      if |items| > MAX_CONTAINER_COUNT { return Some(LimitExceeded); }
      if |items| == 0 { PutOpcode(PyEmptyList); }
      else if |items| == 1 { PutOpcode(PyOneList); }
      else { PutOpcode(PyList); PutSizeEx(Size32(|items|)); }
      error := EncodeItems(table, items, depth + 1);
    }

    method EncodeDict(table: Table, entries: seq<Entry>, depth: nat) returns (error: Option<Error>)
      requires depth <= MAX_MARSHAL_DEPTH
      modifies this
      ensures var spec := Then(Limited(|entries|, DictHead(|entries|)), EncodedDict(table, entries, depth + 1));
        error == ErrorOf(spec) && (error.None? ==> bytes == old(bytes) + spec.value)
      decreases MAX_MARSHAL_DEPTH + 1 - depth, 0, 0
    {
      hide EncodedValue, Code, SizeEx;
      if |entries| > MAX_CONTAINER_COUNT { return Some(LimitExceeded); }
      PutOpcode(PyDict);
      PutSizeEx(Size32(|entries|));
      ghost var start, written: seq<byte> := bytes, [];
      ghost var all := EncodedDict(table, entries, depth + 1);
      WrittenNothing(all);
      assert entries[0..] == entries;
      for i := 0 to |entries|
        invariant bytes == start + written && all == Then(Ok(written), EncodedDict(table, entries[i..], depth + 1))
      {
        ghost var value, key := EncodedValue(table, entries[i].value, depth + 1), EncodedValue(table, entries[i].key, depth + 1);
        ghost var rest := EncodedDict(table, entries[i + 1..], depth + 1);
        assert entries[i..][0] == entries[i] && entries[i..][1..] == entries[i + 1..];
        assert EncodedDict(table, entries[i..], depth + 1) == Then(Then(value, key), rest);
        WrittenMore(written, Then(value, key), rest);
        error := EncodeValue(table, entries[i].value, depth + 1);
        if error.Some? { return; }
        error := EncodeValue(table, entries[i].key, depth + 1);
        if error.Some? { return; }
        written := written + (value.value + key.value);
      }
      assert entries[|entries|..] == [];
      assert written + [] == written;
      error := None;
    }

    method EncodeObject(table: Table, typeName: seq<byte>, args: Value, depth: nat) returns (error: Option<Error>)
      requires depth <= MAX_MARSHAL_DEPTH
      modifies this
      ensures var spec := Then(Ok(Op(PyObject) + EncodedString(table, typeName)), EncodedValue(table, args, depth + 1));
        error == ErrorOf(spec) && (error.None? ==> bytes == old(bytes) + spec.value)
      decreases MAX_MARSHAL_DEPTH + 1 - depth, 0, 0
    {
      hide EncodedValue, EncodedString, Code;
      PutOpcode(PyObject);
      EncodeString(table, typeName);
      error := EncodeValue(table, args, depth + 1);
    }

    method EncodeSubStruct(table: Table, inner: Value, depth: nat) returns (error: Option<Error>)
      requires depth <= MAX_MARSHAL_DEPTH
      modifies this
      ensures var spec := Then(Ok(Op(PySubStruct)), EncodedValue(table, inner, depth + 1));
        error == ErrorOf(spec) && (error.None? ==> bytes == old(bytes) + spec.value)
      decreases MAX_MARSHAL_DEPTH + 1 - depth, 0, 0
    {
      hide EncodedValue, Code;
      PutOpcode(PySubStruct);
      error := EncodeValue(table, inner, depth + 1);
    }

    method EncodeChecksumed(table: Table, checksum: Word32, inner: Value, depth: nat) returns (error: Option<Error>)
      requires depth <= MAX_MARSHAL_DEPTH
      modifies this
      ensures var spec := Then(Ok(Op(PyChecksumedStream) + LittleEndian(checksum, 4)), EncodedValue(table, inner, depth + 1));
        error == ErrorOf(spec) && (error.None? ==> bytes == old(bytes) + spec.value)
      decreases MAX_MARSHAL_DEPTH + 1 - depth, 0, 0
    {
      hide EncodedValue, LittleEndian, Code;
      PutOpcode(PyChecksumedStream);
      PutUnsigned(checksum, 4);
      error := EncodeValue(table, inner, depth + 1);
    }

    method EncodeObjectEx(table: Table, isType2: bool, header: Value, list: seq<Value>, dict: seq<Entry>, depth: nat)
      returns (error: Option<Error>)
      requires depth <= MAX_MARSHAL_DEPTH
      modifies this
      ensures var spec := Then(Ok(Op(if isType2 then PyObjectEx2 else PyObjectEx1)), EncodedObjectEx(table, header, list, dict, depth));
        error == ErrorOf(spec) && (error.None? ==> bytes == old(bytes) + spec.value)
      decreases MAX_MARSHAL_DEPTH + 1 - depth, 0, 0
    {
      hide EncodedValue, EncodedAll, EncodedPairs, Op, Then;
      ObjectExParts(Op(if isType2 then PyObjectEx2 else PyObjectEx1), EncodedValue(table, header, depth + 1),
                    EncodedAll(table, list, depth + 1), EncodedPairs(table, dict, depth + 1), Op(PackedTerminator));
      PutOpcode(if isType2 then PyObjectEx2 else PyObjectEx1);
      error := EncodeValue(table, header, depth + 1);
      if error.Some? { return; }
      error := EncodeItems(table, list, depth + 1);
      if error.Some? { return; }
      PutOpcode(PackedTerminator);
      error := EncodePairs(table, dict, depth + 1);
      if error.Some? { return; }
      PutOpcode(PackedTerminator);
    }

    method EncodePairs(table: Table, entries: seq<Entry>, depth: nat) returns (error: Option<Error>)
      requires depth <= MAX_MARSHAL_DEPTH + 1
      modifies this
      ensures error == ErrorOf(EncodedPairs(table, entries, depth))
      ensures error.None? ==> bytes == old(bytes) + EncodedPairs(table, entries, depth).value
      decreases MAX_MARSHAL_DEPTH + 1 - depth, 2, |entries|
    {
      hide EncodedValue;
      ghost var written: seq<byte> := [];
      ghost var all := EncodedPairs(table, entries, depth);
      WrittenNothing(all);
      assert entries[0..] == entries;
      for i := 0 to |entries|
        invariant bytes == old(bytes) + written && all == Then(Ok(written), EncodedPairs(table, entries[i..], depth))
      {
        ghost var key, value := EncodedValue(table, entries[i].key, depth), EncodedValue(table, entries[i].value, depth);
        ghost var rest := EncodedPairs(table, entries[i + 1..], depth);
        assert entries[i..][0] == entries[i] && entries[i..][1..] == entries[i + 1..];
        assert EncodedPairs(table, entries[i..], depth) == Then(Then(key, value), rest);
        WrittenMore(written, Then(key, value), rest);
        error := EncodeValue(table, entries[i].key, depth);
        if error.Some? { return; }
        error := EncodeValue(table, entries[i].value, depth);
        if error.Some? { return; }
        written := written + (key.value + value.value);
      }
      assert entries[|entries|..] == [];
      assert written + [] == written;
      error := None;
    }

    method EncodePackedRow(table: Table, columns: seq<Column>, values: seq<Value>, depth: nat) returns (error: Option<Error>)
      requires depth <= MAX_MARSHAL_DEPTH
      modifies this
      ensures error == ErrorOf(EncodedRow(table, columns, values, depth))
      ensures error.None? ==> bytes == old(bytes) + EncodedRow(table, columns, values, depth).value
      decreases MAX_MARSHAL_DEPTH + 1 - depth, 0, 0
    {
      hide EncodedValue, EncodedAll, EncodedFields, RowHeader, SizeOrder, Trailing, Select, Code;
      if |columns| > MAX_PACKED_ROW_COLUMNS { return Some(LimitExceeded); }
      if |values| != |columns| { return Some(BadFormat); }
      PutOpcode(PyPackedRow);
      error := EncodeValue(table, RowHeader(columns), depth + 1);
      if error.Some? { return; }
      error := EncodeRowBody(table, columns, values, depth + 1);
    }

    method EncodeRowBody(table: Table, columns: seq<Column>, values: seq<Value>, depth: nat) returns (error: Option<Error>)
      requires depth <= MAX_MARSHAL_DEPTH + 1 && |values| == |columns|
      modifies this
      ensures var spec := Then(EncodedFields(columns, values),
                               EncodedAll(table, Select(values, Trailing(columns, SizeOrder(columns))), depth));
        error == ErrorOf(spec) && (error.None? ==> bytes == old(bytes) + spec.value)
      decreases MAX_MARSHAL_DEPTH + 1 - depth, 3, 0
    {
      hide EncodedValue, EncodedAll, EncodedFields, SizeOrder, Trailing, Select, InSizeOrder;
      var order := SortColumns(columns);
      SizeOrderIsSorted(columns);
      error := EncodeFields(columns, values, order);
      if error.Some? { return; }
      error := EncodeTrailing(table, columns, values, order, depth);
    }

    method EncodeFields(columns: seq<Column>, values: seq<Value>, order: seq<nat>) returns (error: Option<Error>)
      requires order == SizeOrder(columns) && |values| == |columns|
      modifies this
      ensures error == ErrorOf(EncodedFields(columns, values))
      ensures error.None? ==> bytes == old(bytes) + EncodedFields(columns, values).value
    {
      hide PackedRow, SizeOrder, Sized, InSizeOrder;
      var row := PackFields(columns, values, order);
      if row.Err? { return Some(row.error); }
      var rle := ZeroRuns.ZeroCompress(row.value.0, row.value.1);
      PutSized(rle);
      error := None;
    }

    // The loop over the columns without a width.
    method EncodeTrailing(table: Table, columns: seq<Column>, values: seq<Value>, order: seq<nat>, depth: nat) returns (error: Option<Error>)
      requires depth <= MAX_MARSHAL_DEPTH + 1 && AllBelow(order, |columns|) && |values| == |columns|
      modifies this
      ensures var spec := EncodedAll(table, Select(values, Trailing(columns, order)), depth);
        error == ErrorOf(spec) && (error.None? ==> bytes == old(bytes) + spec.value)
      decreases MAX_MARSHAL_DEPTH + 1 - depth, 2, |order|
    {
      hide EncodedValue;
      ghost var written: seq<byte> := [];
      ghost var all := EncodedAll(table, Select(values, Trailing(columns, order)), depth);
      WrittenNothing(all);
      assert order[0..] == order;
      for k := 0 to |order|
        invariant bytes == old(bytes) + written
        invariant all == Then(Ok(written), EncodedAll(table, Select(values, Trailing(columns, order[k..])), depth))
      {
        var i := order[k];
        assert order[k..][0] == i && order[k..][1..] == order[k + 1..];
        if BitsAt(columns, i) == 0 {
          ghost var items := Select(values, Trailing(columns, order[k + 1..]));
          assert Trailing(columns, order[k..])[1..] == Trailing(columns, order[k + 1..]);
          assert Select(values, Trailing(columns, order[k..]))[1..] == items;
          WrittenMore(written, EncodedValue(table, values[i], depth), EncodedAll(table, items, depth));
          error := EncodeValue(table, values[i], depth);
          if error.Some? { return; }
          written := written + EncodedValue(table, values[i], depth).value;
        }
      }
      assert order[|order|..] == [];
      assert written + [] == written;
      error := None;
    }
  }

  lemma ObjectExParts(op: seq<byte>, header: Encoding, list: Encoding, dict: Encoding, end: seq<byte>)
    ensures Then(Ok(op), Then(header, Then(Then(list, Ok(end)), Then(dict, Ok(end))))) ==
      if header.Err? then Err(header.error)
      else if list.Err? then Err(list.error)
      else if dict.Err? then Err(dict.error)
      else Ok(op + header.value + list.value + end + dict.value + end)
  {
    if header.Ok? && list.Ok? && dict.Ok? {
      Associated(op, header.value, list.value, end, dict.value);
    }
  }

  lemma Associated(op: seq<byte>, header: seq<byte>, list: seq<byte>, end: seq<byte>, dict: seq<byte>)
    ensures op + (header + (list + end + (dict + end))) == op + header + list + end + dict + end
  {
  }

  lemma WrittenNothing(all: Encoding)
    ensures all == Then(Ok([]), all)
  {
    if all.Ok? {
      assert [] + all.value == all.value;
    }
  }

  lemma WrittenMore(written: seq<byte>, head: Encoding, rest: Encoding)
    ensures Then(Ok(written), Then(head, rest)) ==
      if head.Err? then Err(head.error) else Then(Ok(written + head.value), rest)
  {
    if head.Ok? && rest.Ok? {
      assert written + (head.value + rest.value) == written + head.value + rest.value;
    }
  }

  method Encode(table: Table, v: Value) returns (r: Encoding)
    ensures r == Encoded(table, v)
  {
    hide EncodedValue, LittleEndian;
    var writer := new Writer();
    writer.PutU8(MARSHAL_HEADER_BYTE);
    writer.PutUnsigned(0, 4);
    assert writer.bytes == Prefix();
    var error := writer.EncodeValue(table, v, 0);
    r := if error.Some? then Err(error.value) else Ok(writer.bytes);
  }

  // ------------------------------------------------------------------
  // The loop that packs the fields of a row
  // ------------------------------------------------------------------

  // Whether a bit is set once the columns in `done` are packed.
  predicate BitDone(columns: seq<Column>, values: seq<Value>, bools: seq<nat>, done: seq<nat>, boolOffset: nat, p: nat) {
    BitOf(columns, values, bools, p) && if p < |bools| then p < boolOffset else p - |bools| in done
  }

  function RegionDone(columns: seq<Column>, values: seq<Value>, bools: seq<nat>, done: seq<nat>, boolOffset: nat): (bits: seq<bool>)
    ensures |bits| == 8 * BitBytes(|bools|, |columns|)
  {
    seq(8 * BitBytes(|bools|, |columns|), p requires 0 <= p => BitDone(columns, values, bools, done, boolOffset, p))
  }

  lemma SetRegionBit(bits: seq<bool>, p: nat)
    requires |bits| % 8 == 0 && p < |bits|
    ensures 0 <= SetBit(ToBytes(bits)[p / 8], p % 8) < 256
    ensures ToBytes(bits)[p / 8 := SetBit(ToBytes(bits)[p / 8], p % 8)] == ToBytes(bits[p := true])
  {
    hide FromBits, SetBit;
    var i := p / 8;
    var marked := bits[p := true];
    SetFromBits(bits[8 * i..8 * i + 8], p % 8);
    assert bits[8 * i..8 * i + 8][p % 8 := true] == marked[8 * i..8 * i + 8];
    assert SetBit(ToBytes(bits)[i], p % 8) == ByteOf(marked, i);
    forall j | 0 <= j < |bits| / 8 && j != i
      ensures ByteOf(marked, j) == ByteOf(bits, j)
    {
      assert marked[8 * j..8 * j + 8] == bits[8 * j..8 * j + 8];
    }
  }

  method AppendPackedScalar(out: seq<byte>, dbType: byte, field: Value) returns (r: Result<seq<byte>>)
    requires TypeBits(dbType) > 1
    ensures r == if Packable(dbType, field) then Ok(out + FieldBytes(dbType, field)) else Err(BadFormat)
  {
    if !field.NoneValue? && !field.IntValue? { return Err(BadFormat); }
    var intValue: int := if field.IntValue? then field.i else 0;
    if IsReal(dbType) && !field.NoneValue? { return Err(BadFormat); }
    var bytes := AppendUnsigned(out, ToUnsigned(intValue, TypeBytes(dbType)), TypeBytes(dbType));
    r := Ok(bytes);
  }

  method CountBools(columns: seq<Column>, order: seq<nat>) returns (boolCount: nat)
    requires AllBelow(order, |columns|)
    ensures boolCount == |Bools(columns, order)|
  {
    boolCount := 0;
    assert order[0..] == order;
    for k := 0 to |order|
      invariant boolCount + |Bools(columns, order[k..])| == |Bools(columns, order)|
    {
      assert order[k..][1..] == order[k + 1..];
      if columns[order[k]].dbType == DB_BOOL {
        boolCount := boolCount + 1;
      }
    }
  }

  method PackFields(columns: seq<Column>, values: seq<Value>, order: seq<nat>) returns (r: Result<(seq<byte>, seq<byte>)>)
    requires order == SizeOrder(columns) && |values| == |columns|
    ensures PackedRow(columns, values) == if r.Err? then Err(r.error) else Ok(r.value.0 + r.value.1)
  {
    SizeOrderIsSorted(columns);
    var boolCount := CountBools(columns, order);
    var bitBytes := BitBytes(boolCount, |columns|);
    ghost var bools := Bools(columns, order);
    var packed: seq<byte> := [];
    var bitData: seq<byte> := seq(bitBytes, _ => 0);
    var boolOffset := 0;
    StartRegion(columns, values, bools);
    assert order[..0] == [];
    for k := 0 to |order|
      invariant packed == PackedBytes(columns, values, order[..k]) && boolOffset == |Bools(columns, order[..k])| <= boolCount
      invariant bitData == ToBytes(RegionDone(columns, values, bools, order[..k], boolOffset))
      invariant forall j :: 0 <= j < k ==> Packable(TypeAt(columns, order[j]), ValueAt(values, order[j]))
    {
      hide *;
      var accepted;
      accepted, packed, bitData, boolOffset := PackColumn(columns, values, order, k, boolCount, packed, bitData, boolOffset);
      if !accepted {
        RefusedField(columns, values, order[k]);
        return Err(BadFormat);
      }
    }
    assert order[..|order|] == order;
    WholeRegion(columns, values, bools, order, boolOffset);
    AllDone(columns, values, order);
    r := Ok((packed, bitData));
  }

  // One round of the packing loop.
  method PackColumn(columns: seq<Column>, values: seq<Value>, order: seq<nat>, k: nat, boolCount: nat, before: seq<byte>, data: seq<byte>,
                    offset: nat)
    returns (accepted: bool, packed: seq<byte>, bitData: seq<byte>, boolOffset: nat)
    requires order == SizeOrder(columns) && |values| == |columns| && k < |order| && boolCount == |Bools(columns, order)|
    requires before == PackedBytes(columns, values, order[..k]) && offset == |Bools(columns, order[..k])|
    requires data == ToBytes(RegionDone(columns, values, Bools(columns, order), order[..k], offset))
    ensures order[k] < |columns|
    ensures accepted <==> Packable(TypeAt(columns, order[k]), ValueAt(values, order[k]))
    ensures accepted ==> packed == PackedBytes(columns, values, order[..k + 1])
    ensures accepted ==> boolOffset == |Bools(columns, order[..k + 1])| <= boolCount
    ensures accepted ==> bitData == ToBytes(RegionDone(columns, values, Bools(columns, order), order[..k + 1], boolOffset))
  {
    hide RegionDone, ToBytes, PackedBytes, Bools, FieldBytes, SizeOrder, Packable, InSizeOrder, SetBit;
    ghost var bools := Bools(columns, order);
    ghost var bits := RegionDone(columns, values, bools, order[..k], offset);
    accepted, packed, bitData, boolOffset := true, before, data, offset;
    SizeOrderIsSorted(columns);
    var i := order[k];
    var dbType, field := columns[i].dbType, values[i];
    ExtendPacked(columns, values, order, k);
    ExtendBools(columns, order, k);
    RegionBounds(columns, order, k);
    if TypeBits(dbType) == 0 {
      NoWidthIsPackable(dbType, field);
      NextPlain(columns, values, bools, order, k, offset);
      return;
    }
    if field.NoneValue? {
      var p := i + boolCount;
      SetRegionBit(bits, p);
      bits := bits[p := true];
      bitData := bitData[p / 8 := SetBit(bitData[p / 8], p % 8)];
    }
    if dbType == DB_BOOL {
      BoolPackable(field);
      if !field.NoneValue? && !field.BoolValue? {
        accepted := false;
        return;
      }
      NextBool(columns, values, bools, order, k, offset);
      if field == BoolValue(true) {
        SetRegionBit(bits, boolOffset);
        bitData := bitData[boolOffset / 8 := SetBit(bitData[boolOffset / 8], boolOffset % 8)];
      }
      boolOffset := boolOffset + 1;
      return;
    }
    NextPlain(columns, values, bools, order, k, offset);
    var appended := AppendPackedScalar(packed, dbType, field);
    if appended.Err? {
      accepted := false;
      return;
    }
    packed := appended.value;
  }

  lemma NoBits(bitBytes: nat)
    ensures ToBytes(seq(8 * bitBytes, _ => false)) == seq(bitBytes, _ => 0)
  {
    var bits: seq<bool> := seq(8 * bitBytes, _ => false);
    forall i | 0 <= i < bitBytes
      ensures ByteOf(bits, i) == 0
    {
      NoBitsByte(bits[8 * i..8 * i + 8]);
    }
  }

  lemma {:induction false} NoBitsByte(bits: seq<bool>)
    requires forall k :: 0 <= k < |bits| ==> !bits[k]
    ensures FromBits(bits) == 0
  {
    if bits != [] {
      NoBitsByte(bits[1..]);
    }
  }

  lemma StartRegion(columns: seq<Column>, values: seq<Value>, bools: seq<nat>)
    ensures ToBytes(RegionDone(columns, values, bools, [], 0)) == seq(BitBytes(|bools|, |columns|), _ => 0)
  {
    var n := BitBytes(|bools|, |columns|);
    NoBits(n);
    assert RegionDone(columns, values, bools, [], 0) == seq(8 * n, _ => false);
  }

  lemma {:induction false} ExtendPacked(columns: seq<Column>, values: seq<Value>, order: seq<nat>, k: nat)
    requires k < |order|
    ensures PackedBytes(columns, values, order[..k + 1]) ==
      PackedBytes(columns, values, order[..k]) + FieldBytes(TypeAt(columns, order[k]), ValueAt(values, order[k]))
    decreases k
  {
    hide FieldBytes;
    if k > 0 {
      ExtendPacked(columns, values, order[1..], k - 1);
      assert order[..k + 1][1..] == order[1..][..k] && order[..k][1..] == order[1..][..k - 1];
    } else {
      assert order[..1][1..] == [];
    }
  }

  lemma {:induction false} ExtendBools(columns: seq<Column>, order: seq<nat>, k: nat)
    requires k < |order|
    ensures Bools(columns, order[..k + 1]) == Bools(columns, order[..k]) + if TypeAt(columns, order[k]) == DB_BOOL then [order[k]] else []
    ensures Bools(columns, order[..k + 1]) <= Bools(columns, order)
    decreases k
  {
    if k > 0 {
      ExtendBools(columns, order[1..], k - 1);
      assert order[..k + 1][1..] == order[1..][..k] && order[..k][1..] == order[1..][..k - 1];
    } else {
      assert order[..1][1..] == [];
    }
  }

  lemma NoWidthIsPackable(dbType: byte, field: Value)
    requires TypeBits(dbType) == 0
    ensures Packable(dbType, field) && FieldBytes(dbType, field) == []
  {
  }

  lemma BoolPackable(field: Value)
    ensures Packable(DB_BOOL, field) <==> field.NoneValue? || field.BoolValue?
    ensures FieldBytes(DB_BOOL, field) == []
  {
  }

  lemma RefusedField(columns: seq<Column>, values: seq<Value>, i: nat)
    requires i < |columns| && !Packable(TypeAt(columns, i), ValueAt(values, i))
    ensures PackedRow(columns, values) == Err(BadFormat)
  {
  }

  lemma AllDone(columns: seq<Column>, values: seq<Value>, order: seq<nat>)
    requires order == SizeOrder(columns)
    requires forall j :: 0 <= j < |order| ==> Packable(TypeAt(columns, order[j]), ValueAt(values, order[j]))
    ensures AllPackable(columns, values)
  {
    hide Packable;
    SizeOrderIsSorted(columns);
    forall i: nat | i < |columns|
      ensures Packable(TypeAt(columns, i), ValueAt(values, i))
    {
      assert i in order;
    }
  }

  lemma RegionBounds(columns: seq<Column>, order: seq<nat>, k: nat)
    requires k < |order| && order == SizeOrder(columns)
    ensures var bools, offset := Bools(columns, order), |Bools(columns, order[..k])|;
      && order[k] < |columns| && order[k] + |bools| < 8 * BitBytes(|bools|, |columns|)
      && (TypeAt(columns, order[k]) == DB_BOOL ==> offset < |bools| && bools[offset] == order[k])
  {
    hide InSizeOrder, SizeOrder, Bools;
    SizeOrderIsSorted(columns);
    ExtendBools(columns, order, k);
    var bools, more, offset := Bools(columns, order), Bools(columns, order[..k + 1]), |Bools(columns, order[..k])|;
    assert TypeAt(columns, order[k]) == DB_BOOL ==> more[offset] == order[k] && more <= bools;
  }

  function Marked(columns: seq<Column>, values: seq<Value>, bools: seq<nat>, i: nat, bits: seq<bool>): seq<bool>
    requires i + |bools| < |bits|
  {
    if IsNull(columns, values, i) then bits[i + |bools| := true] else bits
  }

  // What the next column adds to the bit region: its null bit, and for a bool its own bit.
  lemma NextPlain(columns: seq<Column>, values: seq<Value>, bools: seq<nat>, order: seq<nat>, k: nat, boolOffset: nat)
    requires k < |order| && order[k] < |columns| && order[k] + |bools| < 8 * BitBytes(|bools|, |columns|)
    ensures RegionDone(columns, values, bools, order[..k + 1], boolOffset) ==
      Marked(columns, values, bools, order[k], RegionDone(columns, values, bools, order[..k], boolOffset))
  {
    assert order[..k + 1] == order[..k] + [order[k]];
  }

  lemma NextBool(columns: seq<Column>, values: seq<Value>, bools: seq<nat>, order: seq<nat>, k: nat, boolOffset: nat)
    requires k < |order| && order[k] < |columns| && order[k] + |bools| < 8 * BitBytes(|bools|, |columns|)
    requires boolOffset < |bools| && bools[boolOffset] == order[k]
    ensures var marked := Marked(columns, values, bools, order[k], RegionDone(columns, values, bools, order[..k], boolOffset));
      RegionDone(columns, values, bools, order[..k + 1], boolOffset + 1) ==
        if ValueAt(values, order[k]) == BoolValue(true) then marked[boolOffset := true] else marked
  {
    NextPlain(columns, values, bools, order, k, boolOffset);
  }

  lemma WholeRegion(columns: seq<Column>, values: seq<Value>, bools: seq<nat>, order: seq<nat>, boolOffset: nat)
    requires order == SizeOrder(columns) && bools == Bools(columns, order) && boolOffset == |bools|
    ensures RegionDone(columns, values, bools, order, boolOffset) == BitRegion(columns, values, bools)
  {
    hide SizeOrder;
    SizeOrderIsSorted(columns);
    forall p: nat | p < 8 * BitBytes(|bools|, |columns|)
      ensures BitDone(columns, values, bools, order, boolOffset, p) == BitOf(columns, values, bools, p)
    {
      if p >= |bools| && BitOf(columns, values, bools, p) {
        assert p - |bools| in order;
      }
    }
  }
}
