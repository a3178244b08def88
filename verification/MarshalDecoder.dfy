/** The decoder: walks over a stream with an offset and a save table, as the decoding specifies. */
module MarshalDecoder {
  import opened Bytes
  import opened MarshalDecoding
  import opened MarshalEncoding
  import opened MarshalTypes
  import opened PackedFields
  import opened Options
  import opened StringTable
  import ZeroRuns

  class Decoder {
    const bytes: seq<byte>
    const table: Table
    var offset: nat
    var saved: seq<Option<Value>>
    var valueEnd: nat
    ghost var calls: nat

    ghost predicate Valid()
      reads this
    {
      offset <= |bytes|
    }

    ghost function In(): Input
      reads this`valueEnd
    {
      Input(bytes, valueEnd, table)
    }

    ghost function Now(): Cursor
      reads this
    {
      Cursor(offset, saved, calls)
    }

    // The outcome and the new state are those of the specification.
    ghost predicate Did<T>(r: Result<T>, spec: Parsed<T>)
      reads this
    {
      && Valid()
      && match spec
         case Got(value, cursor) => r == Ok(value) && Now() == cursor
         case Failed(error, n) => r == Err(error) && calls == n
    }

    constructor (stream: seq<byte>, table: Table)
      ensures bytes == stream && this.table == table && Now() == Cursor(0, [], 0) && valueEnd == 0
    {
      bytes, this.table, offset, saved, valueEnd, calls := stream, table, 0, [], 0, 0;
    }

    // ------------------------------------------------------------------
    // The reader
    // ------------------------------------------------------------------

    method ReadU8() returns (r: Result<byte>)
      requires Valid()
      modifies this`offset
      ensures Did(r, ReadByte(In(), old(Now())))
    {
      if offset >= |bytes| { return Err(Truncated); }
      r := Ok(bytes[offset]);
      offset := offset + 1;
    }

    method PeekU8() returns (r: Result<byte>)
      requires Valid()
      ensures r == if offset < |bytes| then Ok(bytes[offset]) else Err(Truncated)
    {
      if offset >= |bytes| { return Err(Truncated); }
      r := Ok(bytes[offset]);
    }

    method ReadRaw(n: nat) returns (r: Result<seq<byte>>)
      requires Valid()
      modifies this`offset
      ensures Did(r, ReadBytes(In(), old(Now()), n))
    {
      if n > |bytes| - offset { return Err(Truncated); }
      r := Ok(bytes[offset..offset + n]);
      offset := offset + n;
    }

    method ReadInteger(n: nat) returns (r: Result<nat>)
      requires Valid()
      modifies this`offset
      ensures Did(r, ReadWord(In(), old(Now()), n))
    {
      if n > |bytes| - offset { return Err(Truncated); }
      var value := ReadUnsigned(bytes, offset, n);
      r := Ok(value);
      offset := offset + n;
    }

    method ReadSize() returns (r: Result<nat>)
      requires Valid()
      modifies this`offset
      ensures Did(r, ReadSizeEx(In(), old(Now())))
    {
      hide ReadWord;
      var first :- ReadU8();
      if first == SIZE_EX_ESCAPE {
        r := ReadInteger(4);
      } else {
        r := Ok(first);
      }
    }

    method ReadBoundedSize(limit: nat) returns (r: Result<nat>)
      requires Valid()
      modifies this`offset
      ensures Did(r, ReadBounded(In(), old(Now()), limit))
    {
      hide ReadSizeEx;
      var size :- ReadSize();
      if size > limit { return Err(LimitExceeded); }
      r := Ok(size);
    }

    method ReadSizedBytes() returns (r: Result<seq<byte>>)
      requires Valid()
      modifies this`offset
      ensures Did(r, ReadSized(In(), old(Now())))
    {
      hide ReadBounded;
      var size :- ReadBoundedSize(MAX_STRING_BYTES);
      r := ReadRaw(size);
    }

    method ReadSaveTableIndex() returns (r: Result<nat>)
      requires Valid()
      modifies this`offset
      ensures Did(r, ReadSaveIndex(In(), old(Now())))
    {
      hide ReadWord;
      if saved == [] { return Err(BadFormat); }
      if offset + 4 > valueEnd { return Err(Truncated); }
      r := ReadInteger(4);
    }

    // ------------------------------------------------------------------
    // Values without parts
    // ------------------------------------------------------------------

    method ReadSigned(n: nat) returns (r: Result<Value>)
      requires Valid() && (n == 1 || n == 2 || n == 4 || n == 8)
      modifies this`offset
      ensures Did(r, DecodeSigned(In(), old(Now()), n))
    {
      hide ReadWord;
      PowersOf256();
      var word :- ReadInteger(n);
      r := Ok(IntValue(ToSigned(word, n)));
    }

    method ReadVarInteger() returns (r: Result<Value>)
      requires Valid()
      modifies this`offset
      ensures Did(r, DecodeVarInteger(In(), old(Now())))
    {
      hide ReadWord, ReadBounded;
      var size :- ReadBoundedSize(MAX_STRING_BYTES);
      if size == 0 { return Ok(IntValue(0)); }
      if size > 8 { return Err(LimitExceeded); }
      PowersGrow(size, 8);
      PowersOf256();
      var word :- ReadInteger(size);
      r := Ok(IntValue(ToSigned(word, 8)));
    }

    method ReadReal() returns (r: Result<Value>)
      requires Valid()
      modifies this`offset
      ensures Did(r, DecodeReal(In(), old(Now())))
    {
      hide ReadWord;
      PowersOf256();
      var word :- ReadInteger(8);
      r := Ok(RealValue(word));
    }

    method ReadChar() returns (r: Result<Value>)
      requires Valid()
      modifies this`offset
      ensures Did(r, DecodeChar(In(), old(Now())))
    {
      var letter :- ReadU8();
      r := Ok(StringValue([letter]));
    }

    method ReadShortString() returns (r: Result<Value>)
      requires Valid()
      modifies this`offset
      ensures Did(r, DecodeShortString(In(), old(Now())))
    {
      var size :- ReadU8();
      var text :- ReadRaw(size);
      r := Ok(StringValue(text));
    }

    method ReadTableItem() returns (r: Result<Value>)
      requires Valid()
      modifies this`offset
      ensures Did(r, DecodeTableItem(In(), old(Now())))
    {
      var index :- ReadU8();
      var text := LookupString(table, index);
      if text.None? { return Err(BadStringTable); }
      r := Ok(StringValue(text.value));
    }

    method ReadWide(count: nat) returns (r: Result<Value>)
      requires Valid()
      modifies this`offset
      ensures Did(r, DecodeWide(In(), old(Now()), count))
    {
      if count > MAX_STRING_BYTES / 2 { return Err(LimitExceeded); }
      var units :- ReadRaw(2 * count);
      var utf8 := UnitsToUtf8(units);
      r := Ok(WStringValue(utf8));
    }

    method ReadSavedElement() returns (r: Result<Value>)
      requires Valid()
      modifies this`offset
      ensures Did(r, DecodeSavedElement(In(), old(Now())))
    {
      hide ReadBounded;
      var index :- ReadBoundedSize(MAX_STRING_BYTES);
      if index == 0 || index > |saved| { return Err(BadFormat); }
      if saved[index - 1].None? { return Err(BadFormat); }
      r := Ok(saved[index - 1].value);
    }

    // ------------------------------------------------------------------
    // Values
    // ------------------------------------------------------------------

    method ReadValue(depth: nat) returns (r: Result<Value>)
      requires Valid() && depth <= MAX_MARSHAL_DEPTH + 1
      modifies this`offset, this`saved, this`calls
      ensures Did(r, DecodeValue(In(), old(Now()), depth))
      decreases MAX_MARSHAL_DEPTH + 1 - depth, 2, 0
    {
      hide DecodeCode, ReadSaveIndex;
      calls := calls + 1;
      if depth > MAX_MARSHAL_DEPTH { return Err(TooDeep); }
      var raw :- ReadU8();
      var flagSave, flagUnknown, code := raw / 0x40 % 2 == 1, raw / 0x80 == 1, raw % 0x40;
      if flagUnknown { return Err(BadFormat); }
      if flagSave {
        var storageIndex :- ReadSaveTableIndex();
        var result :- ReadOpcode(code, depth);
        if storageIndex == 0 || storageIndex > |saved| { return Err(BadFormat); }
        saved := saved[storageIndex - 1 := Some(result)];
        r := Ok(result);
      } else {
        r := ReadOpcode(code, depth);
      }
    }

    method ReadOpcode(code: byte, depth: nat) returns (r: Result<Value>)
      requires Valid() && depth <= MAX_MARSHAL_DEPTH
      modifies this`offset, this`saved, this`calls
      ensures Did(r, DecodeCode(In(), old(Now()), code, depth))
      decreases MAX_MARSHAL_DEPTH + 1 - depth, 1, 0
    {
      hide OpcodeOf, DecodeNested, ReadSized, ReadBounded, DecodeSigned, DecodeVarInteger, DecodeReal, DecodeChar, DecodeShortString,
        DecodeTableItem, DecodeWide, DecodeSavedElement;
      var op := OpcodeOf(code);
      if op.Err? { return Err(BadFormat); }
      match op.value {
        case PyNone => r := Ok(NoneValue);
        case PyTrue => r := Ok(BoolValue(true));
        case PyFalse => r := Ok(BoolValue(false));
        case PyZeroInteger => r := Ok(IntValue(0));
        case PyOneInteger => r := Ok(IntValue(1));
        case PyMinusOne => r := Ok(IntValue(-1));
        case PyByte => r := ReadSigned(1);
        case PySignedShort => r := ReadSigned(2);
        case PyLong => r := ReadSigned(4);
        case PyLongLong => r := ReadSigned(8);
        case PyVarInteger => r := ReadVarInteger();
        case PyZeroReal => r := Ok(RealValue(0));
        case PyReal => r := ReadReal();
        case PyEmptyString => r := Ok(StringValue([]));
        case PyCharString => r := ReadChar();
        case PyShortString => r := ReadShortString();
        case PyLongString =>
          var text :- ReadSizedBytes();
          r := Ok(StringValue(text));
        case PyStringTableItem => r := ReadTableItem();
        case PyEmptyWString => r := Ok(WStringValue([]));
        case PyWStringUCS2Char => r := ReadWide(1);
        case PyWStringUCS2 =>
          var count :- ReadBoundedSize(MAX_STRING_BYTES);
          r := ReadWide(count);
        case PyWStringUTF8 =>
          var text :- ReadSizedBytes();
          r := Ok(WStringValue(text));
        case PyToken =>
          var text :- ReadSizedBytes();
          r := Ok(TokenValue(text));
        case PyBuffer =>
          var data :- ReadSizedBytes();
          r := Ok(BufferValue(data));
        case PySubStream =>
          var data :- ReadSizedBytes();
          r := Ok(SubStreamValue(data));
        case CPicked =>
          var data :- ReadSizedBytes();
          r := Ok(CPickedValue(data));
        case PySavedStreamElement => r := ReadSavedElement();
        case PackedTerminator => r := Err(BadFormat);
        case _ => r := ReadNested(op.value, depth);
      }
    }

    method ReadNested(op: Opcode, depth: nat) returns (r: Result<Value>)
      requires Valid() && depth <= MAX_MARSHAL_DEPTH
      modifies this`offset, this`saved, this`calls
      ensures Did(r, DecodeNested(In(), old(Now()), op, depth))
      decreases MAX_MARSHAL_DEPTH + 1 - depth, 0, 1
    {
      hide DecodeValue, DecodeTuple, DecodeList, DecodeEntries, DecodeObject, DecodeObjectEx, DecodeChecksumed, DecodeRow, ReadBounded,
        Advances;
      match op {
        case PyEmptyTuple => r := ReadTuple(0, depth);
        case PyOneTuple => r := ReadTuple(1, depth);
        case PyTwoTuple => r := ReadTuple(2, depth);
        case PyEmptyList => r := ReadList(0, depth);
        case PyOneList => r := ReadList(1, depth);
        case PyTuple => r := ReadCounted(op, depth);
        case PyList => r := ReadCounted(op, depth);
        case PyDict => r := ReadCounted(op, depth);
        case PyObject => r := ReadObject(depth);
        case PyObjectEx1 => r := ReadObjectEx(false, depth);
        case PyObjectEx2 => r := ReadObjectEx(true, depth);
        case PySubStruct => r := ReadSubStruct(depth);
        case PyChecksumedStream => r := ReadChecksumed(depth);
        case PyPackedRow => r := ReadRow(depth);
        case _ => r := Err(BadFormat);
      }
    }

    method ReadSubStruct(depth: nat) returns (r: Result<Value>)
      requires Valid() && depth <= MAX_MARSHAL_DEPTH
      modifies this`offset, this`saved, this`calls
      ensures Did(r, DecodeNested(In(), old(Now()), PySubStruct, depth))
      decreases MAX_MARSHAL_DEPTH + 1 - depth, 0, 0
    {
      hide DecodeValue;
      var inner :- ReadValue(depth + 1);
      r := Ok(SubStructValue(inner));
    }

    // The containers that begin with a bounded count.
    method ReadCounted(op: Opcode, depth: nat) returns (r: Result<Value>)
      requires Valid() && depth <= MAX_MARSHAL_DEPTH && (op == PyTuple || op == PyList || op == PyDict)
      modifies this`offset, this`saved, this`calls
      ensures Did(r, DecodeNested(In(), old(Now()), op, depth))
      decreases MAX_MARSHAL_DEPTH + 1 - depth, 0, 0
    {
      hide DecodeValue, DecodeItems, DecodeEntries, DecodeObject, DecodeObjectEx, DecodeChecksumed, DecodeRow, ReadBounded, Advances;
      var count :- ReadBoundedSize(MAX_CONTAINER_COUNT);
      if op == PyDict {
        var entries :- ReadEntries(count, depth + 1);
        r := Ok(DictValue(entries));
      } else {
        var items :- ReadItems(count, depth + 1);
        r := Ok(if op == PyTuple then TupleValue(items) else ListValue(items));
      }
    }

    method ReadItems(count: nat, depth: nat) returns (r: Result<seq<Value>>)
      requires Valid() && depth <= MAX_MARSHAL_DEPTH + 1
      modifies this`offset, this`saved, this`calls
      ensures Did(r, DecodeItems(In(), old(Now()), count, depth))
      decreases MAX_MARSHAL_DEPTH + 1 - depth, 3, count
    {
      hide DecodeValue;
      var items: seq<Value> := [];
      ghost var all := DecodeItems(In(), Now(), count, depth);
      PrefixedByNothing(all);
      for i := 0 to count
        invariant Valid() && all == Prefixed(items, DecodeItems(In(), Now(), count - i, depth))
      {
        ghost var value := DecodeValue(In(), Now(), depth);
        ghost var rest := if value.Got? then DecodeItems(In(), value.cursor, count - i - 1, depth) else Got([], Now());
        if value.Got? {
          PrefixedOnce(items, value.value, rest);
        }
        var item :- ReadValue(depth);
        items := items + [item];
      }
      assert items + [] == items;
      r := Ok(items);
    }

    method ReadTuple(count: nat, depth: nat) returns (r: Result<Value>)
      requires Valid() && depth <= MAX_MARSHAL_DEPTH
      modifies this`offset, this`saved, this`calls
      ensures Did(r, DecodeTuple(In(), old(Now()), count, depth))
      decreases MAX_MARSHAL_DEPTH + 1 - depth, 0, 0
    {
      hide DecodeItems;
      var items :- ReadItems(count, depth + 1);
      r := Ok(TupleValue(items));
    }

    method ReadList(count: nat, depth: nat) returns (r: Result<Value>)
      requires Valid() && depth <= MAX_MARSHAL_DEPTH
      modifies this`offset, this`saved, this`calls
      ensures Did(r, DecodeList(In(), old(Now()), count, depth))
      decreases MAX_MARSHAL_DEPTH + 1 - depth, 0, 0
    {
      hide DecodeItems;
      var items :- ReadItems(count, depth + 1);
      r := Ok(ListValue(items));
    }

    method ReadEntries(count: nat, depth: nat) returns (r: Result<seq<Entry>>)
      requires Valid() && depth <= MAX_MARSHAL_DEPTH + 1
      modifies this`offset, this`saved, this`calls
      ensures Did(r, DecodeEntries(In(), old(Now()), count, depth))
      decreases MAX_MARSHAL_DEPTH + 1 - depth, 3, count
    {
      hide DecodeValue;
      var entries: seq<Entry> := [];
      ghost var all := DecodeEntries(In(), Now(), count, depth);
      PrefixedByNothing(all);
      for i := 0 to count
        invariant Valid() && all == Prefixed(entries, DecodeEntries(In(), Now(), count - i, depth))
      {
        var value :- ReadValue(depth);
        var key :- ReadValue(depth);
        PrefixedOnce(entries, Entry(key, value), DecodeEntries(In(), Now(), count - i - 1, depth));
        entries := entries + [Entry(key, value)];
      }
      assert entries + [] == entries;
      r := Ok(entries);
    }

    method ReadObject(depth: nat) returns (r: Result<Value>)
      requires Valid() && depth <= MAX_MARSHAL_DEPTH
      modifies this`offset, this`saved, this`calls
      ensures Did(r, DecodeObject(In(), old(Now()), depth))
      decreases MAX_MARSHAL_DEPTH + 1 - depth, 0, 0
    {
      hide DecodeValue;
      var typeName :- ReadValue(depth + 1);
      if !typeName.StringValue? { return Err(BadFormat); }
      var args :- ReadValue(depth + 1);
      r := Ok(ObjectValue(typeName.text, args));
    }

    // Whether the terminator comes next; it is consumed if so.
    method TakeTerminator() returns (r: Result<bool>)
      requires Valid()
      modifies this`offset
      ensures Did(r, AtTerminator(In(), old(Now())))
    {
      if offset >= valueEnd { return Err(Truncated); }
      var next :- PeekU8();
      if next % 0x40 == Code(PackedTerminator) {
        offset := offset + 1;
        r := Ok(true);
      } else {
        r := Ok(false);
      }
    }

    method ReadUntil(depth: nat) returns (r: Result<seq<Value>>)
      requires Valid() && depth <= MAX_MARSHAL_DEPTH + 1
      modifies this`offset, this`saved, this`calls
      ensures Did(r, DecodeUntil(In(), old(Now()), depth))
      decreases MAX_MARSHAL_DEPTH + 1 - depth, 3, 0
    {
      hide DecodeValue, AtTerminator;
      var list: seq<Value> := [];
      ghost var all := DecodeUntil(In(), Now(), depth);
      PrefixedByNothing(all);
      while true
        invariant Valid() && all == Prefixed(list, DecodeUntil(In(), Now(), depth))
        decreases |bytes| - offset
      {
        var done :- TakeTerminator();
        if done { break; }
        var item :- ReadValue(depth);
        PrefixedOnce(list, item, DecodeUntil(In(), Now(), depth));
        list := list + [item];
      }
      assert list + [] == list;
      r := Ok(list);
    }

    method ReadPairs(depth: nat) returns (r: Result<seq<Entry>>)
      requires Valid() && depth <= MAX_MARSHAL_DEPTH + 1
      modifies this`offset, this`saved, this`calls
      ensures Did(r, DecodePairs(In(), old(Now()), depth))
      decreases MAX_MARSHAL_DEPTH + 1 - depth, 3, 0
    {
      hide DecodeValue, AtTerminator;
      var dict: seq<Entry> := [];
      ghost var all := DecodePairs(In(), Now(), depth);
      PrefixedByNothing(all);
      while true
        invariant Valid() && all == Prefixed(dict, DecodePairs(In(), Now(), depth))
        decreases |bytes| - offset
      {
        var done :- TakeTerminator();
        if done { break; }
        var key :- ReadValue(depth);
        var value :- ReadValue(depth);
        PrefixedOnce(dict, Entry(key, value), DecodePairs(In(), Now(), depth));
        dict := dict + [Entry(key, value)];
      }
      assert dict + [] == dict;
      r := Ok(dict);
    }

    method ReadObjectEx(isType2: bool, depth: nat) returns (r: Result<Value>)
      requires Valid() && depth <= MAX_MARSHAL_DEPTH
      modifies this`offset, this`saved, this`calls
      ensures Did(r, DecodeObjectEx(In(), old(Now()), isType2, depth))
      decreases MAX_MARSHAL_DEPTH + 1 - depth, 0, 0
    {
      hide DecodeValue, DecodeUntil, DecodePairs;
      var header :- ReadValue(depth + 1);
      var list :- ReadUntil(depth + 1);
      var dict :- ReadPairs(depth + 1);
      r := Ok(ObjectExValue(isType2, header, list, dict));
    }

    method ReadChecksumed(depth: nat) returns (r: Result<Value>)
      requires Valid() && depth <= MAX_MARSHAL_DEPTH
      modifies this`offset, this`saved, this`calls
      ensures Did(r, DecodeChecksumed(In(), old(Now()), depth))
      decreases MAX_MARSHAL_DEPTH + 1 - depth, 0, 0
    {
      hide DecodeValue, ReadWord;
      PowersOf256();
      var checksum :- ReadInteger(4);
      var inner :- ReadValue(depth + 1);
      r := Ok(ChecksumedValue(checksum, inner));
    }

    method ReadRow(depth: nat) returns (r: Result<Value>)
      requires Valid() && depth <= MAX_MARSHAL_DEPTH
      modifies this`offset, this`saved, this`calls
      ensures Did(r, DecodeRow(In(), old(Now()), depth))
      decreases MAX_MARSHAL_DEPTH + 1 - depth, 0, 0
    {
      hide DecodeValue, ExtractColumns, DecodeRowBody;
      var header :- ReadValue(depth + 1);
      var columns :- ColumnsOfHeader(header);
      r := ReadRowBody(columns, depth + 1);
    }

    method ReadRowBody(columns: seq<Column>, depth: nat) returns (r: Result<Value>)
      requires Valid() && depth <= MAX_MARSHAL_DEPTH + 1
      modifies this`offset, this`saved, this`calls
      ensures Did(r, DecodeRowBody(In(), old(Now()), columns, depth))
      decreases MAX_MARSHAL_DEPTH + 1 - depth, 4, 0
    {
      hide DecodeFields, DecodeTrailing, ReadSized, SizeOrder, InSizeOrder, Trailing;
      var rle :- ReadSizedBytes();
      var order := SortColumns(columns);
      var fields :- UnpackRow(columns, order, rle);
      SizeOrderIsSorted(columns);
      TrailingBelow(columns, order, |columns|);
      var values :- ReadTrailing(columns, order, fields, depth);
      r := Ok(PackedRowValue(columns, values));
    }

    // The loop over the columns without a width.
    method ReadTrailing(columns: seq<Column>, order: seq<nat>, fields: seq<Value>, depth: nat) returns (r: Result<seq<Value>>)
      requires Valid() && depth <= MAX_MARSHAL_DEPTH + 1 && |fields| == |columns| && AllBelow(order, |columns|)
      modifies this`offset, this`saved, this`calls
      ensures AllBelow(Trailing(columns, order), |columns|)
      ensures Did(r, DecodeTrailing(In(), old(Now()), Trailing(columns, order), fields, depth))
      decreases MAX_MARSHAL_DEPTH + 1 - depth, 3, |order|
    {
      hide DecodeValue;
      var values := fields;
      TrailingBelow(columns, order, |columns|);
      ghost var all := DecodeTrailing(In(), Now(), Trailing(columns, order), fields, depth);
      assert order[0..] == order;
      for k := 0 to |order|
        invariant Valid() && |values| == |columns| && AllBelow(Trailing(columns, order[k..]), |columns|)
        invariant all == DecodeTrailing(In(), Now(), Trailing(columns, order[k..]), values, depth)
      {
        var i := order[k];
        assert order[k..][0] == i && order[k..][1..] == order[k + 1..];
        TrailingBelow(columns, order[k + 1..], |columns|);
        if BitsAt(columns, i) == 0 {
          assert Trailing(columns, order[k..])[1..] == Trailing(columns, order[k + 1..]);
          var value :- ReadValue(depth);
          values := values[i := value];
        }
      }
      assert order[|order|..] == [];
      r := Ok(values);
    }
  }

  // ------------------------------------------------------------------
  // Loops over what has been read
  // ------------------------------------------------------------------

  function Prefixed<T>(head: seq<T>, r: Parsed<seq<T>>): Parsed<seq<T>> {
    if r.Got? then Got(head + r.value, r.cursor) else r
  }

  lemma PrefixedByNothing<T>(r: Parsed<seq<T>>)
    ensures Prefixed([], r) == r
  {
    if r.Got? {
      assert [] + r.value == r.value;
    }
  }

  lemma PrefixedOnce<T>(head: seq<T>, item: T, r: Parsed<seq<T>>)
    ensures Prefixed(head, Prefixed([item], r)) == Prefixed(head + [item], r)
  {
    if r.Got? {
      assert head + ([item] + r.value) == head + [item] + r.value;
    }
  }

  method UnitsToUtf8(bytes: seq<byte>) returns (utf8: seq<byte>)
    requires |bytes| % 2 == 0
    ensures utf8 == Utf8FromUnits(bytes)
  {
    utf8 := [];
    var i := 0;
    PowersOf256();
    while i < |bytes|
      invariant i <= |bytes| && i % 2 == 0 && utf8 == Utf8FromUnits(bytes[..i])
    {
      var unit := ReadUnsigned(bytes, i, 2);
      assert bytes[..i + 2][..i] == bytes[..i] && bytes[..i + 2][i..] == bytes[i..i + 2];
      utf8 := utf8 + Utf8(unit);
      i := i + 2;
    }
    assert bytes[..i] == bytes;
  }

  function PrefixedColumns(head: seq<Column>, r: Result<seq<Column>>): Result<seq<Column>> {
    if r.Ok? then Ok(head + r.value) else r
  }

  method ColumnsOfHeader(header: Value) returns (r: Result<seq<Column>>)
    ensures r == ExtractColumns(header)
  {
    if !header.ObjectExValue? { return Err(BadFormat); }
    if !header.header.TokenValue? || header.header.text != ROW_DESCRIPTOR { return Err(BadFormat); }
    if |header.list| != 1 || !header.list[0].TupleValue? { return Err(BadFormat); }
    var tuples := header.list[0].items;
    if |tuples| > MAX_PACKED_ROW_COLUMNS { return Err(LimitExceeded); }
    var columns: seq<Column> := [];
    ghost var all := ColumnsOf(tuples);
    assert tuples[0..] == tuples;
    assert all.Ok? ==> [] + all.value == all.value;
    for i := 0 to |tuples|
      invariant all == PrefixedColumns(columns, ColumnsOf(tuples[i..]))
    {
      hide ColumnOf;
      assert tuples[i..][0] == tuples[i] && tuples[i..][1..] == tuples[i + 1..];
      var column := ColumnOf(tuples[i]);
      if column.Err? {
        OneColumnError(tuples[i]);
        return Err(BadFormat);
      }
      ghost var rest := ColumnsOf(tuples[i + 1..]);
      assert rest.Ok? ==> columns + ([column.value] + rest.value) == columns + [column.value] + rest.value;
      columns := columns + [column.value];
    }
    assert columns + [] == columns;
    r := Ok(columns);
  }

  lemma OneColumnError(tuple: Value)
    ensures ColumnOf(tuple).Err? ==> ColumnOf(tuple) == Err(BadFormat)
  {
  }

  // The lengths the decompression expects.
  method ExpectedLength(columns: seq<Column>) returns (expected: nat)
    ensures expected == ExpectedBytes(columns)
  {
    var fixedBits, boolCount := 0, 0;
    for i := 0 to |columns|
      invariant fixedBits == FixedBits(columns, i) && boolCount == BoolCount(columns, i)
    {
      if columns[i].dbType == DB_BOOL {
        boolCount := boolCount + 1;
      } else {
        fixedBits := fixedBits + TypeBits(columns[i].dbType);
      }
    }
    expected := fixedBits / 8 + BitBytes(boolCount, |columns|);
  }

  method UnpackRow(columns: seq<Column>, order: seq<nat>, rle: seq<byte>) returns (r: Result<seq<Value>>)
    requires order == SizeOrder(columns)
    ensures r == DecodeFields(columns, rle)
  {
    hide ExpectedBytes, ZeroRuns.Decompressed, Unpacked, SizeOrder, InSizeOrder;
    var expected := ExpectedLength(columns);
    var data := ZeroRuns.ZeroDecompress(rle, expected);
    if data.None? { return Err(Truncated); }
    SizeOrderIsSorted(columns);
    UnpackedFits(columns, data.value);
    var boolCount := 0;
    assert order[0..] == order;
    for k := 0 to |order|
      invariant boolCount + |Bools(columns, order[k..])| == |Bools(columns, order)|
    {
      assert order[k..][1..] == order[k + 1..];
      if columns[order[k]].dbType == DB_BOOL {
        boolCount := boolCount + 1;
      }
    }
    var bitBytes := BitBytes(boolCount, |columns|);
    var values := UnpackFields(columns, order, data.value, |data.value| - bitBytes, boolCount);
    r := Ok(values);
  }

  method UnpackFields(columns: seq<Column>, order: seq<nat>, data: seq<byte>, dataBytes: nat, boolCount: nat) returns (values: seq<Value>)
    requires Unpackable(columns, order, data, dataBytes, boolCount, 0, 0)
    ensures values == Unpacked(columns, order, data, dataBytes, boolCount, 0, 0, seq(|columns|, _ => NoneValue))
  {
    values := seq(|columns|, _ => NoneValue);
    var offset: nat, boolOffset: nat := 0, 0;
    ghost var all := Unpacked(columns, order, data, dataBytes, boolCount, 0, 0, values);
    assert order[0..] == order;
    for k := 0 to |order|
      invariant |values| == |columns| && Unpackable(columns, order[k..], data, dataBytes, boolCount, offset, boolOffset)
      invariant all == Unpacked(columns, order[k..], data, dataBytes, boolCount, offset, boolOffset, values)
    {
      hide *;
      offset, boolOffset, values := UnpackField(columns, order, k, data, dataBytes, boolCount, offset, boolOffset, values);
    }
    assert order[|order|..] == [];
  }

  // One round of the unpacking loop.
  method UnpackField(columns: seq<Column>, order: seq<nat>, k: nat, data: seq<byte>, dataBytes: nat, boolCount: nat, start: nat,
                     boolStart: nat, before: seq<Value>)
    returns (offset: nat, boolOffset: nat, values: seq<Value>)
    requires |before| == |columns| && k < |order| && Unpackable(columns, order[k..], data, dataBytes, boolCount, start, boolStart)
    ensures |values| == |columns| && Unpackable(columns, order[k + 1..], data, dataBytes, boolCount, offset, boolOffset)
    ensures Unpacked(columns, order[k..], data, dataBytes, boolCount, start, boolStart, before) ==
      Unpacked(columns, order[k + 1..], data, dataBytes, boolCount, offset, boolOffset, values)
  {
    hide TypeBits, BitAt, ScalarAt, Unpackable, Width, Bools, BitBytes, Unpacked;
    var i := order[k];
    assert order[k..][0] == i && order[k..][1..] == order[k + 1..];
    NextUnpackable(columns, order[k..], data, dataBytes, boolCount, start, boolStart);
    NextUnpacked(columns, order[k..], data, dataBytes, boolCount, start, boolStart, before);
    offset, boolOffset, values := start, boolStart, before;
    var dbType := columns[i].dbType;
    if TypeBits(dbType) == 0 { return; }
    var isNull := BitAt(data, dataBytes, i + boolCount);
    if dbType == DB_BOOL {
      values := values[i := if isNull then NoneValue else BoolValue(BitAt(data, dataBytes, boolOffset))];
      boolOffset := boolOffset + 1;
      return;
    }
    if isNull {
      values := values[i := NoneValue];
    } else {
      var scalar := ReadPackedScalar(data, offset, dbType);
      values := values[i := scalar];
    }
    offset := offset + TypeBytes(dbType);
  }

  lemma NextUnpackable(columns: seq<Column>, order: seq<nat>, data: seq<byte>, start: nat, boolCount: nat, offset: nat, boolOffset: nat)
    requires order != [] && Unpackable(columns, order, data, start, boolCount, offset, boolOffset)
    ensures order[0] < |columns| && start + (order[0] + boolCount) / 8 < |data|
    ensures TypeBits(DB_BOOL) == 1 && TypeBytes(DB_BOOL) == 0
    ensures TypeBits(columns[order[0]].dbType) == 0 ==> Unpackable(columns, order[1..], data, start, boolCount, offset, boolOffset)
    ensures columns[order[0]].dbType == DB_BOOL ==>
      boolOffset < boolCount && start + boolOffset / 8 < |data| && Unpackable(columns, order[1..], data, start, boolCount, offset, boolOffset + 1)
    ensures TypeBits(columns[order[0]].dbType) > 0 && columns[order[0]].dbType != DB_BOOL ==>
      var next := offset + TypeBytes(columns[order[0]].dbType);
      offset < next <= |data| && Unpackable(columns, order[1..], data, start, boolCount, next, boolOffset)
  {
  }

  lemma NextUnpacked(columns: seq<Column>, order: seq<nat>, data: seq<byte>, start: nat, boolCount: nat, offset: nat, boolOffset: nat,
                     values: seq<Value>)
    requires order != [] && order[0] < |columns| == |values| && start + (order[0] + boolCount) / 8 < |data|
    requires Unpackable(columns, order, data, start, boolCount, offset, boolOffset)
    ensures var i, rest := order[0], order[1..];
      var dbType, isNull := columns[i].dbType, BitAt(data, start, i + boolCount);
      Unpackable(columns, rest, data, start, boolCount, if TypeBits(dbType) == 0 then offset else offset + TypeBytes(dbType),
                 if dbType == DB_BOOL then boolOffset + 1 else boolOffset)
      && Unpacked(columns, order, data, start, boolCount, offset, boolOffset, values) ==
        if TypeBits(dbType) == 0 then Unpacked(columns, rest, data, start, boolCount, offset, boolOffset, values)
        else if dbType == DB_BOOL then
          Unpacked(columns, rest, data, start, boolCount, offset, boolOffset + 1,
                   values[i := if isNull then NoneValue else BoolValue(BitAt(data, start, boolOffset))])
        else
          Unpacked(columns, rest, data, start, boolCount, offset + TypeBytes(dbType), boolOffset,
                   values[i := if isNull then NoneValue else ScalarAt(dbType, data, offset)])
  {
    hide BitAt, ScalarAt;
  }

  method ReadPackedScalar(data: seq<byte>, offset: nat, dbType: byte) returns (value: Value)
    requires TypeBytes(dbType) > 0 && offset + TypeBytes(dbType) <= |data|
    ensures value == ScalarAt(dbType, data, offset)
  {
    var u := ReadUnsigned(data, offset, TypeBytes(dbType));
    value := Scalar(dbType, u);
  }

  method Decode(table: Table, stream: seq<byte>, requireExactEnd: bool) returns (r: Result<Value>)
    ensures var spec := DecodeStream(table, stream, requireExactEnd);
      r == if spec.Got? then Ok(spec.value) else Err(spec.error)
  {
    hide DecodeValue, ReadWord;
    if |stream| > MAX_STREAM_BYTES { return Err(LimitExceeded); }
    var decoder := new Decoder(stream, table);
    decoder.valueEnd := |stream|;
    var header :- decoder.ReadU8();
    if header != MARSHAL_HEADER_BYTE { return Err(BadFormat); }
    var saveCount :- decoder.ReadInteger(4);
    if saveCount > MAX_SAVED_OBJECTS { return Err(LimitExceeded); }
    decoder.saved := seq(saveCount, _ => None);
    // The two subtractions of the program wrap around at 64 bits if the save table is longer than the stream.
    decoder.valueEnd := ValueEnd(|stream|, saveCount);
    var result :- decoder.ReadValue(0);
    if requireExactEnd && decoder.offset != decoder.valueEnd { return Err(BadFormat); }
    r := Ok(result);
  }
}
