/** What the decoder makes of a stream. */
module MarshalDecoding {
  import opened Bytes
  import opened MarshalEncoding
  import opened MarshalTypes
  import opened PackedFields
  import opened Options
  import opened StringTable
  import opened ZeroRuns

  // The stream, where its values end, and the string table.
  datatype Input = Input(bytes: seq<byte>, end: nat, table: Table)

  // The state of a decoder; `calls` counts the values it has begun to decode.
  datatype Cursor = Cursor(offset: nat, saved: seq<Option<Value>>, calls: nat)

  datatype Parsed<T> = Got(value: T, cursor: Cursor) | Failed(error: Error, calls: nat) {
    predicate IsFailure() {
      Failed?
    }

    function PropagateFailure<U>(): Parsed<U>
      requires Failed?
    {
      Failed(error, calls)
    }

    function Extract(): Parsed<T>
      requires Got?
    {
      this
    }
  }

  predicate InStream(input: Input, c: Cursor) {
    c.offset <= |input.bytes|
  }

  // Progress of at least `least` bytes, no more calls than bytes, and on failure at most one call more.
  predicate Advances<T>(input: Input, c: Cursor, r: Parsed<T>, least: nat) {
    match r
    case Got(_, next) =>
      && c.offset + least <= next.offset <= |input.bytes| && |next.saved| == |c.saved|
      && c.calls <= next.calls <= c.calls + (next.offset - c.offset)
    case Failed(_, calls) => c.calls <= calls <= c.calls + (|input.bytes| - c.offset) + 1
  }

  // ------------------------------------------------------------------
  // The reader
  // ------------------------------------------------------------------

  function ReadBytes(input: Input, c: Cursor, n: nat): (r: Parsed<seq<byte>>)
    requires InStream(input, c)
    ensures Advances(input, c, r, n) && (r.Got? ==> r.cursor == c.(offset := c.offset + n) && |r.value| == n)
  {
    if n > |input.bytes| - c.offset then Failed(Truncated, c.calls)
    else Got(input.bytes[c.offset..c.offset + n], c.(offset := c.offset + n))
  }

  function ReadByte(input: Input, c: Cursor): (r: Parsed<byte>)
    requires InStream(input, c)
    ensures Advances(input, c, r, 1) && (r.Got? ==> r.cursor == c.(offset := c.offset + 1))
  {
    if c.offset >= |input.bytes| then Failed(Truncated, c.calls)
    else Got(input.bytes[c.offset], c.(offset := c.offset + 1))
  }

  function ReadWord(input: Input, c: Cursor, n: nat): (r: Parsed<nat>)
    requires InStream(input, c)
    ensures Advances(input, c, r, n) && (r.Got? ==> r.cursor == c.(offset := c.offset + n) && r.value < Power256(n))
  {
    var bytes :- ReadBytes(input, c, n);
    Got(FromLittleEndian(bytes.value), bytes.cursor)
  }

  function ReadSizeEx(input: Input, c: Cursor): (r: Parsed<nat>)
    requires InStream(input, c)
    ensures Advances(input, c, r, 1) && (r.Got? ==> r.cursor.calls == c.calls && r.cursor.saved == c.saved)
  {
    var first :- ReadByte(input, c);
    if first.value == SIZE_EX_ESCAPE then ReadWord(input, first.cursor, 4) else Got(first.value, first.cursor)
  }

  function ReadBounded(input: Input, c: Cursor, limit: nat): (r: Parsed<nat>)
    requires InStream(input, c)
    ensures Advances(input, c, r, 1) && (r.Got? ==> r.cursor.calls == c.calls && r.cursor.saved == c.saved && r.value <= limit)
  {
    var size :- ReadSizeEx(input, c);
    if size.value > limit then Failed(LimitExceeded, size.cursor.calls) else size
  }

  // A bounded size and as many bytes.
  function ReadSized(input: Input, c: Cursor): (r: Parsed<seq<byte>>)
    requires InStream(input, c)
    ensures Advances(input, c, r, 1) && (r.Got? ==> r.cursor.calls == c.calls && r.cursor.saved == c.saved)
  {
    var size :- ReadBounded(input, c, MAX_STRING_BYTES);
    ReadBytes(input, size.cursor, size.value)
  }

  function ReadSaveIndex(input: Input, c: Cursor): (r: Parsed<nat>)
    requires InStream(input, c)
    ensures Advances(input, c, r, 0) && (r.Got? ==> r.cursor.calls == c.calls && r.cursor.saved == c.saved)
  {
    if c.saved == [] then Failed(BadFormat, c.calls)
    else if c.offset + 4 > input.end then Failed(Truncated, c.calls)
    else ReadWord(input, c, 4)
  }

  // ------------------------------------------------------------------
  // Values without parts
  // ------------------------------------------------------------------

  function DecodeSigned(input: Input, c: Cursor, n: nat): (r: Parsed<Value>)
    requires InStream(input, c) && (n == 1 || n == 2 || n == 4 || n == 8)
    ensures Advances(input, c, r, 0)
  {
    var word :- ReadWord(input, c, n);
    PowersOf256();
    Got(IntValue(ToSigned(word.value, n)), word.cursor)
  }

  function DecodeVarInteger(input: Input, c: Cursor): (r: Parsed<Value>)
    requires InStream(input, c)
    ensures Advances(input, c, r, 0)
  {
    var size :- ReadBounded(input, c, MAX_STRING_BYTES);
    if size.value == 0 then Got(IntValue(0), size.cursor)
    else if size.value > 8 then Failed(LimitExceeded, size.cursor.calls)
    else
      var word :- ReadWord(input, size.cursor, size.value);
      PowersGrow(size.value, 8);
      PowersOf256();
      Got(IntValue(ToSigned(word.value, 8)), word.cursor)
  }

  lemma {:induction false} PowersGrow(m: nat, n: nat)
    requires m <= n
    ensures Power256(m) <= Power256(n)
  {
    if m < n {
      PowersGrow(m, n - 1);
    }
  }

  function DecodeReal(input: Input, c: Cursor): (r: Parsed<Value>)
    requires InStream(input, c)
    ensures Advances(input, c, r, 0)
  {
    var word :- ReadWord(input, c, 8);
    PowersOf256();
    Got(RealValue(word.value), word.cursor)
  }

  function DecodeChar(input: Input, c: Cursor): (r: Parsed<Value>)
    requires InStream(input, c)
    ensures Advances(input, c, r, 0)
  {
    var letter :- ReadByte(input, c);
    Got(StringValue([letter.value]), letter.cursor)
  }

  function DecodeShortString(input: Input, c: Cursor): (r: Parsed<Value>)
    requires InStream(input, c)
    ensures Advances(input, c, r, 0)
  {
    var size :- ReadByte(input, c);
    var text :- ReadBytes(input, size.cursor, size.value);
    Got(StringValue(text.value), text.cursor)
  }

  function DecodeTableItem(input: Input, c: Cursor): (r: Parsed<Value>)
    requires InStream(input, c)
    ensures Advances(input, c, r, 0)
  {
    var index :- ReadByte(input, c);
    var text := LookupString(input.table, index.value);
    if text.None? then Failed(BadStringTable, index.cursor.calls) else Got(StringValue(text.value), index.cursor)
  }

  // The UTF-8 bytes of one 16-bit unit; surrogates are encoded one by one.
  function Utf8(unit: nat): seq<byte>
    requires unit < 0x1_0000
  {
    if unit < 0x80 then [unit]
    else if unit < 0x800 then [0xC0 + unit / 0x40, 0x80 + unit % 0x40]
    else [0xE0 + unit / 0x1000, 0x80 + unit / 0x40 % 0x40, 0x80 + unit % 0x40]
  }

  function Utf8FromUnits(bytes: seq<byte>): seq<byte>
    requires |bytes| % 2 == 0
  {
    if bytes == [] then []
    else
      PowersOf256();
      Utf8FromUnits(bytes[..|bytes| - 2]) + Utf8(FromLittleEndian(bytes[|bytes| - 2..]))
  }

  function DecodeWide(input: Input, c: Cursor, count: nat): (r: Parsed<Value>)
    requires InStream(input, c)
    ensures Advances(input, c, r, 0)
  {
    if count > MAX_STRING_BYTES / 2 then Failed(LimitExceeded, c.calls)
    else
      var units :- ReadBytes(input, c, 2 * count);
      Got(WStringValue(Utf8FromUnits(units.value)), units.cursor)
  }

  // A value made of the sized bytes that follow.
  function DecodeSized(input: Input, c: Cursor, make: seq<byte> -> Value): (r: Parsed<Value>)
    requires InStream(input, c)
    ensures Advances(input, c, r, 0)
  {
    var data :- ReadSized(input, c);
    Got(make(data.value), data.cursor)
  }

  function DecodeSavedElement(input: Input, c: Cursor): (r: Parsed<Value>)
    requires InStream(input, c)
    ensures Advances(input, c, r, 0)
  {
    var index :- ReadBounded(input, c, MAX_STRING_BYTES);
    if index.value == 0 || index.value > |index.cursor.saved| then Failed(BadFormat, index.cursor.calls)
    else if index.cursor.saved[index.value - 1].None? then Failed(BadFormat, index.cursor.calls)
    else Got(index.cursor.saved[index.value - 1].value, index.cursor)
  }

  // ------------------------------------------------------------------
  // Rows
  // ------------------------------------------------------------------

  function ColumnOf(tuple: Value): Result<Column> {
    if tuple.TupleValue? && |tuple.items| == 2 && tuple.items[0].StringValue? && tuple.items[1].IntValue? then
      PowersOf256();
      Ok(Column(tuple.items[0].text, ToUnsigned(tuple.items[1].i, 1)))
    else Err(BadFormat)
  }

  function ColumnsOf(tuples: seq<Value>): (r: Result<seq<Column>>)
    ensures r.Ok? ==> |r.value| == |tuples|
  {
    if tuples == [] then Ok([])
    else
      var first, rest := ColumnOf(tuples[0]), ColumnsOf(tuples[1..]);
      if first.Err? then Err(first.error) else if rest.Err? then rest else Ok([first.value] + rest.value)
  }

  function ExtractColumns(header: Value): (r: Result<seq<Column>>)
    ensures r.Ok? ==> |r.value| <= MAX_PACKED_ROW_COLUMNS
  {
    if !header.ObjectExValue? || header.header != TokenValue(ROW_DESCRIPTOR) then Err(BadFormat)
    else if |header.list| != 1 || !header.list[0].TupleValue? then Err(BadFormat)
    else if |header.list[0].items| > MAX_PACKED_ROW_COLUMNS then Err(LimitExceeded)
    else ColumnsOf(header.list[0].items)
  }

  // The fields with a width, out of the compressed bytes; the others are still to be filled in.
  function DecodeFields(columns: seq<Column>, rle: seq<byte>): (r: Result<seq<Value>>)
    ensures r.Ok? ==> |r.value| == |columns|
  {
    var unpacked := Decompressed(rle, ExpectedBytes(columns));
    if unpacked.None? then Err(Truncated)
    else
      var order := SizeOrder(columns);
      var boolCount := |Bools(columns, order)|;
      UnpackedFits(columns, unpacked.value);
      Ok(Unpacked(columns, order, unpacked.value, |unpacked.value| - BitBytes(boolCount, |columns|), boolCount, 0, 0,
                  seq(|columns|, _ => NoneValue)))
  }

  // Every index the unpacking uses is within data of the expected length.
  lemma UnpackedFits(columns: seq<Column>, data: seq<byte>)
    requires |data| >= ExpectedBytes(columns)
    ensures var order := SizeOrder(columns);
      var boolCount := |Bools(columns, order)|;
      && BitBytes(boolCount, |columns|) <= |data|
      && Unpackable(columns, order, data, |data| - BitBytes(boolCount, |columns|), boolCount, 0, 0)
      && Width(columns, order) <= |data| - BitBytes(boolCount, |columns|)
  {
    SizeOrderIsSorted(columns);
    OrderOfWidth(columns, |columns|);
  }

  // ------------------------------------------------------------------
  // Values with parts
  // ------------------------------------------------------------------

  function DecodeValue(input: Input, c: Cursor, depth: nat): (r: Parsed<Value>)
    requires InStream(input, c) && depth <= MAX_MARSHAL_DEPTH + 1
    ensures Advances(input, c, r, 1)
    decreases MAX_MARSHAL_DEPTH + 1 - depth, 2, 0
  {
    if depth > MAX_MARSHAL_DEPTH then Failed(TooDeep, c.calls + 1)
    else if c.offset == |input.bytes| then Failed(Truncated, c.calls + 1)
    else
      var raw := input.bytes[c.offset];
      var begun := Cursor(c.offset + 1, c.saved, c.calls + 1);
      if raw / 0x80 == 1 then Failed(BadFormat, begun.calls)
      else if raw / 0x40 == 0 then DecodeCode(input, begun, raw, depth)
      else
        var index :- ReadSaveIndex(input, begun);
        var result :- DecodeCode(input, index.cursor, raw % 0x40, depth);
        if index.value == 0 || index.value > |result.cursor.saved| then Failed(BadFormat, result.cursor.calls)
        else Got(result.value, result.cursor.(saved := result.cursor.saved[index.value - 1 := Some(result.value)]))
  }

  function DecodeCode(input: Input, c: Cursor, code: byte, depth: nat): (r: Parsed<Value>)
    requires InStream(input, c) && depth <= MAX_MARSHAL_DEPTH
    ensures Advances(input, c, r, 0)
    decreases MAX_MARSHAL_DEPTH + 1 - depth, 1, 0
  {
    var op := OpcodeOf(code);
    if op.Err? then Failed(BadFormat, c.calls)
    else
      match op.value
      case PyNone => Got(NoneValue, c)
      case PyTrue => Got(BoolValue(true), c)
      case PyFalse => Got(BoolValue(false), c)
      case PyZeroInteger => Got(IntValue(0), c)
      case PyOneInteger => Got(IntValue(1), c)
      case PyMinusOne => Got(IntValue(-1), c)
      case PyByte => DecodeSigned(input, c, 1)
      case PySignedShort => DecodeSigned(input, c, 2)
      case PyLong => DecodeSigned(input, c, 4)
      case PyLongLong => DecodeSigned(input, c, 8)
      case PyVarInteger => DecodeVarInteger(input, c)
      case PyZeroReal => Got(RealValue(0), c)
      case PyReal => DecodeReal(input, c)
      case PyEmptyString => Got(StringValue([]), c)
      case PyCharString => DecodeChar(input, c)
      case PyShortString => DecodeShortString(input, c)
      case PyLongString => DecodeSized(input, c, text => StringValue(text))
      case PyStringTableItem => DecodeTableItem(input, c)
      case PyEmptyWString => Got(WStringValue([]), c)
      case PyWStringUCS2Char => DecodeWide(input, c, 1)
      case PyWStringUCS2 =>
        var count :- ReadBounded(input, c, MAX_STRING_BYTES);
        DecodeWide(input, count.cursor, count.value)
      case PyWStringUTF8 => DecodeSized(input, c, text => WStringValue(text))
      case PyToken => DecodeSized(input, c, text => TokenValue(text))
      case PyBuffer => DecodeSized(input, c, data => BufferValue(data))
      case PySubStream => DecodeSized(input, c, data => SubStreamValue(data))
      case CPicked => DecodeSized(input, c, data => CPickedValue(data))
      case PySavedStreamElement => DecodeSavedElement(input, c)
      case PackedTerminator => Failed(BadFormat, c.calls)
      case _ => DecodeNested(input, c, op.value, depth)
  }

  function DecodeNested(input: Input, c: Cursor, op: Opcode, depth: nat): (r: Parsed<Value>)
    requires InStream(input, c) && depth <= MAX_MARSHAL_DEPTH
    ensures Advances(input, c, r, 0)
    decreases MAX_MARSHAL_DEPTH + 1 - depth, 0, 1
  {
    match op
    case PyEmptyTuple => DecodeTuple(input, c, 0, depth)
    case PyOneTuple => DecodeTuple(input, c, 1, depth)
    case PyTwoTuple => DecodeTuple(input, c, 2, depth)
    case PyTuple =>
      var count :- ReadBounded(input, c, MAX_CONTAINER_COUNT);
      DecodeTuple(input, count.cursor, count.value, depth)
    case PyEmptyList => DecodeList(input, c, 0, depth)
    case PyOneList => DecodeList(input, c, 1, depth)
    case PyList =>
      var count :- ReadBounded(input, c, MAX_CONTAINER_COUNT);
      DecodeList(input, count.cursor, count.value, depth)
    case PyDict =>
      var count :- ReadBounded(input, c, MAX_CONTAINER_COUNT);
      var entries :- DecodeEntries(input, count.cursor, count.value, depth + 1);
      Got(DictValue(entries.value), entries.cursor)
    case PyObject => DecodeObject(input, c, depth)
    case PyObjectEx1 => DecodeObjectEx(input, c, false, depth)
    case PyObjectEx2 => DecodeObjectEx(input, c, true, depth)
    case PySubStruct =>
      var inner :- DecodeValue(input, c, depth + 1);
      Got(SubStructValue(inner.value), inner.cursor)
    case PyChecksumedStream => DecodeChecksumed(input, c, depth)
    case PyPackedRow => DecodeRow(input, c, depth)
    case _ => Failed(BadFormat, c.calls)
  }

  function DecodeItems(input: Input, c: Cursor, count: nat, depth: nat): (r: Parsed<seq<Value>>)
    requires InStream(input, c) && depth <= MAX_MARSHAL_DEPTH + 1
    ensures Advances(input, c, r, 0)
    decreases MAX_MARSHAL_DEPTH + 1 - depth, 3, count
  {
    if count == 0 then Got([], c)
    else
      var first :- DecodeValue(input, c, depth);
      var rest :- DecodeItems(input, first.cursor, count - 1, depth);
      Got([first.value] + rest.value, rest.cursor)
  }

  function DecodeTuple(input: Input, c: Cursor, count: nat, depth: nat): (r: Parsed<Value>)
    requires InStream(input, c) && depth <= MAX_MARSHAL_DEPTH
    ensures Advances(input, c, r, 0)
    decreases MAX_MARSHAL_DEPTH + 1 - depth, 0, 0
  {
    var items :- DecodeItems(input, c, count, depth + 1);
    Got(TupleValue(items.value), items.cursor)
  }

  function DecodeList(input: Input, c: Cursor, count: nat, depth: nat): (r: Parsed<Value>)
    requires InStream(input, c) && depth <= MAX_MARSHAL_DEPTH
    ensures Advances(input, c, r, 0)
    decreases MAX_MARSHAL_DEPTH + 1 - depth, 0, 0
  {
    var items :- DecodeItems(input, c, count, depth + 1);
    Got(ListValue(items.value), items.cursor)
  }

  function DecodeEntries(input: Input, c: Cursor, count: nat, depth: nat): (r: Parsed<seq<Entry>>)
    requires InStream(input, c) && depth <= MAX_MARSHAL_DEPTH + 1
    ensures Advances(input, c, r, 0)
    decreases MAX_MARSHAL_DEPTH + 1 - depth, 3, count
  {
    if count == 0 then Got([], c)
    else
      var value :- DecodeValue(input, c, depth);
      var key :- DecodeValue(input, value.cursor, depth);
      var rest :- DecodeEntries(input, key.cursor, count - 1, depth);
      Got([Entry(key.value, value.value)] + rest.value, rest.cursor)
  }

  function DecodeObject(input: Input, c: Cursor, depth: nat): (r: Parsed<Value>)
    requires InStream(input, c) && depth <= MAX_MARSHAL_DEPTH
    ensures Advances(input, c, r, 0)
    decreases MAX_MARSHAL_DEPTH + 1 - depth, 0, 0
  {
    var typeName :- DecodeValue(input, c, depth + 1);
    if !typeName.value.StringValue? then Failed(BadFormat, typeName.cursor.calls)
    else
      var args :- DecodeValue(input, typeName.cursor, depth + 1);
      Got(ObjectValue(typeName.value.text, args.value), args.cursor)
  }

  // Whether the terminator comes next; an error if the values end before it.
  function AtTerminator(input: Input, c: Cursor): (r: Parsed<bool>)
    requires InStream(input, c)
    ensures Advances(input, c, r, 0) && (r.Got? ==> c.offset < |input.bytes|)
    ensures r.Got? ==> r.cursor == if r.value then c.(offset := c.offset + 1) else c
  {
    if c.offset >= input.end || c.offset == |input.bytes| then Failed(Truncated, c.calls)
    else if input.bytes[c.offset] % 0x40 == Code(PackedTerminator) then Got(true, c.(offset := c.offset + 1))
    else Got(false, c)
  }

  function DecodeUntil(input: Input, c: Cursor, depth: nat): (r: Parsed<seq<Value>>)
    requires InStream(input, c) && depth <= MAX_MARSHAL_DEPTH + 1
    ensures Advances(input, c, r, 0)
    decreases MAX_MARSHAL_DEPTH + 1 - depth, 3, |input.bytes| - c.offset
  {
    var done :- AtTerminator(input, c);
    if done.value then Got([], done.cursor)
    else
      var first :- DecodeValue(input, c, depth);
      var rest :- DecodeUntil(input, first.cursor, depth);
      Got([first.value] + rest.value, rest.cursor)
  }

  function DecodePairs(input: Input, c: Cursor, depth: nat): (r: Parsed<seq<Entry>>)
    requires InStream(input, c) && depth <= MAX_MARSHAL_DEPTH + 1
    ensures Advances(input, c, r, 0)
    decreases MAX_MARSHAL_DEPTH + 1 - depth, 3, |input.bytes| - c.offset
  {
    var done :- AtTerminator(input, c);
    if done.value then Got([], done.cursor)
    else
      var key :- DecodeValue(input, c, depth);
      var value :- DecodeValue(input, key.cursor, depth);
      var rest :- DecodePairs(input, value.cursor, depth);
      Got([Entry(key.value, value.value)] + rest.value, rest.cursor)
  }

  function DecodeObjectEx(input: Input, c: Cursor, isType2: bool, depth: nat): (r: Parsed<Value>)
    requires InStream(input, c) && depth <= MAX_MARSHAL_DEPTH
    ensures Advances(input, c, r, 0)
    decreases MAX_MARSHAL_DEPTH + 1 - depth, 0, 0
  {
    var header :- DecodeValue(input, c, depth + 1);
    var list :- DecodeUntil(input, header.cursor, depth + 1);
    var dict :- DecodePairs(input, list.cursor, depth + 1);
    Got(ObjectExValue(isType2, header.value, list.value, dict.value), dict.cursor)
  }

  function DecodeChecksumed(input: Input, c: Cursor, depth: nat): (r: Parsed<Value>)
    requires InStream(input, c) && depth <= MAX_MARSHAL_DEPTH
    ensures Advances(input, c, r, 0)
    decreases MAX_MARSHAL_DEPTH + 1 - depth, 0, 0
  {
    var checksum :- ReadWord(input, c, 4);
    var inner :- DecodeValue(input, checksum.cursor, depth + 1);
    PowersOf256();
    Got(ChecksumedValue(checksum.value, inner.value), inner.cursor)
  }

  // The values of the columns at `indexes`, one after the other.
  function DecodeTrailing(input: Input, c: Cursor, indexes: seq<nat>, values: seq<Value>, depth: nat): (r: Parsed<seq<Value>>)
    requires InStream(input, c) && depth <= MAX_MARSHAL_DEPTH + 1 && AllBelow(indexes, |values|)
    ensures Advances(input, c, r, 0) && (r.Got? ==> |r.value| == |values|)
    decreases MAX_MARSHAL_DEPTH + 1 - depth, 3, |indexes|
  {
    if indexes == [] then Got(values, c)
    else
      var value :- DecodeValue(input, c, depth);
      DecodeTrailing(input, value.cursor, indexes[1..], values[indexes[0] := value.value], depth)
  }

  lemma {:induction false} TrailingBelow(columns: seq<Column>, order: seq<nat>, n: nat)
    requires AllBelow(order, n)
    ensures AllBelow(Trailing(columns, order), n)
  {
    if order != [] {
      TrailingBelow(columns, order[1..], n);
    }
  }

  function DecodeRow(input: Input, c: Cursor, depth: nat): (r: Parsed<Value>)
    requires InStream(input, c) && depth <= MAX_MARSHAL_DEPTH
    ensures Advances(input, c, r, 0)
    decreases MAX_MARSHAL_DEPTH + 1 - depth, 0, 0
  {
    var header :- DecodeValue(input, c, depth + 1);
    var columns := ExtractColumns(header.value);
    if columns.Err? then Failed(columns.error, header.cursor.calls)
    else DecodeRowBody(input, header.cursor, columns.value, depth + 1)
  }

  // The limit on the packed bytes is the limit on any sized bytes, so it needs no check of its own.
  function DecodeRowBody(input: Input, c: Cursor, columns: seq<Column>, depth: nat): (r: Parsed<Value>)
    requires InStream(input, c) && depth <= MAX_MARSHAL_DEPTH + 1
    ensures Advances(input, c, r, 0)
    decreases MAX_MARSHAL_DEPTH + 1 - depth, 4, 0
  {
    var rle :- ReadSized(input, c);
    var fields := DecodeFields(columns, rle.value);
    if fields.Err? then Failed(fields.error, rle.cursor.calls)
    else
      var order := SizeOrder(columns);
      SizeOrderIsSorted(columns);
      TrailingBelow(columns, order, |columns|);
      var values :- DecodeTrailing(input, rle.cursor, Trailing(columns, order), fields.value, depth);
      Got(PackedRowValue(columns, values.value), values.cursor)
  }

  // ------------------------------------------------------------------
  // Streams
  // ------------------------------------------------------------------

  // Where the values end, as the decoder computes it: a save table larger than the stream wraps around.
  function ValueEnd(length: nat, saveCount: nat): nat {
    (length - 4 * saveCount) % 0x1_0000_0000_0000_0000
  }

  function DecodeStream(table: Table, stream: seq<byte>, requireExactEnd: bool): (r: Parsed<Value>) {
    var nothing := Cursor(0, [], 0);
    var bare := Input(stream, |stream|, table);
    if |stream| > MAX_STREAM_BYTES then Failed(LimitExceeded, 0)
    else
      var header :- ReadByte(bare, nothing);
      if header.value != MARSHAL_HEADER_BYTE then Failed(BadFormat, 0)
      else
        var saveCount :- ReadWord(bare, header.cursor, 4);
        if saveCount.value > MAX_SAVED_OBJECTS then Failed(LimitExceeded, 0)
        else
          var input := Input(stream, ValueEnd(|stream|, saveCount.value), table);
          var result :- DecodeValue(input, Cursor(5, seq(saveCount.value, _ => None), 0), 0);
          if requireExactEnd && result.cursor.offset != input.end then Failed(BadFormat, result.cursor.calls) else result
  }

  /** Decoding is total: on any bytes it returns a value or one of the errors, having begun fewer values than
      the stream has bytes. */
  lemma DecodeIsTotal(table: Table, stream: seq<byte>, requireExactEnd: bool)
    ensures var r := DecodeStream(table, stream, requireExactEnd);
      match r
      case Got(_, cursor) => 5 < cursor.offset <= |stream| <= MAX_STREAM_BYTES && cursor.calls <= |stream| - 5
      case Failed(_, calls) => calls == 0 || calls + 4 <= |stream|
  {
  }
}
