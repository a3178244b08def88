/** What the encoder writes for a value. */
module MarshalEncoding {
  import opened Bytes
  import opened MarshalTypes
  import opened PackedFields
  import opened StringTable
  import opened ZeroRuns

  type Encoding = Result<seq<byte>>

  // What is written for two parts in a row; the first error stops the encoder.
  function Then(first: Encoding, second: Encoding): Encoding {
    if first.Err? then first else if second.Err? then second else Ok(first.value + second.value)
  }

  // ------------------------------------------------------------------
  // Sizes and scalars
  // ------------------------------------------------------------------

  function Op(op: Opcode): seq<byte> {
    [Code(op)]
  }

  // The size as the encoder truncates it.
  function Size32(size: nat): Word32 {
    size % 0x1_0000_0000
  }

  function SizeEx(size: Word32): seq<byte> {
    if size < SIZE_EX_ESCAPE then [size] else [SIZE_EX_ESCAPE] + LittleEndian(size, 4)
  }

  // A size and as many bytes.
  function Sized(bytes: seq<byte>): seq<byte> {
    SizeEx(Size32(|bytes|)) + bytes
  }

  function EncodedInteger(i: Int64): seq<byte> {
    if i == -1 then Op(PyMinusOne)
    else if i == 0 then Op(PyZeroInteger)
    else if i == 1 then Op(PyOneInteger)
    else if -0x80 <= i < 0x80 then Op(PyByte) + LittleEndian(ToUnsigned(i, 1), 1)
    else if -0x8000 <= i < 0x8000 then Op(PySignedShort) + LittleEndian(ToUnsigned(i, 2), 2)
    else if -0x8000_0000 <= i < 0x8000_0000 then Op(PyLong) + LittleEndian(ToUnsigned(i, 4), 4)
    else Op(PyLongLong) + LittleEndian(ToUnsigned(i, 8), 8)
  }

  // Positive and negative zero both compare equal to zero.
  function EncodedReal(bits: Word64): seq<byte> {
    if bits == 0 || bits == NEGATIVE_ZERO then Op(PyZeroReal) else Op(PyReal) + LittleEndian(bits, 8)
  }

  function EncodedString(table: Table, text: seq<byte>): seq<byte> {
    if |text| == 0 then Op(PyEmptyString)
    else if |text| == 1 then Op(PyCharString) + text
    else if IndexOf(table, text).Some? then Op(PyStringTableItem) + [IndexOf(table, text).value]
    else Op(PyLongString) + Sized(text)
  }

  function EncodedWString(text: seq<byte>): seq<byte> {
    if |text| == 0 then Op(PyEmptyWString) else Op(PyWStringUTF8) + Sized(text)
  }

  // ------------------------------------------------------------------
  // Containers
  // ------------------------------------------------------------------

  function TupleHead(count: nat): seq<byte> {
    if count == 0 then Op(PyEmptyTuple)
    else if count == 1 then Op(PyOneTuple)
    else if count == 2 then Op(PyTwoTuple)
    else Op(PyTuple) + SizeEx(Size32(count))
  }

  function ListHead(count: nat): seq<byte> {
    if count == 0 then Op(PyEmptyList)
    else if count == 1 then Op(PyOneList)
    else Op(PyList) + SizeEx(Size32(count))
  }

  function DictHead(count: nat): seq<byte> {
    Op(PyDict) + SizeEx(Size32(count))
  }

  function Limited(count: nat, head: seq<byte>): Encoding {
    if count > MAX_CONTAINER_COUNT then Err(LimitExceeded) else Ok(head)
  }

  // ------------------------------------------------------------------
  // Rows
  // ------------------------------------------------------------------

  // "blue.DBRowDescriptor"
  const ROW_DESCRIPTOR: seq<byte> := [
    0x62, 0x6C, 0x75, 0x65, 0x2E, 0x44, 0x42, 0x52, 0x6F, 0x77, 0x44, 0x65, 0x73, 0x63, 0x72, 0x69, 0x70, 0x74, 0x6F, 0x72
  ]

  function ColumnTuple(column: Column): Value {
    TupleValue([StringValue(column.name), IntValue(column.dbType)])
  }

  function ColumnTuples(columns: seq<Column>): (tuples: seq<Value>)
    ensures |tuples| == |columns|
  {
    if columns == [] then [] else [ColumnTuple(columns[0])] + ColumnTuples(columns[1..])
  }

  function RowHeader(columns: seq<Column>): Value {
    ObjectExValue(false, TokenValue(ROW_DESCRIPTOR), [TupleValue(ColumnTuples(columns))], [])
  }

  // The columns without a width, in the order their values follow the packed data.
  function Trailing(columns: seq<Column>, order: seq<nat>): seq<nat> {
    if order == [] then []
    else if BitsAt(columns, order[0]) == 0 then [order[0]] + Trailing(columns, order[1..])
    else Trailing(columns, order[1..])
  }

  function Select(values: seq<Value>, indexes: seq<nat>): seq<Value> {
    if indexes == [] then [] else [ValueAt(values, indexes[0])] + Select(values, indexes[1..])
  }

  function EncodedFields(columns: seq<Column>, values: seq<Value>): Encoding {
    var row := PackedRow(columns, values);
    if row.Err? then row else Ok(Sized(Compressed(row.value)))
  }

  // ------------------------------------------------------------------
  // Values
  // ------------------------------------------------------------------

  function EncodedValue(table: Table, v: Value, depth: nat): Encoding
    requires depth <= MAX_MARSHAL_DEPTH + 1
    decreases MAX_MARSHAL_DEPTH + 1 - depth, 1, 0
  {
    if depth > MAX_MARSHAL_DEPTH then Err(TooDeep)
    else
      match v
      case NoneValue => Ok(Op(PyNone))
      case BoolValue(b) => Ok(Op(if b then PyTrue else PyFalse))
      case IntValue(i) => Ok(EncodedInteger(i))
      case RealValue(bits) => Ok(EncodedReal(bits))
      case StringValue(text) => Ok(EncodedString(table, text))
      case WStringValue(text) => Ok(EncodedWString(text))
      case TokenValue(text) => Ok(Op(PyToken) + Sized(text))
      case BufferValue(data) => Ok(Op(PyBuffer) + Sized(data))
      case TupleValue(items) => Then(Limited(|items|, TupleHead(|items|)), EncodedAll(table, items, depth + 1))
      case ListValue(items) => Then(Limited(|items|, ListHead(|items|)), EncodedAll(table, items, depth + 1))
      case DictValue(entries) => Then(Limited(|entries|, DictHead(|entries|)), EncodedDict(table, entries, depth + 1))
      case ObjectValue(typeName, args) =>
        Then(Ok(Op(PyObject) + EncodedString(table, typeName)), EncodedValue(table, args, depth + 1))
      case ObjectExValue(isType2, header, list, dict) =>
        Then(Ok(Op(if isType2 then PyObjectEx2 else PyObjectEx1)), EncodedObjectEx(table, header, list, dict, depth))
      case SubStructValue(inner) => Then(Ok(Op(PySubStruct)), EncodedValue(table, inner, depth + 1))
      case SubStreamValue(data) => Ok(Op(PySubStream) + Sized(data))
      case ChecksumedValue(checksum, inner) =>
        Then(Ok(Op(PyChecksumedStream) + LittleEndian(checksum, 4)), EncodedValue(table, inner, depth + 1))
      case PackedRowValue(columns, values) => EncodedRow(table, columns, values, depth)
      case CPickedValue(data) => Ok(Op(CPicked) + Sized(data))
  }

  function EncodedAll(table: Table, items: seq<Value>, depth: nat): Encoding
    requires depth <= MAX_MARSHAL_DEPTH + 1
    decreases MAX_MARSHAL_DEPTH + 1 - depth, 2, |items|
  {
    if items == [] then Ok([])
    else Then(EncodedValue(table, items[0], depth), EncodedAll(table, items[1..], depth))
  }

  // The entries of a dict: each value before its key.
  function EncodedDict(table: Table, entries: seq<Entry>, depth: nat): Encoding
    requires depth <= MAX_MARSHAL_DEPTH + 1
    decreases MAX_MARSHAL_DEPTH + 1 - depth, 2, |entries|
  {
    if entries == [] then Ok([])
    else
      Then(Then(EncodedValue(table, entries[0].value, depth), EncodedValue(table, entries[0].key, depth)),
           EncodedDict(table, entries[1..], depth))
  }

  // The entries of an extended object: each key before its value.
  function EncodedPairs(table: Table, entries: seq<Entry>, depth: nat): Encoding
    requires depth <= MAX_MARSHAL_DEPTH + 1
    decreases MAX_MARSHAL_DEPTH + 1 - depth, 2, |entries|
  {
    if entries == [] then Ok([])
    else
      Then(Then(EncodedValue(table, entries[0].key, depth), EncodedValue(table, entries[0].value, depth)),
           EncodedPairs(table, entries[1..], depth))
  }

  function EncodedObjectEx(table: Table, header: Value, list: seq<Value>, dict: seq<Entry>, depth: nat): Encoding
    requires depth <= MAX_MARSHAL_DEPTH
    decreases MAX_MARSHAL_DEPTH + 1 - depth, 0, 0
  {
    Then(EncodedValue(table, header, depth + 1),
         Then(Then(EncodedAll(table, list, depth + 1), Ok(Op(PackedTerminator))),
              Then(EncodedPairs(table, dict, depth + 1), Ok(Op(PackedTerminator)))))
  }

  function EncodedRow(table: Table, columns: seq<Column>, values: seq<Value>, depth: nat): Encoding
    requires depth <= MAX_MARSHAL_DEPTH
    decreases MAX_MARSHAL_DEPTH + 1 - depth, 0, 0
  {
    if |columns| > MAX_PACKED_ROW_COLUMNS then Err(LimitExceeded)
    else if |values| != |columns| then Err(BadFormat)
    else
      Then(Then(Ok(Op(PyPackedRow)), EncodedValue(table, RowHeader(columns), depth + 1)),
           Then(EncodedFields(columns, values),
                EncodedAll(table, Select(values, Trailing(columns, SizeOrder(columns))), depth + 1)))
  }

  // A whole stream: the header byte and an empty save table before the value.
  function Prefix(): seq<byte> {
    [MARSHAL_HEADER_BYTE] + LittleEndian(0, 4)
  }

  function Encoded(table: Table, v: Value): Encoding {
    Then(Ok(Prefix()), EncodedValue(table, v, 0))
  }
}
