/** The values of the marshal format, its opcodes, column types and limits. */
module MarshalTypes {
  import opened Bytes

  const MARSHAL_HEADER_BYTE: byte := 0x7E
  const MAX_MARSHAL_DEPTH: nat := 64
  const MAX_CONTAINER_COUNT: nat := 65_536
  const MAX_STRING_BYTES: nat := 1024 * 1024
  const MAX_STREAM_BYTES: nat := 1024 * 1024
  const MAX_SAVED_OBJECTS: nat := 65_536
  const MAX_PACKED_ROW_COLUMNS: nat := 1024
  const SIZE_EX_ESCAPE: nat := 0xFF

  datatype Error = Truncated | TooDeep | LimitExceeded | BadFormat | BadStringTable

  datatype Result<T> = Ok(value: T) | Err(error: Error) {
    predicate IsFailure() {
      Err?
    }

    function PropagateFailure<U>(): Result<U>
      requires Err?
    {
      Err(error)
    }

    function Extract(): T
      requires Ok?
    {
      value
    }
  }

  // ------------------------------------------------------------------
  // Values
  // ------------------------------------------------------------------

  // A string is its bytes, a real number its 64-bit pattern.
  datatype Value =
    | NoneValue
    | BoolValue(b: bool)
    | IntValue(i: Int64)
    | RealValue(bits: Word64)
    | StringValue(text: seq<byte>)
    | WStringValue(text: seq<byte>)
    | TokenValue(text: seq<byte>)
    | BufferValue(data: seq<byte>)
    | TupleValue(items: seq<Value>)
    | ListValue(items: seq<Value>)
    | DictValue(entries: seq<Entry>)
    | ObjectValue(typeName: seq<byte>, args: Value)
    | ObjectExValue(isType2: bool, header: Value, list: seq<Value>, dict: seq<Entry>)
    | SubStructValue(inner: Value)
    | SubStreamValue(data: seq<byte>)
    | ChecksumedValue(checksum: Word32, inner: Value)
    | PackedRowValue(columns: seq<Column>, values: seq<Value>)
    | CPickedValue(data: seq<byte>)

  datatype Entry = Entry(key: Value, value: Value)

  datatype Column = Column(name: seq<byte>, dbType: byte)

  const NEGATIVE_ZERO: Word64 := 0x8000_0000_0000_0000

  // ------------------------------------------------------------------
  // Opcodes
  // ------------------------------------------------------------------

  datatype Opcode =
    | PyNone | PyToken | PyLongLong | PyLong | PySignedShort | PyByte | PyMinusOne | PyZeroInteger | PyOneInteger
    | PyReal | PyZeroReal | PyBuffer | PyEmptyString | PyCharString | PyShortString | PyStringTableItem | PyWStringUCS2
    | PyLongString | PyTuple | PyList | PyDict | PyObject | PySubStruct | PySavedStreamElement | PyChecksumedStream
    | PyTrue | PyFalse | CPicked | PyObjectEx1 | PyObjectEx2 | PyEmptyTuple | PyOneTuple | PyEmptyList | PyOneList
    | PyEmptyWString | PyWStringUCS2Char | PyPackedRow | PySubStream | PyTwoTuple | PackedTerminator | PyWStringUTF8
    | PyVarInteger

  function Code(op: Opcode): (code: byte)
    ensures 0 < code < 0x40
  {
    match op
    case PyNone => 0x01
    case PyToken => 0x02
    case PyLongLong => 0x03
    case PyLong => 0x04
    case PySignedShort => 0x05
    case PyByte => 0x06
    case PyMinusOne => 0x07
    case PyZeroInteger => 0x08
    case PyOneInteger => 0x09
    case PyReal => 0x0A
    case PyZeroReal => 0x0B
    case PyBuffer => 0x0D
    case PyEmptyString => 0x0E
    case PyCharString => 0x0F
    case PyShortString => 0x10
    case PyStringTableItem => 0x11
    case PyWStringUCS2 => 0x12
    case PyLongString => 0x13
    case PyTuple => 0x14
    case PyList => 0x15
    case PyDict => 0x16
    case PyObject => 0x17
    case PySubStruct => 0x19
    case PySavedStreamElement => 0x1B
    case PyChecksumedStream => 0x1C
    case PyTrue => 0x1F
    case PyFalse => 0x20
    case CPicked => 0x21
    case PyObjectEx1 => 0x22
    case PyObjectEx2 => 0x23
    case PyEmptyTuple => 0x24
    case PyOneTuple => 0x25
    case PyEmptyList => 0x26
    case PyOneList => 0x27
    case PyEmptyWString => 0x28
    case PyWStringUCS2Char => 0x29
    case PyPackedRow => 0x2A
    case PySubStream => 0x2B
    case PyTwoTuple => 0x2C
    case PackedTerminator => 0x2D
    case PyWStringUTF8 => 0x2E
    case PyVarInteger => 0x2F
  }

  // The opcode with a given code, if there is one.
  function OpcodeOf(code: byte): Result<Opcode> {
    match code
    case 0x01 => Ok(PyNone)
    case 0x02 => Ok(PyToken)
    case 0x03 => Ok(PyLongLong)
    case 0x04 => Ok(PyLong)
    case 0x05 => Ok(PySignedShort)
    case 0x06 => Ok(PyByte)
    case 0x07 => Ok(PyMinusOne)
    case 0x08 => Ok(PyZeroInteger)
    case 0x09 => Ok(PyOneInteger)
    case 0x0A => Ok(PyReal)
    case 0x0B => Ok(PyZeroReal)
    case 0x0D => Ok(PyBuffer)
    case 0x0E => Ok(PyEmptyString)
    case 0x0F => Ok(PyCharString)
    case 0x10 => Ok(PyShortString)
    case 0x11 => Ok(PyStringTableItem)
    case 0x12 => Ok(PyWStringUCS2)
    case 0x13 => Ok(PyLongString)
    case 0x14 => Ok(PyTuple)
    case 0x15 => Ok(PyList)
    case 0x16 => Ok(PyDict)
    case 0x17 => Ok(PyObject)
    case 0x19 => Ok(PySubStruct)
    case 0x1B => Ok(PySavedStreamElement)
    case 0x1C => Ok(PyChecksumedStream)
    case 0x1F => Ok(PyTrue)
    case 0x20 => Ok(PyFalse)
    case 0x21 => Ok(CPicked)
    case 0x22 => Ok(PyObjectEx1)
    case 0x23 => Ok(PyObjectEx2)
    case 0x24 => Ok(PyEmptyTuple)
    case 0x25 => Ok(PyOneTuple)
    case 0x26 => Ok(PyEmptyList)
    case 0x27 => Ok(PyOneList)
    case 0x28 => Ok(PyEmptyWString)
    case 0x29 => Ok(PyWStringUCS2Char)
    case 0x2A => Ok(PyPackedRow)
    case 0x2B => Ok(PySubStream)
    case 0x2C => Ok(PyTwoTuple)
    case 0x2D => Ok(PackedTerminator)
    case 0x2E => Ok(PyWStringUTF8)
    case 0x2F => Ok(PyVarInteger)
    case _ => Err(BadFormat)
  }

  lemma CodeIsOpcode(op: Opcode)
    ensures OpcodeOf(Code(op)) == Ok(op)
  {
  }

  lemma OpcodeIsCode(b: byte)
    ensures OpcodeOf(b).Ok? ==> Code(OpcodeOf(b).value) == b
  {
  }

  // ------------------------------------------------------------------
  // Column types
  // ------------------------------------------------------------------

  const DB_I2: byte := 0x02
  const DB_I4: byte := 0x03
  const DB_R4: byte := 0x04
  const DB_R8: byte := 0x05
  const DB_CY: byte := 0x06
  const DB_BOOL: byte := 0x0B
  const DB_I1: byte := 0x10
  const DB_UI1: byte := 0x11
  const DB_UI2: byte := 0x12
  const DB_UI4: byte := 0x13
  const DB_I8: byte := 0x14
  const DB_UI8: byte := 0x15
  const DB_FILE_TIME: byte := 0x40

  // The width of a column in a packed row; types without a fixed width have none.
  function TypeBits(dbType: byte): nat {
    if dbType == DB_CY || dbType == DB_I8 || dbType == DB_UI8 || dbType == DB_FILE_TIME || dbType == DB_R8 then 64
    else if dbType == DB_I4 || dbType == DB_UI4 || dbType == DB_R4 then 32
    else if dbType == DB_I2 || dbType == DB_UI2 then 16
    else if dbType == DB_I1 || dbType == DB_UI1 then 8
    else if dbType == DB_BOOL then 1
    else 0
  }

  // The bytes of the fixed-width part: none for a bool, which is a single bit.
  function TypeBytes(dbType: byte): (n: nat)
    ensures n == 0 || n == 1 || n == 2 || n == 4 || n == 8
    ensures n > 0 <==> TypeBits(dbType) > 1
    ensures dbType != DB_BOOL ==> TypeBits(dbType) == 8 * n
  {
    TypeBits(dbType) / 8
  }

  predicate IsReal(dbType: byte) {
    dbType == DB_R4 || dbType == DB_R8
  }

  predicate IsUnsigned(dbType: byte) {
    dbType == DB_UI1 || dbType == DB_UI2 || dbType == DB_UI4
  }
}
