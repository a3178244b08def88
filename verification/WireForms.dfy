/** How each form of the wire format reads, wherever it lies in a stream: told in bytes and numbers, and
    including the forms that the encoder never writes. */
module WireForms {
  import opened Bytes
  import opened MarshalDecoding
  import opened MarshalTypes
  import opened Options
  import opened StringTable

  // ------------------------------------------------------------------
  // Bytes as numbers
  // ------------------------------------------------------------------

  // The `n` bytes at `offset` are the digits of `v`, least significant first.
  ghost predicate DigitsAt(bytes: seq<byte>, offset: nat, v: int, n: nat) {
    offset + n <= |bytes| && forall k: nat :: k < n ==> bytes[offset + k] == Digit(v, k)
  }

  lemma {:induction false} DigitsGive(bytes: seq<byte>, v: int)
    requires DigitsAt(bytes, 0, v, |bytes|)
    ensures FromLittleEndian(bytes) == v % Power256(|bytes|)
  {
    hide Digit;
    if bytes != [] {
      var rest := bytes[1..];
      assert bytes[0 + 0] == Digit(v, 0);
      NextDigit(v, 0);
      forall k: nat | k < |rest|
        ensures rest[0 + k] == Digit(v / 256, k)
      {
        var next := k + 1;
        assert bytes[0 + next] == Digit(v, next);
        NextDigit(v, k);
      }
      DigitsGive(rest, v / 256);
      DivideTwice(v, Power256(|rest|));
    }
  }

  lemma DigitsOfPart(bytes: seq<byte>, offset: nat, v: int, n: nat)
    requires DigitsAt(bytes, offset, v, n)
    ensures offset + n <= |bytes| && DigitsAt(bytes[offset..offset + n], 0, v, n)
  {
    hide Digit;
    var part := bytes[offset..offset + n];
    forall k: nat | k < n
      ensures part[0 + k] == Digit(v, k)
    {
      assert bytes[offset + k] == Digit(v, k);
    }
  }

  lemma WordOfDigits(input: Input, c: Cursor, v: int, n: nat)
    requires InStream(input, c) && DigitsAt(input.bytes, c.offset, v, n)
    ensures ReadWord(input, c, n) == Got(v % Power256(n), c.(offset := c.offset + n))
  {
    hide DigitsAt, FromLittleEndian, Power256;
    DigitsOfPart(input.bytes, c.offset, v, n);
    DigitsGive(input.bytes[c.offset..c.offset + n], v);
  }

  lemma WordReads(input: Input, c: Cursor)
    requires InStream(input, c) && c.offset + 4 <= |input.bytes|
    ensures ReadWord(input, c, 4) == Got(Word(input.bytes, c.offset), c.(offset := c.offset + 4))
  {
    hide FromLittleEndian, Power256;
    FourBytes(input.bytes[c.offset..c.offset + 4]);
  }

  // The size at `offset`, one byte below 255 or 255 and four bytes, and where it ends.
  function SizeAt(bytes: seq<byte>, offset: nat): Option<(nat, nat)> {
    if offset < |bytes| && bytes[offset] < 255 then Some((bytes[offset], offset + 1))
    else if offset + 5 <= |bytes| then Some((Word(bytes, offset + 1), offset + 5))
    else None
  }

  lemma SizeReads(input: Input, c: Cursor, limit: nat)
    requires InStream(input, c)
    ensures ReadBounded(input, c, limit) ==
      match SizeAt(input.bytes, c.offset)
      case None => Failed(Truncated, c.calls)
      case Some((size, end)) => if size > limit then Failed(LimitExceeded, c.calls) else Got(size, c.(offset := end))
  {
    if c.offset + 5 <= |input.bytes| {
      WordReads(input, c.(offset := c.offset + 1));
    }
  }

  // The `n` bytes at `offset`, or too few.
  function Taken(input: Input, c: Cursor, offset: nat, n: nat): Parsed<seq<byte>> {
    if offset + n > |input.bytes| then Failed(Truncated, c.calls)
    else Got(input.bytes[offset..offset + n], c.(offset := offset + n))
  }

  // A value made of what was read.
  function Made<T>(r: Parsed<T>, make: T -> Value): Parsed<Value> {
    match r
    case Failed(error, calls) => Failed(error, calls)
    case Got(value, cursor) => Got(make(value), cursor)
  }

  // ------------------------------------------------------------------
  // How a value begins
  // ------------------------------------------------------------------

  // A value with opcode `code` lies at the cursor, and its content at `begun`; with the save flag the index
  // under which to save it comes in between.
  ghost predicate Opens(input: Input, c: Cursor, depth: nat, code: byte, begun: Cursor, index: Option<nat>) {
    && depth <= 64 && code < 0x40 && c.offset < |input.bytes| && begun.saved == c.saved && begun.calls == c.calls + 1
    && match index
       case None => input.bytes[c.offset] == code && begun.offset == c.offset + 1
       case Some(i) =>
         && input.bytes[c.offset] == 0x40 + code && begun.offset == c.offset + 5
         && c.saved != [] && c.offset + 5 <= input.end && c.offset + 5 <= |input.bytes| && i == Word(input.bytes, c.offset + 1)
  }

  // The value read, saved under its index if it has one.
  ghost function Kept(index: Option<nat>, r: Parsed<Value>): Parsed<Value> {
    if r.Failed? || index.None? then r
    else if index.value == 0 || index.value > |r.cursor.saved| then Failed(BadFormat, r.cursor.calls)
    else Got(r.value, r.cursor.(saved := r.cursor.saved[index.value - 1 := Some(r.value)]))
  }

  lemma Begins(input: Input, c: Cursor, depth: nat, code: byte, begun: Cursor, index: Option<nat>)
    requires Opens(input, c, depth, code, begun, index)
    ensures InStream(input, begun) && DecodeValue(input, c, depth) == Kept(index, DecodeCode(input, begun, code, depth))
  {
    hide DecodeCode, Word;
    if index.Some? {
      WordReads(input, Cursor(c.offset + 1, c.saved, c.calls + 1));
      assert input.bytes[c.offset] / 0x40 == 1 && input.bytes[c.offset] % 0x40 == code;
    }
  }

  /** No value begins below the depth limit of 64, at the end of the stream, with the unknown flag, with the save
      flag where there is no save table or no room for an index, or with a byte that is no opcode. */
  lemma NothingBegins(input: Input, c: Cursor, depth: nat)
    requires InStream(input, c) && depth <= 65
    ensures depth > 64 ==> DecodeValue(input, c, depth) == Failed(TooDeep, c.calls + 1)
    ensures depth <= 64 && c.offset == |input.bytes| ==> DecodeValue(input, c, depth) == Failed(Truncated, c.calls + 1)
    ensures depth <= 64 && c.offset < |input.bytes| && input.bytes[c.offset] >= 0x80 ==>
      DecodeValue(input, c, depth) == Failed(BadFormat, c.calls + 1)
    ensures depth <= 64 && c.offset < |input.bytes| && 0x40 <= input.bytes[c.offset] < 0x80 ==>
      && (c.saved == [] ==> DecodeValue(input, c, depth) == Failed(BadFormat, c.calls + 1))
      && (c.saved != [] && (c.offset + 5 > input.end || c.offset + 5 > |input.bytes|) ==>
            DecodeValue(input, c, depth) == Failed(Truncated, c.calls + 1))
  {
    hide DecodeCode;
  }

  predicate IsOpcode(code: byte) {
    1 <= code <= 0x2F && code != 0x0C && code != 0x18 && code != 0x1A && code != 0x1D && code != 0x1E
  }

  lemma NoOpcode(input: Input, c: Cursor, depth: nat, code: byte, begun: Cursor, index: Option<nat>)
    requires Opens(input, c, depth, code, begun, index) && (!IsOpcode(code) || code == 0x2D)
    ensures DecodeValue(input, c, depth) == Failed(BadFormat, begun.calls)
  {
    hide DecodeValue, DecodeNested;
    Begins(input, c, depth, code, begun, index);
  }

  // ------------------------------------------------------------------
  // Values without parts
  // ------------------------------------------------------------------

  function ConstantAt(code: byte): Option<Value> {
    match code
    case 0x01 => Some(NoneValue)
    case 0x1F => Some(BoolValue(true))
    case 0x20 => Some(BoolValue(false))
    case 0x07 => Some(IntValue(-1))
    case 0x08 => Some(IntValue(0))
    case 0x09 => Some(IntValue(1))
    case 0x0B => Some(RealValue(0))
    case 0x0E => Some(StringValue([]))
    case 0x28 => Some(WStringValue([]))
    case _ => None
  }

  lemma ConstantCode(input: Input, begun: Cursor, depth: nat, code: byte)
    requires InStream(input, begun) && depth <= 64 && ConstantAt(code).Some?
    ensures DecodeCode(input, begun, code, depth) == Got(ConstantAt(code).value, begun)
  {
    hide DecodeValue, DecodeNested, DecodeSigned, DecodeVarInteger, DecodeReal, DecodeChar, DecodeShortString, DecodeSized,
         DecodeTableItem, DecodeWide, DecodeSavedElement, ReadBounded;
  }

  /** The opcodes that are whole values. */
  lemma ConstantReads(input: Input, c: Cursor, depth: nat, code: byte, begun: Cursor, index: Option<nat>)
    requires Opens(input, c, depth, code, begun, index) && ConstantAt(code).Some?
    ensures DecodeValue(input, c, depth) == Kept(index, Got(ConstantAt(code).value, begun))
  {
    hide DecodeValue, DecodeCode, ConstantAt;
    Begins(input, c, depth, code, begun, index);
    ConstantCode(input, begun, depth, code);
  }

  /** A signed integer of one, two, four or eight bytes is the integer whose two's complement they are. */
  lemma SignedReads(input: Input, c: Cursor, depth: nat, code: byte, begun: Cursor, index: Option<nat>, i: Int64)
    requires Opens(input, c, depth, code, begun, index)
    requires code == 0x06 || code == 0x05 || code == 0x04 || code == 0x03
    ensures var n := if code == 0x06 then 1 else if code == 0x05 then 2 else if code == 0x04 then 4 else 8;
      var half := if code == 0x06 then 0x80 else if code == 0x05 then 0x8000 else if code == 0x04 then 0x8000_0000
                  else 0x8000_0000_0000_0000;
      && (begun.offset + n > |input.bytes| ==> DecodeValue(input, c, depth) == Failed(Truncated, begun.calls))
      && (DigitsAt(input.bytes, begun.offset, i, n) && -half <= i < half ==>
            DecodeValue(input, c, depth) == Kept(index, Got(IntValue(i), begun.(offset := begun.offset + n))))
  {
    hide DecodeValue, DecodeNested, DigitsAt;
    Begins(input, c, depth, code, begun, index);
    var n := if code == 0x06 then 1 else if code == 0x05 then 2 else if code == 0x04 then 4 else 8;
    PowersOf256();
    if DigitsAt(input.bytes, begun.offset, i, n) {
      DigitsFit(input.bytes, begun.offset, i, n);
      WordOfDigits(input, begun, i, n);
      if FitsSigned(i, n) {
        SignedRoundTrip(i, n);
      }
    }
  }

  lemma DigitsFit(bytes: seq<byte>, offset: nat, v: int, n: nat)
    requires DigitsAt(bytes, offset, v, n)
    ensures offset + n <= |bytes|
  {
  }

  lemma VarIntegerWord(input: Input, begun: Cursor, n: nat, at: nat, i: Int64)
    requires InStream(input, begun) && n <= 8 && SizeAt(input.bytes, begun.offset) == Some((n, at))
    ensures at <= |input.bytes|
    ensures at + n > |input.bytes| ==> n > 0 && ReadWord(input, begun.(offset := at), n) == Failed(Truncated, begun.calls)
    ensures DigitsAt(input.bytes, at, i, n) && ((0 <= i < Power256(n) && n < 8) || n == 8) ==>
      && ReadWord(input, begun.(offset := at), n).Got?
      && ReadWord(input, begun.(offset := at), n).cursor == begun.(offset := at + n)
      && ToSigned(ReadWord(input, begun.(offset := at), n).value, 8) == i && (n == 0 ==> i == 0)
  {
    PowersOf256();
    if DigitsAt(input.bytes, at, i, n) {
      hide DigitsAt;
      WordOfDigits(input, begun.(offset := at), i, n);
      if n == 8 {
        SignedRoundTrip(i, 8);
      } else if 0 <= i < Power256(n) {
        DivisionIsUnique(i, Power256(n), 0, i);
        PowersGrow(n, 7);
        assert Power256(8) == 256 * Power256(7);
      }
    }
  }

  // The answer to a variable integer of which `i` is the content.
  ghost predicate VarIntegerIs(input: Input, begun: Cursor, index: Option<nat>, i: Int64, r: Parsed<Value>) {
    match SizeAt(input.bytes, begun.offset)
    case None => r == Failed(Truncated, begun.calls)
    case Some((n, at)) =>
      && (n > 8 ==> r == Failed(LimitExceeded, begun.calls))
      && (n <= 8 && at + n > |input.bytes| ==> r == Failed(Truncated, begun.calls))
      && (n < 8 && DigitsAt(input.bytes, at, i, n) && 0 <= i < Power256(n) ==>
            r == Kept(index, Got(IntValue(i), begun.(offset := at + n))))
      && (n == 8 && DigitsAt(input.bytes, at, i, 8) ==> r == Kept(index, Got(IntValue(i), begun.(offset := at + 8))))
  }

  lemma VarIntegerContent(input: Input, begun: Cursor, index: Option<nat>, i: Int64)
    requires InStream(input, begun)
    ensures VarIntegerIs(input, begun, index, i, Kept(index, DecodeVarInteger(input, begun)))
  {
    hide DigitsAt, SizeAt, ToSigned, Power256, ReadWord;
    SizeReads(input, begun, MAX_STRING_BYTES);
    var size := SizeAt(input.bytes, begun.offset);
    if size.Some? && size.value.0 <= 8 {
      VarIntegerWord(input, begun, size.value.0, size.value.1, i);
    }
  }

  lemma VarIntegerCode(input: Input, begun: Cursor, depth: nat)
    requires InStream(input, begun) && depth <= 64
    ensures DecodeCode(input, begun, 0x2F, depth) == DecodeVarInteger(input, begun)
  {
    hide DecodeValue, DecodeNested;
  }

  /** The variable integer: its size, and then up to eight bytes. Fewer than eight are a non-negative integer,
      whatever the topmost bit; eight are a signed one; none are zero; more are refused. */
  lemma VarIntegerReads(input: Input, c: Cursor, depth: nat, begun: Cursor, index: Option<nat>, i: Int64)
    requires Opens(input, c, depth, 0x2F, begun, index)
    ensures VarIntegerIs(input, begun, index, i, DecodeValue(input, c, depth))
  {
    hide DecodeValue, DecodeNested, DecodeCode, VarIntegerIs;
    Begins(input, c, depth, 0x2F, begun, index);
    VarIntegerCode(input, begun, depth);
    VarIntegerContent(input, begun, index, i);
  }

  /** A real number is its eight bytes. */
  lemma RealReads(input: Input, c: Cursor, depth: nat, begun: Cursor, index: Option<nat>, bits: Word64)
    requires Opens(input, c, depth, 0x0A, begun, index)
    ensures begun.offset + 8 > |input.bytes| ==> DecodeValue(input, c, depth) == Failed(Truncated, begun.calls)
    ensures DigitsAt(input.bytes, begun.offset, bits, 8) ==>
      DecodeValue(input, c, depth) == Kept(index, Got(RealValue(bits), begun.(offset := begun.offset + 8)))
  {
    hide DecodeValue, DecodeNested, DigitsAt;
    Begins(input, c, depth, 0x0A, begun, index);
    PowersOf256();
    if DigitsAt(input.bytes, begun.offset, bits, 8) {
      WordOfDigits(input, begun, bits, 8);
      DivisionIsUnique(bits, Power256(8), 0, bits);
    }
  }

  /** One character, a string with a size of one byte, which has no escape, and an entry of the string table. */
  lemma ShortReads(input: Input, c: Cursor, depth: nat, code: byte, begun: Cursor, index: Option<nat>)
    requires Opens(input, c, depth, code, begun, index) && (code == 0x0F || code == 0x10 || code == 0x11)
    ensures begun.offset == |input.bytes| ==> DecodeValue(input, c, depth) == Failed(Truncated, begun.calls)
    ensures begun.offset < |input.bytes| ==>
      var b, at := input.bytes[begun.offset], begun.offset + 1;
      DecodeValue(input, c, depth) == Kept(index,
        if code == 0x0F then Got(StringValue([b]), begun.(offset := at))
        else if code == 0x10 then Made(Taken(input, begun, at, b), text => StringValue(text))
        else if b == 0 || b > 195 then Failed(BadStringTable, begun.calls)
        else Got(StringValue(input.table[b - 1]), begun.(offset := at)))
  {
    hide DecodeValue, DecodeNested;
    Begins(input, c, depth, code, begun, index);
  }

  // The bytes behind a size of at most a mebibyte.
  function SizedBytes(input: Input, c: Cursor): Parsed<seq<byte>> {
    match SizeAt(input.bytes, c.offset)
    case None => Failed(Truncated, c.calls)
    case Some((n, at)) => if n > 0x10_0000 then Failed(LimitExceeded, c.calls) else Taken(input, c, at, n)
  }

  lemma SizedBytesRead(input: Input, c: Cursor)
    requires InStream(input, c)
    ensures ReadSized(input, c) == SizedBytes(input, c)
  {
    hide SizeAt;
    SizeReads(input, c, MAX_STRING_BYTES);
  }

  function SizedValue(code: byte, data: seq<byte>): Option<Value> {
    match code
    case 0x13 => Some(StringValue(data))
    case 0x2E => Some(WStringValue(data))
    case 0x02 => Some(TokenValue(data))
    case 0x0D => Some(BufferValue(data))
    case 0x2B => Some(SubStreamValue(data))
    case 0x21 => Some(CPickedValue(data))
    case _ => None
  }

  lemma SizedCode(input: Input, begun: Cursor, depth: nat, code: byte)
    requires InStream(input, begun) && depth <= 64 && SizedValue(code, []).Some?
    ensures DecodeCode(input, begun, code, depth) ==
      match ReadSized(input, begun)
      case Failed(error, calls) => Failed(error, calls)
      case Got(data, next) => Got(SizedValue(code, data).value, next)
  {
    hide DecodeValue, DecodeNested, DecodeSigned, DecodeVarInteger, DecodeReal, DecodeChar, DecodeShortString, ReadSized,
         DecodeTableItem, DecodeWide, DecodeSavedElement, ReadBounded;
  }

  /** The values that are a size and as many bytes. */
  lemma SizedReads(input: Input, c: Cursor, depth: nat, code: byte, begun: Cursor, index: Option<nat>)
    requires Opens(input, c, depth, code, begun, index) && SizedValue(code, []).Some?
    ensures DecodeValue(input, c, depth) ==
      match SizedBytes(input, begun)
      case Failed(error, calls) => Failed(error, calls)
      case Got(data, next) => Kept(index, Got(SizedValue(code, data).value, next))
  {
    hide DecodeValue, DecodeCode, SizedBytes, ReadSized, SizedValue;
    Begins(input, c, depth, code, begun, index);
    SizedCode(input, begun, depth, code);
    SizedBytesRead(input, begun);
  }

  /** A saved element is the value under its index, if one has been saved there. */
  lemma SavedElementReads(input: Input, c: Cursor, depth: nat, begun: Cursor, index: Option<nat>)
    requires Opens(input, c, depth, 0x1B, begun, index)
    ensures DecodeValue(input, c, depth) ==
      match SizeAt(input.bytes, begun.offset)
      case None => Failed(Truncated, begun.calls)
      case Some((n, at)) =>
        if n > 0x10_0000 then Failed(LimitExceeded, begun.calls)
        else if n == 0 || n > |c.saved| || c.saved[n - 1].None? then Failed(BadFormat, begun.calls)
        else Kept(index, Got(c.saved[n - 1].value, begun.(offset := at)))
  {
    hide DecodeValue, DecodeNested, SizeAt;
    Begins(input, c, depth, 0x1B, begun, index);
    SizeReads(input, begun, MAX_STRING_BYTES);
  }

  lemma BeginsWithSaves(input: Input, c: Cursor, depth: nat, code: byte, begun: Cursor, index: Option<nat>)
    requires Opens(input, c, depth, code, begun, index)
    ensures begun.saved == c.saved && depth <= 64 && InStream(input, c) && InStream(input, begun)
  {
  }

  // ------------------------------------------------------------------
  // Wide strings
  // ------------------------------------------------------------------

  // `text` is the code point `unit` in UTF-8, as section 3 of RFC 3629 has it, surrogates like any other.
  predicate IsUtf8(unit: nat, text: seq<byte>) {
    if unit < 0x80 then text == [unit]
    else if unit < 0x800 then
      |text| == 2 && 0xC0 <= text[0] < 0xE0 && IsTail(text[1]) && unit == 0x40 * Above(text[0], 0xC0) + Above(text[1], 0x80)
    else
      && |text| == 3 && 0xE0 <= text[0] < 0xF0 && IsTail(text[1]) && IsTail(text[2])
      && unit == 0x1000 * Above(text[0], 0xE0) + 0x40 * Above(text[1], 0x80) + Above(text[2], 0x80)
  }

  function Above(b: int, mark: int): int {
    b - mark
  }

  predicate IsTail(b: int) {
    0x80 <= b < 0xC0
  }

  lemma UnitIsUtf8(unit: nat)
    requires unit < 0x1_0000
    ensures IsUtf8(unit, Utf8(unit))
  {
    if unit >= 0x800 {
      var high := unit / 0x40;
      assert unit == 0x40 * high + unit % 0x40 && high == 0x40 * (high / 0x40) + high % 0x40;
      assert unit / 0x1000 == high / 0x40;
    }
  }

  // `text` is the 16-bit units in `data`, each in two bytes and each in UTF-8, one after the other.
  ghost predicate IsWideText(data: seq<byte>, text: seq<byte>)
    requires |data| % 2 == 0
  {
    if data == [] then text == []
    else exists k :: 0 <= k <= |text| && IsWideText(data[..|data| - 2], text[..k]) && LastUnitIs(data, text[k..])
  }

  ghost predicate LastUnitIs(data: seq<byte>, text: seq<byte>)
    requires |data| >= 2
  {
    var low: int, high: int := data[|data| - 2], data[|data| - 1];
    IsUtf8(low + 0x100 * high, text)
  }

  lemma TwoBytes(b: seq<byte>)
    requires |b| == 2
    ensures var low: int, high: int := b[0], b[1]; FromLittleEndian(b) == low + 0x100 * high
  {
    assert FromLittleEndian(b[1..]) == b[1] + 256 * FromLittleEndian([]) by {
      assert b[1..][1..] == [];
    }
  }

  lemma {:induction false} UnitsAreText(data: seq<byte>)
    requires |data| % 2 == 0
    ensures IsWideText(data, Utf8FromUnits(data))
  {
    if data != [] {
      hide Utf8, IsUtf8;
      var n := |data| - 2;
      UnitsAreText(data[..n]);
      TwoBytes(data[n..]);
      PowersOf256();
      UnitIsUtf8(FromLittleEndian(data[n..]));
      var before := Utf8FromUnits(data[..n]);
      var text := Utf8FromUnits(data);
      assert text[..|before|] == before && text[|before|..] == Utf8(FromLittleEndian(data[n..]));
      assert LastUnitIs(data, text[|before|..]);
    }
  }

  // The answer to a wide string of `count` units at `at`.
  ghost predicate WideIs(input: Input, begun: Cursor, index: Option<nat>, at: nat, count: nat, r: Parsed<Value>) {
    if count > 0x8_0000 then r == Failed(LimitExceeded, begun.calls)
    else if at + 2 * count > |input.bytes| then r == Failed(Truncated, begun.calls)
    else exists text :: IsWideText(input.bytes[at..at + 2 * count], text) &&
                        r == Kept(index, Got(WStringValue(text), begun.(offset := at + 2 * count)))
  }

  lemma WideContent(input: Input, begun: Cursor, index: Option<nat>, at: nat, count: nat)
    requires at <= |input.bytes|
    ensures WideIs(input, begun, index, at, count, Kept(index, DecodeWide(input, begun.(offset := at), count)))
  {
    hide IsWideText, Utf8FromUnits;
    if count <= 0x8_0000 && at + 2 * count <= |input.bytes| {
      UnitsAreText(input.bytes[at..at + 2 * count]);
    }
  }

  lemma WideCode(input: Input, begun: Cursor, depth: nat, code: byte)
    requires InStream(input, begun) && depth <= 64 && (code == 0x29 || code == 0x12)
    ensures DecodeCode(input, begun, code, depth) ==
      if code == 0x29 then DecodeWide(input, begun, 1)
      else
        match SizeAt(input.bytes, begun.offset)
        case None => Failed(Truncated, begun.calls)
        case Some((count, at)) =>
          if count > 0x10_0000 then Failed(LimitExceeded, begun.calls) else DecodeWide(input, begun.(offset := at), count)
  {
    hide DecodeValue, DecodeNested, DecodeWide, SizeAt;
    SizeReads(input, begun, MAX_STRING_BYTES);
  }

  lemma SizeInside(bytes: seq<byte>, offset: nat)
    ensures SizeAt(bytes, offset).Some? ==> offset < SizeAt(bytes, offset).value.1 <= |bytes|
  {
  }

  /** A wide string of 16-bit units, one or as many as its size says, comes out in UTF-8. */
  lemma WideReads(input: Input, c: Cursor, depth: nat, code: byte, begun: Cursor, index: Option<nat>)
    requires Opens(input, c, depth, code, begun, index) && (code == 0x29 || code == 0x12)
    ensures if code == 0x29 then WideIs(input, begun, index, begun.offset, 1, DecodeValue(input, c, depth))
      else
        match SizeAt(input.bytes, begun.offset)
        case None => DecodeValue(input, c, depth) == Failed(Truncated, begun.calls)
        case Some((count, at)) => WideIs(input, begun, index, at, count, DecodeValue(input, c, depth))
  {
    hide DecodeValue, DecodeNested, DecodeCode, DecodeWide, SizeAt, WideIs;
    Begins(input, c, depth, code, begun, index);
    WideCode(input, begun, depth, code);
    SizeInside(input.bytes, begun.offset);
    if code == 0x29 {
      WideContent(input, begun, index, begun.offset, 1);
    } else if SizeAt(input.bytes, begun.offset).Some? {
      var (count, at) := SizeAt(input.bytes, begun.offset).value;
      WideContent(input, begun, index, at, count);
      WideTooLong(input, begun, index, at, count);
    }
  }

  lemma WideTooLong(input: Input, begun: Cursor, index: Option<nat>, at: nat, count: nat)
    ensures count > 0x8_0000 ==> WideIs(input, begun, index, at, count, Failed(LimitExceeded, begun.calls))
  {
  }
}
