/** How the data of a packed row reads: the runs it is compressed in, where each column lies in it, and what the
    bytes of a column stand for. */
module WireRows {
  import opened Bytes
  import opened MarshalDecoding
  import opened MarshalTypes
  import opened Options
  import opened PackedFields
  import opened WireForms
  import opened ZeroRuns

  // ------------------------------------------------------------------
  // Runs
  // ------------------------------------------------------------------

  // What the runs from `i` on expand to, at least `need` bytes: a nibble of 8 or more is that many zeros less 7,
  // one below 8 that many literals less than 8. The high nibble of a control byte waits behind the low one.
  function Runs(rle: seq<byte>, i: nat, waiting: Option<nat>, need: int): (r: Option<seq<byte>>)
    requires i <= |rle| && (waiting.Some? ==> waiting.value < 16)
    decreases 4 * (|rle| - i) + if waiting.Some? then 2 else 0
  {
    if need <= 0 then Some([])
    else if waiting.Some? then RunThen(rle, i, waiting.value, None, need)
    else if i == |rle| then None
    else RunThen(rle, i + 1, rle[i] % 16, Some(rle[i] / 16), need)
  }

  function RunThen(rle: seq<byte>, i: nat, nibble: nat, waiting: Option<nat>, need: int): (r: Option<seq<byte>>)
    requires i <= |rle| && nibble < 16 && (waiting.Some? ==> waiting.value < 16)
    decreases 4 * (|rle| - i) + if waiting.Some? then 3 else 1
  {
    var run := if nibble >= 8 then nibble - 7 else 8 - nibble;
    var next := if nibble >= 8 then i else i + run;
    if next > |rle| then None
    else
      var rest := Runs(rle, next, waiting, need - run);
      if rest.None? then None
      else if nibble >= 8 then Some(seq(run, _ => 0) + rest.value)
      else Some(rle[i..next] + rest.value)
  }

  // What is expanded so far, and the rest.
  function Joined(out: seq<byte>, rest: Option<seq<byte>>): Option<seq<byte>> {
    if rest.None? then None else Some(out + rest.value)
  }

  lemma Regroup(out: seq<byte>, run: seq<byte>, rest: Option<seq<byte>>)
    ensures Joined(out, Joined(run, rest)) == Joined(out + run, rest)
  {
    if rest.Some? {
      assert out + (run + rest.value) == out + run + rest.value;
    }
  }

  lemma ZeroNibbleRuns(rle: seq<byte>, i: nat, nibble: nat, waiting: Option<nat>, need: int)
    requires i <= |rle| && 8 <= nibble < 16 && (waiting.Some? ==> waiting.value < 16)
    ensures RunThen(rle, i, nibble, waiting, need) == Joined(Zeros(nibble - 7), Runs(rle, i, waiting, need - (nibble - 7)))
  {
    hide Runs;
    assert seq(nibble - 7, _ => 0) == Zeros(nibble - 7);
  }

  lemma LiteralNibbleRuns(rle: seq<byte>, i: nat, nibble: nat, waiting: Option<nat>, need: int)
    requires nibble < 8 && i + (8 - nibble) <= |rle| && (waiting.Some? ==> waiting.value < 16)
    ensures RunThen(rle, i, nibble, waiting, need) ==
      Joined(Copied(rle, i, 8 - nibble), Runs(rle, i + (8 - nibble), waiting, need - (8 - nibble)))
  {
    hide Runs;
    CopiedIsSlice(rle, i, 8 - nibble);
  }

  lemma ZeroNibble(rle: seq<byte>, i: nat, nibble: nat, waiting: Option<nat>, out: seq<byte>, need: int)
    requires i <= |rle| && 8 <= nibble < 16 && (waiting.Some? ==> waiting.value < 16)
    ensures Expansion(nibble, rle, i, out).Progress?
    ensures var group := Expansion(nibble, rle, i, out);
      && group.next <= |rle|
      && Joined(out, RunThen(rle, i, nibble, waiting, need)) ==
           Joined(group.out, Runs(rle, group.next, waiting, need - (|group.out| - |out|)))
  {
    hide Runs, RunThen, Zeros, Joined;
    var run := nibble - 7;
    ZeroNibbleRuns(rle, i, nibble, waiting, need);
    Regroup(out, Zeros(run), Runs(rle, i, waiting, need - run));
    assert |out + Zeros(run)| - |out| == run;
  }

  lemma LiteralNibble(rle: seq<byte>, i: nat, nibble: nat, waiting: Option<nat>, out: seq<byte>, need: int)
    requires nibble < 8 && i + (8 - nibble) <= |rle| && (waiting.Some? ==> waiting.value < 16)
    ensures Expansion(nibble, rle, i, out).Progress?
    ensures var group := Expansion(nibble, rle, i, out);
      && group.next <= |rle|
      && Joined(out, RunThen(rle, i, nibble, waiting, need)) ==
           Joined(group.out, Runs(rle, group.next, waiting, need - (|group.out| - |out|)))
  {
    hide Runs, RunThen, Copied, Joined;
    var run := 8 - nibble;
    LiteralNibbleRuns(rle, i, nibble, waiting, need);
    Regroup(out, Copied(rle, i, run), Runs(rle, i + run, waiting, need - run));
    assert |out + Copied(rle, i, run)| - |out| == run;
  }

  lemma TooFewLiterals(rle: seq<byte>, i: nat, nibble: nat, waiting: Option<nat>, out: seq<byte>, need: int)
    requires i <= |rle| && nibble < 8 && i + (8 - nibble) > |rle| && (waiting.Some? ==> waiting.value < 16)
    ensures Expansion(nibble, rle, i, out).Short? && RunThen(rle, i, nibble, waiting, need).None?
  {
    hide Runs;
  }

  lemma NibbleRuns(rle: seq<byte>, i: nat, nibble: nat, waiting: Option<nat>, out: seq<byte>, need: int)
    requires i <= |rle| && nibble < 16 && (waiting.Some? ==> waiting.value < 16)
    ensures Joined(out, RunThen(rle, i, nibble, waiting, need)) ==
      match Expansion(nibble, rle, i, out)
      case Short => None
      case Progress(more, next) => Joined(more, Runs(rle, next, waiting, need - (|more| - |out|)))
  {
    hide Runs, RunThen, Expansion;
    if nibble >= 8 {
      ZeroNibble(rle, i, nibble, waiting, out, need);
    } else if i + (8 - nibble) <= |rle| {
      LiteralNibble(rle, i, nibble, waiting, out, need);
    } else {
      TooFewLiterals(rle, i, nibble, waiting, out, need);
    }
  }

  lemma ControlRuns(rle: seq<byte>, i: nat, out: seq<byte>, expected: nat)
    requires i < |rle| && |out| < expected
    ensures Joined(out, Runs(rle, i, None, expected - |out|)) ==
      match GroupExpansion(rle, i, out, expected)
      case Short => None
      case Progress(more, next) => Joined(more, Runs(rle, next, None, expected - |more|))
  {
    hide Expansion, RunThen, Runs, Joined;
    var low, high := rle[i] % 16, rle[i] / 16;
    RunsBegin(rle, i, out, expected);
    NibbleRuns(rle, i + 1, low, Some(high), out, expected - |out|);
    var first := Expansion(low, rle, i + 1, out);
    if first.Progress? {
      RunsGoOn(rle, first.next, high, expected - |first.out|);
      if |first.out| < expected {
        NibbleRuns(rle, first.next, high, None, first.out, expected - |first.out|);
      }
    }
  }

  lemma RunsBegin(rle: seq<byte>, i: nat, out: seq<byte>, expected: nat)
    requires i < |rle| && |out| < expected
    ensures Runs(rle, i, None, expected - |out|) == RunThen(rle, i + 1, rle[i] % 16, Some(rle[i] / 16), expected - |out|)
  {
  }

  lemma RunsGoOn(rle: seq<byte>, i: nat, high: nat, need: int)
    requires i <= |rle| && high < 16
    ensures need <= 0 ==> Runs(rle, i, Some(high), need) == Some([]) == Runs(rle, i, None, need)
    ensures need > 0 ==> Runs(rle, i, Some(high), need) == RunThen(rle, i, high, None, need)
  {
  }

  lemma {:induction false} ExpandedRuns(rle: seq<byte>, i: nat, out: seq<byte>, expected: nat)
    requires i <= |rle|
    ensures Expanded(rle, i, out, expected) == Joined(out, Runs(rle, i, None, expected - |out|))
    decreases |rle| - i
  {
    hide GroupExpansion, RunThen;
    if |out| >= expected {
      assert out + [] == out;
    } else if i < |rle| {
      hide Runs;
      ControlRuns(rle, i, out, expected);
      var group := GroupExpansion(rle, i, out, expected);
      if group.Progress? {
        ExpandedRuns(rle, group.next, group.out, expected);
      }
    }
  }

  /** Decompression reads the runs, nibble by nibble, until it has as many bytes as expected. */
  lemma DecompressionReadsRuns(rle: seq<byte>, expected: nat)
    ensures Decompressed(rle, expected) == Runs(rle, 0, None, expected)
  {
    hide Runs;
    ExpandedRuns(rle, 0, [], expected);
    var r := Runs(rle, 0, None, expected);
    assert r.Some? ==> [] + r.value == r.value;
  }

  lemma ZerosAt(n: nat, i: nat)
    requires i < n
    ensures RunAt(Zeros(n), i) == if n - i < 8 then n - i else 8
  {
    RunOfZeros(n, i + 1, 7);
  }

  lemma {:induction false} RunOfZeros(n: nat, i: nat, limit: nat)
    requires i <= n
    ensures Run(Zeros(n), i, true, limit) == if n - i < limit then n - i else limit
    decreases limit
  {
    if limit > 0 && i < n {
      RunOfZeros(n, i + 1, limit - 1);
    }
  }

  lemma ZeroGroup(n: nat, i: nat)
    requires i < n
    ensures |GroupAt(Zeros(n), i)| == 1 && AfterGroup(Zeros(n), i) == if n - i < 16 then n else i + 16
  {
    hide RunAt, NibbleAt, Control, Copied;
    var j := i + RunAt(Zeros(n), i);
    ZerosAt(n, i);
    if j < n {
      ZerosAt(n, j);
    }
  }

  lemma {:induction false} ZerosFrom(n: nat, i: nat)
    requires i <= n
    ensures |CompressedFrom(Zeros(n), i)| == (n - i + 15) / 16
    decreases n - i
  {
    hide GroupAt, AfterGroup, Zeros;
    if i < n {
      var next := AfterGroup(Zeros(n), i);
      ZeroGroup(n, i);
      ZerosFrom(n, next);
      assert |CompressedFrom(Zeros(n), i)| == |GroupAt(Zeros(n), i)| + |CompressedFrom(Zeros(n), next)|;
    }
  }

  /** Zeros are compressed sixteen to a byte. */
  lemma SixteenZerosToAByte(n: nat)
    ensures |Compressed(Zeros(n))| == (n + 15) / 16
  {
    ZerosFrom(n, 0);
  }

  // ------------------------------------------------------------------
  // Columns
  // ------------------------------------------------------------------

  /** The widths of the column types, in bits. */
  lemma TypeWidths(dbType: byte)
    ensures TypeBits(dbType) == 64 <==> dbType in {0x05, 0x06, 0x14, 0x15, 0x40}
    ensures TypeBits(dbType) == 32 <==> dbType in {0x03, 0x04, 0x13}
    ensures TypeBits(dbType) == 16 <==> dbType in {0x02, 0x12}
    ensures TypeBits(dbType) == 8 <==> dbType in {0x10, 0x11}
    ensures TypeBits(dbType) == 1 <==> dbType == 0x0B
    ensures TypeBits(dbType) == 0 <==> dbType !in {0x02, 0x03, 0x04, 0x05, 0x06, 0x0B, 0x10, 0x11, 0x12, 0x13, 0x14, 0x15, 0x40}
  {
  }

  // Bit `p` of the data from byte `start` on, the least significant bit of a byte first.
  predicate BitIsSet(data: seq<byte>, start: nat, p: nat)
    requires start + p / 8 < |data|
  {
    data[start + p / 8] / PowerOf2(p % 8) % 2 == 1
  }

  lemma PowersOf2()
    ensures PowerOf2(0) == 1 && PowerOf2(1) == 2 && PowerOf2(2) == 4 && PowerOf2(3) == 8
    ensures PowerOf2(4) == 16 && PowerOf2(5) == 32 && PowerOf2(6) == 64 && PowerOf2(7) == 128
  {
    assert PowerOf2(4) == 16;
  }

  lemma {:induction false} TestedBit(v: nat, k: nat)
    ensures TestBit(v, k) <==> v / PowerOf2(k) % 2 == 1
  {
    if k > 0 {
      TestedBit(v / 2, k - 1);
      HalfFirst(v, PowerOf2(k - 1));
    }
  }

  lemma HalfFirst(v: nat, m: nat)
    requires m > 0
    ensures v / 2 / m == v / (2 * m)
  {
    var w := v / 2;
    var r := v % 2 + 2 * (w % m);
    assert v == 2 * w + v % 2 && w == w / m * m + w % m;
    assert 2 * (w / m * m) == w / m * (2 * m);
    DivisionIsUnique(v, 2 * m, w / m, r);
  }

  lemma BitReads(data: seq<byte>, start: nat, p: nat)
    requires start + p / 8 < |data|
    ensures BitAt(data, start, p) == BitIsSet(data, start, p)
  {
    TestedBit(data[start + p / 8], p % 8);
  }

  // The bytes, and the bits, of the columns that come before the k-th of the order.
  function BytesBefore(columns: seq<Column>, order: seq<nat>, k: nat): nat
    requires k <= |order|
  {
    if k == 0 then 0 else BytesBefore(columns, order, k - 1) + TypeBits(TypeAt(columns, order[k - 1])) / 8
  }

  function BoolsBefore(columns: seq<Column>, order: seq<nat>, k: nat): nat
    requires k <= |order|
  {
    if k == 0 then 0 else BoolsBefore(columns, order, k - 1) + if TypeAt(columns, order[k - 1]) == 0x0B then 1 else 0
  }

  // What the data says about a column: null, or its bit, or its bytes.
  ghost predicate FieldIs(columns: seq<Column>, data: seq<byte>, start: nat, boolCount: nat, i: nat, offset: nat, bit: nat, field: Value) {
    && start + (boolCount + i) / 8 < |data|
    && if BitIsSet(data, start, boolCount + i) then field == NoneValue
       else if TypeAt(columns, i) == 0x0B then start + bit / 8 < |data| && field == BoolValue(BitIsSet(data, start, bit))
       else
         && TypeBytes(TypeAt(columns, i)) > 0 && offset + TypeBytes(TypeAt(columns, i)) <= |data|
         && field == ScalarAt(TypeAt(columns, i), data, offset)
  }

  lemma {:induction false} BeforeShifts(columns: seq<Column>, order: seq<nat>, k: nat)
    requires 0 < k <= |order|
    ensures BytesBefore(columns, order, k) == TypeBytes(TypeAt(columns, order[0])) + BytesBefore(columns, order[1..], k - 1)
    ensures BoolsBefore(columns, order, k) ==
      (if TypeAt(columns, order[0]) == 0x0B then 1 else 0) + BoolsBefore(columns, order[1..], k - 1)
    decreases k
  {
    hide TypeAt, TypeBits;
    assert BytesBefore(columns, order, 0) == 0 && BoolsBefore(columns, order, 0) == 0;
    if k > 1 {
      BeforeShifts(columns, order, k - 1);
      assert order[1..][k - 2] == order[k - 1];
    }
  }

  // What is read for a column with a width.
  function FieldOf(columns: seq<Column>, data: seq<byte>, start: nat, boolCount: nat, i: nat, offset: nat, bit: nat): Value
    requires i < |columns| && start + BitBytes(boolCount, |columns|) <= |data|
    requires offset + TypeBytes(TypeAt(columns, i)) <= |data| && BitsAt(columns, i) > 0
    requires TypeAt(columns, i) == 0x0B ==> bit < boolCount
  {
    if BitAt(data, start, i + boolCount) then NoneValue
    else if TypeAt(columns, i) == 0x0B then BoolValue(BitAt(data, start, bit))
    else ScalarAt(TypeAt(columns, i), data, offset)
  }

  lemma UnpackOne(columns: seq<Column>, order: seq<nat>, data: seq<byte>, start: nat, boolCount: nat,
                  offset: nat, boolOffset: nat, values: seq<Value>)
    requires |values| == |columns| && Unpackable(columns, order, data, start, boolCount, offset, boolOffset) && order != []
    ensures var i, rest := order[0], order[1..];
      var offset', boolOffset' := offset + TypeBytes(TypeAt(columns, i)), boolOffset + if TypeAt(columns, i) == 0x0B then 1 else 0;
      && i < |columns| && start + BitBytes(boolCount, |columns|) <= |data| && offset + TypeBytes(TypeAt(columns, i)) <= |data|
      && (TypeAt(columns, i) == 0x0B ==> boolOffset < boolCount)
      && Unpackable(columns, rest, data, start, boolCount, offset', boolOffset')
      && Unpacked(columns, order, data, start, boolCount, offset, boolOffset, values) ==
           Unpacked(columns, rest, data, start, boolCount, offset', boolOffset',
                    if BitsAt(columns, i) == 0 then values
                    else values[i := FieldOf(columns, data, start, boolCount, i, offset, boolOffset)])
  {
    hide ScalarAt, BitAt;
  }

  lemma {:induction false} OthersUntouched(columns: seq<Column>, order: seq<nat>, data: seq<byte>, start: nat, boolCount: nat,
                                           offset: nat, boolOffset: nat, values: seq<Value>, i: nat)
    requires |values| == |columns| && Unpackable(columns, order, data, start, boolCount, offset, boolOffset)
    requires i < |columns| && (i !in order || BitsAt(columns, i) == 0)
    ensures Unpacked(columns, order, data, start, boolCount, offset, boolOffset, values)[i] == values[i]
    decreases |order|
  {
    hide ScalarAt, BitAt, BitBytes, Unpackable, FieldOf, TypeBytes;
    if order != [] {
      hide Unpacked;
      UnpackOne(columns, order, data, start, boolCount, offset, boolOffset, values);
      var j, dbType := order[0], TypeAt(columns, order[0]);
      OthersUntouched(columns, order[1..], data, start, boolCount, offset + TypeBytes(dbType),
                      boolOffset + (if dbType == 0x0B then 1 else 0),
                      if BitsAt(columns, j) == 0 then values
                      else values[j := FieldOf(columns, data, start, boolCount, j, offset, boolOffset)], i);
    }
  }

  lemma FieldOfIs(columns: seq<Column>, data: seq<byte>, start: nat, boolCount: nat, i: nat, offset: nat, bit: nat)
    requires i < |columns| && start + BitBytes(boolCount, |columns|) <= |data|
    requires offset + TypeBytes(TypeAt(columns, i)) <= |data| && BitsAt(columns, i) > 0
    requires TypeAt(columns, i) == 0x0B ==> bit < boolCount
    ensures FieldIs(columns, data, start, boolCount, i, offset, bit, FieldOf(columns, data, start, boolCount, i, offset, bit))
  {
    hide ScalarAt, BitAt, BitIsSet;
    BitReads(data, start, i + boolCount);
    if TypeAt(columns, i) == 0x0B {
      BitReads(data, start, bit);
    }
  }

  lemma {:induction false} FieldReads(columns: seq<Column>, order: seq<nat>, data: seq<byte>, start: nat, boolCount: nat,
                                      offset: nat, boolOffset: nat, values: seq<Value>, k: nat)
    requires |values| == |columns| && Unpackable(columns, order, data, start, boolCount, offset, boolOffset)
    requires k < |order| && order[k] < |columns| && InSizeOrder(columns, order) && BitsAt(columns, order[k]) > 0
    ensures FieldIs(columns, data, start, boolCount, order[k], offset + BytesBefore(columns, order, k),
                    boolOffset + BoolsBefore(columns, order, k),
                    Unpacked(columns, order, data, start, boolCount, offset, boolOffset, values)[order[k]])
    decreases |order|
  {
    hide ScalarAt, BitAt, FieldIs, BitBytes, InSizeOrder, Unpackable, Unpacked, FieldOf, TypeBytes;
    var i, dbType, rest := order[0], TypeAt(columns, order[0]), order[1..];
    UnpackOne(columns, order, data, start, boolCount, offset, boolOffset, values);
    RestWithoutFirst(columns, order);
    var offset', boolOffset' := offset + TypeBytes(dbType), boolOffset + if dbType == 0x0B then 1 else 0;
    var after := if BitsAt(columns, i) == 0 then values
                 else values[i := FieldOf(columns, data, start, boolCount, i, offset, boolOffset)];
    if k == 0 {
      FieldOfIs(columns, data, start, boolCount, i, offset, boolOffset);
      OthersUntouched(columns, rest, data, start, boolCount, offset', boolOffset', after, i);
    } else {
      BeforeShifts(columns, order, k);
      FieldReads(columns, rest, data, start, boolCount, offset', boolOffset', after, k - 1);
    }
  }

  // The number of columns of bools among the first `n`.
  function BoolColumns(columns: seq<Column>, n: nat): nat
    requires n <= |columns|
  {
    if n == 0 then 0 else BoolColumns(columns, n - 1) + if columns[n - 1].dbType == 0x0B then 1 else 0
  }

  lemma {:induction false} BoolColumnsCount(columns: seq<Column>, n: nat)
    requires n <= |columns|
    ensures BoolCount(columns, n) == BoolColumns(columns, n)
  {
    if n > 0 {
      BoolColumnsCount(columns, n - 1);
    }
  }

  lemma DecodedUnpacked(columns: seq<Column>, rle: seq<byte>)
    requires DecodeFields(columns, rle).Ok?
    ensures Decompressed(rle, ExpectedBytes(columns)).Some?
    ensures var data, order, bools := Decompressed(rle, ExpectedBytes(columns)).value, SizeOrder(columns), BoolColumns(columns, |columns|);
      && BitBytes(bools, |columns|) <= |data|
      && Unpackable(columns, order, data, |data| - BitBytes(bools, |columns|), bools, 0, 0)
      && DecodeFields(columns, rle).value ==
           Unpacked(columns, order, data, |data| - BitBytes(bools, |columns|), bools, 0, 0, seq(|columns|, _ => NoneValue))
  {
    hide Unpacked, Decompressed, ExpectedBytes, Unpackable, Bools, SizeOrder, BitBytes, OrderOf;
    UnpackedFits(columns, Decompressed(rle, ExpectedBytes(columns)).value);
    BoolsOfOrder(columns);
  }

  lemma BoolsOfOrder(columns: seq<Column>)
    ensures |Bools(columns, SizeOrder(columns))| == BoolColumns(columns, |columns|)
  {
    OrderOfWidth(columns, |columns|);
    BoolColumnsCount(columns, |columns|);
  }

  /** The columns with a width, of any compressed data. Widest first, and in their own order if equally wide, they
      lie one behind the other; at the end of the data come a bit for every bool, in that order too, and a bit for
      every column that says whether it is null, padded to a whole byte. */
  lemma FieldsRead(columns: seq<Column>, rle: seq<byte>, order: seq<nat>, k: nat)
    requires InSizeOrder(columns, order) && (forall x: nat :: x in order <==> x < |columns|)
    requires k < |order| && TypeBits(TypeAt(columns, order[k])) > 0 && DecodeFields(columns, rle).Ok?
    ensures Decompressed(rle, ExpectedBytes(columns)).Some? && order[k] < |columns| == |DecodeFields(columns, rle).value|
    ensures var data := Decompressed(rle, ExpectedBytes(columns)).value;
      var bools := BoolColumns(columns, |columns|);
      && (bools + |columns| + 7) / 8 <= |data|
      && FieldIs(columns, data, |data| - (bools + |columns| + 7) / 8, bools, order[k], BytesBefore(columns, order, k),
                 BoolsBefore(columns, order, k), DecodeFields(columns, rle).value[order[k]])
  {
    hide Unpacked, Decompressed, ExpectedBytes, FieldIs, InSizeOrder, Unpackable, DecodeFields, SizeOrder, OrderOf, BoolColumns,
         BytesBefore, BoolsBefore;
    assert order[k] in order;
    StableSortIsUnique(columns, order);
    DecodedUnpacked(columns, rle);
    var data, bools := Decompressed(rle, ExpectedBytes(columns)).value, BoolColumns(columns, |columns|);
    FieldReads(columns, order, data, |data| - BitBytes(bools, |columns|), bools, 0, 0, seq(|columns|, _ => NoneValue), k);
  }

  /** Decoding the fields fails only for want of bytes: what the columns take, and a bit for each of the bools and
      for each column. */
  lemma FieldsFail(columns: seq<Column>, rle: seq<byte>)
    ensures DecodeFields(columns, rle).Err? <==> Runs(rle, 0, None, ExpectedBytes(columns)).None?
    ensures DecodeFields(columns, rle).Err? ==> DecodeFields(columns, rle).error == Truncated
    ensures ExpectedBytes(columns) == BytesBefore(columns, SizeOrder(columns), |columns|) +
      (BoolColumns(columns, |columns|) + |columns| + 7) / 8
  {
    hide Unpacked, Runs, Decompressed, SizeOrder, Bools;
    DecompressionReadsRuns(rle, ExpectedBytes(columns));
    BoolColumnsCount(columns, |columns|);
    WidthOfOrder(columns);
  }

  lemma WidthOfOrder(columns: seq<Column>)
    ensures FixedBits(columns, |columns|) / 8 == BytesBefore(columns, SizeOrder(columns), |columns|)
  {
    hide Width, BytesBefore;
    OrderOfWidth(columns, |columns|);
    WidthIsSum(columns, SizeOrder(columns));
  }

  lemma {:induction false} WidthIsSum(columns: seq<Column>, order: seq<nat>)
    ensures Width(columns, order) == BytesBefore(columns, order, |order|)
  {
    hide TypeBytes, TypeAt;
    if order != [] {
      WidthIsSum(columns, order[1..]);
      BeforeShifts(columns, order, |order|);
    }
  }

  // ------------------------------------------------------------------
  // Scalars
  // ------------------------------------------------------------------

  predicate IsIntegerColumn(dbType: byte) {
    dbType == 0x02 || dbType == 0x03 || dbType == 0x06 || dbType == 0x40 || 0x10 <= dbType <= 0x15
  }

  // Half as many integers as a column of the type can hold.
  function HalfOf(dbType: byte): int {
    if dbType == 0x10 || dbType == 0x11 then 0x80
    else if dbType == 0x02 || dbType == 0x12 then 0x8000
    else if dbType == 0x03 || dbType == 0x13 then 0x8000_0000
    else 0x8000_0000_0000_0000
  }

  lemma HalfPower(dbType: byte)
    requires IsIntegerColumn(dbType)
    ensures 2 * HalfOf(dbType) == Power256(TypeBits(dbType) / 8) && TypeBytes(dbType) == TypeBits(dbType) / 8 > 0
  {
    PowersOf256();
  }

  lemma IntegerBytesRead(dbType: byte, data: seq<byte>, offset: nat, i: Int64, n: nat)
    requires IsIntegerColumn(dbType) && n == TypeBytes(dbType) > 0 && DigitsAt(data, offset, i, n)
    requires if IsUnsigned(dbType) then 0 <= i < Power256(n) else FitsSigned(i, n)
    ensures offset + n <= |data| && ScalarAt(dbType, data, offset) == IntValue(i)
  {
    hide DigitsAt, Power256, FromLittleEndian, TypeBytes;
    DigitsOfPart(data, offset, i, n);
    DigitsGive(data[offset..offset + n], i);
    if IsUnsigned(dbType) {
      DivisionIsUnique(i, Power256(n), 0, i);
    } else {
      SignedRoundTrip(i, n);
    }
  }

  /** An integer column is its bytes: those of the types UI1, UI2 and UI4 as they are, all others, UI8 among them,
      in two's complement. */
  lemma IntegerColumnReads(dbType: byte, data: seq<byte>, offset: nat, i: Int64)
    requires IsIntegerColumn(dbType) && DigitsAt(data, offset, i, TypeBits(dbType) / 8)
    requires if 0x11 <= dbType <= 0x13 then 0 <= i < 2 * HalfOf(dbType) else -HalfOf(dbType) <= i < HalfOf(dbType)
    ensures TypeBytes(dbType) > 0 && offset + TypeBytes(dbType) <= |data|
    ensures ScalarAt(dbType, data, offset) == IntValue(i)
  {
    hide DigitsAt, Power256, ScalarAt, TypeBits, HalfOf;
    HalfPower(dbType);
    IntegerBytesRead(dbType, data, offset, i, TypeBytes(dbType));
  }

  /** A column of doubles is the eight bytes, one of floats the double that its four bytes widen to. */
  lemma RealColumnReads(dbType: byte, data: seq<byte>, offset: nat, bits: Word64)
    requires dbType == 0x05 || (dbType == 0x04 && bits < 0x1_0000_0000)
    requires DigitsAt(data, offset, bits, TypeBits(dbType) / 8)
    ensures offset + TypeBytes(dbType) <= |data|
    ensures ScalarAt(dbType, data, offset) == RealValue(if dbType == 0x05 then bits else WidenedFloat(bits))
  {
    hide DigitsAt, WidenedFloat;
    var n := TypeBytes(dbType);
    PowersOf256();
    DigitsOfPart(data, offset, bits, n);
    DigitsGive(data[offset..offset + n], bits);
    DivisionIsUnique(bits, Power256(n), 0, bits);
  }

  // ------------------------------------------------------------------
  // Floats
  // ------------------------------------------------------------------

  lemma TimesTwo(p: nat, q: nat)
    ensures 2 * (p * q) == 2 * p * q
  {
  }

  lemma NextPower(n: nat)
    ensures PowerOf2(0) == 1 && PowerOf2(n + 1) == 2 * PowerOf2(n)
  {
  }

  lemma {:induction false} PowersMultiply(a: nat, b: nat)
    ensures PowerOf2(a + b) == PowerOf2(a) * PowerOf2(b)
  {
    hide PowerOf2;
    NextPower(0);
    if a > 0 {
      PowersMultiply(a - 1, b);
      NextPower(a - 1);
      NextPower(a - 1 + b);
      TimesTwo(PowerOf2(a - 1), PowerOf2(b));
    }
  }

  // The magnitude of a finite float or double, as a multiple of 2 to the power of -1075.
  function FloatMagnitude(bits: Word32): nat {
    var exponent, fraction := bits / 0x80_0000 % 0x100, bits % 0x80_0000;
    if exponent == 0 then fraction * PowerOf2(926) else (0x80_0000 + fraction) * PowerOf2(exponent + 925)
  }

  function DoubleMagnitude(bits: Word64): nat {
    var exponent, fraction := bits / 0x10_0000_0000_0000 % 0x800, bits % 0x10_0000_0000_0000;
    if exponent == 0 then fraction * PowerOf2(1) else (0x10_0000_0000_0000 + fraction) * PowerOf2(exponent)
  }

  // The parts of a double built from its parts.
  lemma DoubleParts(sign: nat, exponent: nat, fraction: nat)
    requires sign < 2 && exponent < 0x800 && fraction < 0x10_0000_0000_0000
    ensures var bits := sign * 0x8000_0000_0000_0000 + exponent * 0x10_0000_0000_0000 + fraction;
      && bits < 0x1_0000_0000_0000_0000
      && bits / 0x8000_0000_0000_0000 == sign && bits / 0x10_0000_0000_0000 % 0x800 == exponent
      && bits % 0x10_0000_0000_0000 == fraction
  {
  }

  lemma {:induction false} NormalizedKeeps(exponent: nat, fraction: nat)
    requires 0 < fraction < 0x10_0000_0000_0000 && 0 < exponent <= 897
    requires fraction * PowerOf2(exponent - 1) >= 0x10_0000_0000_0000
    ensures var bits := Normalized(exponent, fraction);
      var high, low := bits / 0x10_0000_0000_0000, bits % 0x10_0000_0000_0000;
      0 < high < 897 && (0x10_0000_0000_0000 + low) * PowerOf2(high) == fraction * PowerOf2(exponent)
    decreases exponent
  {
    assert PowerOf2(0) == 1;
    assert exponent > 1;
    assert PowerOf2(exponent) == 2 * PowerOf2(exponent - 1) && PowerOf2(exponent - 1) == 2 * PowerOf2(exponent - 2);
    assert fraction * (2 * PowerOf2(exponent - 1)) == 2 * fraction * PowerOf2(exponent - 1);
    if 2 * fraction < 0x10_0000_0000_0000 {
      assert fraction * (2 * PowerOf2(exponent - 2)) == 2 * fraction * PowerOf2(exponent - 2);
      NormalizedKeeps(exponent - 1, 2 * fraction);
    }
  }

  lemma FloatParts(bits: Word32)
    ensures var sign, exponent, fraction := bits / 0x8000_0000, bits / 0x80_0000 % 0x100, bits % 0x80_0000;
      sign < 2 && exponent < 0x100 && fraction < 0x80_0000
  {
  }

  lemma SameProduct(a: nat, b: nat, n: nat, m: nat)
    requires a == b * PowerOf2(29) && m == n + 29
    ensures a * PowerOf2(n) == b * PowerOf2(m)
  {
    PowersMultiply(29, n);
    assert b * PowerOf2(29) * PowerOf2(n) == b * (PowerOf2(29) * PowerOf2(n));
  }

  lemma TwoTo29()
    ensures PowerOf2(29) == 0x2000_0000
  {
    assert PowerOf2(7) == 128;
    PowersMultiply(7, 7);
    PowersMultiply(14, 14);
    PowersMultiply(1, 28);
  }

  lemma NormalIsExact(exponent: nat, fraction: nat)
    requires 0 < exponent < 0xFF && fraction < 0x80_0000
    ensures (0x10_0000_0000_0000 + fraction * 0x2000_0000) * PowerOf2(exponent + 896) ==
      (0x80_0000 + fraction) * PowerOf2(exponent + 925)
  {
    TwoTo29();
    SameProduct(0x10_0000_0000_0000 + fraction * 0x2000_0000, 0x80_0000 + fraction, exponent + 896, exponent + 925);
  }

  lemma {:induction false} AtLeast(n: nat, m: nat)
    requires n <= m
    ensures PowerOf2(n) <= PowerOf2(m)
  {
    if n < m {
      AtLeast(n, m - 1);
    }
  }

  lemma SubnormalIsExact(fraction: nat)
    requires 0 < fraction < 0x80_0000
    ensures fraction * 0x2000_0000 < 0x10_0000_0000_0000
    ensures var bits := Normalized(897, fraction * 0x2000_0000);
      var high, low := bits / 0x10_0000_0000_0000, bits % 0x10_0000_0000_0000;
      0 < high < 897 && (0x10_0000_0000_0000 + low) * PowerOf2(high) == fraction * PowerOf2(926)
  {
    hide PowerOf2, Normalized;
    var wide := fraction * 0x2000_0000;
    TwoTo29();
    AtLeast(29, 896);
    assert wide * PowerOf2(896) >= 0x2000_0000 * 0x2000_0000 by {
      MoreTimesMore(wide, PowerOf2(896), 0x2000_0000);
    }
    NormalizedKeeps(897, wide);
    SameProduct(wide, fraction, 897, 926);
  }

  lemma MoreTimesMore(a: nat, b: nat, m: nat)
    requires a >= m && b >= m
    ensures a * b >= m * m
  {
    assert (a - m) * b >= 0 && m * (b - m) >= 0;
    assert a * b == (a - m) * b + m * b && m * b == m * (b - m) + m * m;
  }

  // What a double says that a float with these parts has been widened to.
  ghost predicate IsWidened(sign: nat, exponent: nat, fraction: nat, wide: Word64) {
    && wide / 0x8000_0000_0000_0000 == sign
    && if exponent == 0xFF then
         wide / 0x10_0000_0000_0000 % 0x800 == 0x7FF && wide % 0x10_0000_0000_0000 == fraction * 0x2000_0000
       else
         && wide / 0x10_0000_0000_0000 % 0x800 < 0x7FF
         && DoubleMagnitude(wide) == if exponent == 0 then fraction * PowerOf2(926) else (0x80_0000 + fraction) * PowerOf2(exponent + 925)
  }

  lemma WidenedNormal(sign: nat, exponent: nat, fraction: nat)
    requires sign < 2 && 0 < exponent <= 0xFF && fraction < 0x80_0000
    ensures var high := if exponent == 0xFF then 0x7FF else exponent + 896;
      var wide := sign * 0x8000_0000_0000_0000 + high * 0x10_0000_0000_0000 + fraction * 0x2000_0000;
      wide < 0x1_0000_0000_0000_0000 && IsWidened(sign, exponent, fraction, wide)
  {
    hide PowerOf2;
    DoubleParts(sign, if exponent == 0xFF then 0x7FF else exponent + 896, fraction * 0x2000_0000);
    if exponent < 0xFF {
      NormalIsExact(exponent, fraction);
    }
  }

  lemma WidenedSubnormal(sign: nat, fraction: nat)
    requires sign < 2 && fraction < 0x80_0000
    ensures fraction * 0x2000_0000 < 0x10_0000_0000_0000
    ensures var wide := sign * 0x8000_0000_0000_0000 + if fraction == 0 then 0 else Normalized(897, fraction * 0x2000_0000);
      wide < 0x1_0000_0000_0000_0000 && IsWidened(sign, 0, fraction, wide)
  {
    hide PowerOf2, Normalized;
    if fraction == 0 {
      DoubleParts(sign, 0, 0);
    } else {
      var shifted := Normalized(897, fraction * 0x2000_0000);
      SubnormalIsExact(fraction);
      DoubleParts(sign, shifted / 0x10_0000_0000_0000, shifted % 0x10_0000_0000_0000);
    }
  }

  /** A float widens to the double of the same sign and the same magnitude, whether normal or subnormal; an infinity
      or a number that is none keeps its fraction, padded to the right. */
  lemma WidenedFloatIsExact(bits: Word32)
    ensures var wide := WidenedFloat(bits);
      && wide / 0x8000_0000_0000_0000 == bits / 0x8000_0000
      && if bits / 0x80_0000 % 0x100 == 0xFF then
           wide / 0x10_0000_0000_0000 % 0x800 == 0x7FF && wide % 0x10_0000_0000_0000 == bits % 0x80_0000 * 0x2000_0000
         else wide / 0x10_0000_0000_0000 % 0x800 < 0x7FF && DoubleMagnitude(wide) == FloatMagnitude(bits)
  {
    hide PowerOf2, Normalized, DoubleMagnitude;
    var sign, exponent, fraction := bits / 0x8000_0000, bits / 0x80_0000 % 0x100, bits % 0x80_0000;
    FloatParts(bits);
    if exponent > 0 {
      WidenedNormal(sign, exponent, fraction);
    } else {
      WidenedSubnormal(sign, fraction);
    }
  }
}
