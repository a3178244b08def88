/** The zero-run compression of packed rows: each control byte holds two nibbles, low nibble first, and
    each nibble stands for a run of up to eight zero bytes or of up to eight literal bytes. */
module ZeroRuns {
  import opened Bytes
  import opened Options

  const MAX_RUN: nat := 8

  // ------------------------------------------------------------------
  // Specification
  // ------------------------------------------------------------------

  // How many of the next `limit` bytes are zero, or are not, before the first that differs.
  function Run(input: seq<byte>, i: nat, zero: bool, limit: nat): (run: nat)
    requires i <= |input|
    ensures run <= limit && i + run <= |input|
    decreases limit
  {
    if limit == 0 || i == |input| || (input[i] == 0) != zero then 0
    else 1 + Run(input, i + 1, zero, limit - 1)
  }

  // The length of the run that starts at `i`.
  function RunAt(input: seq<byte>, i: nat): (run: nat)
    requires i < |input|
    ensures 1 <= run <= MAX_RUN && i + run <= |input|
  {
    1 + Run(input, i + 1, input[i] == 0, MAX_RUN - 1)
  }

  function NibbleAt(input: seq<byte>, i: nat): (nibble: byte)
    requires i < |input|
    ensures nibble < 16
  {
    if input[i] == 0 then RunAt(input, i) + 7 else MAX_RUN - RunAt(input, i)
  }

  function Control(low: byte, high: byte): (control: byte)
    requires low < 16 && high < 16
    ensures control % 16 == low && control / 16 == high
  {
    low + 16 * high
  }

  function LiteralsAt(input: seq<byte>, i: nat): seq<byte>
    requires i < |input|
  {
    if input[i] == 0 then [] else Copied(input, i, RunAt(input, i))
  }

  function Copied(input: seq<byte>, i: nat, n: nat): (copy: seq<byte>)
    requires i + n <= |input|
    ensures |copy| == n
    decreases n
  {
    if n == 0 then [] else [input[i]] + Copied(input, i + 1, n - 1)
  }

  // One control byte and the literals of the one or two runs it describes.
  function GroupAt(input: seq<byte>, i: nat): seq<byte>
    requires i < |input|
  {
    var j := i + RunAt(input, i);
    if j == |input| then [NibbleAt(input, i)] + LiteralsAt(input, i)
    else [Control(NibbleAt(input, i), NibbleAt(input, j))] + LiteralsAt(input, i) + LiteralsAt(input, j)
  }

  function AfterGroup(input: seq<byte>, i: nat): (next: nat)
    requires i < |input|
    ensures i < next <= |input|
  {
    var j := i + RunAt(input, i);
    if j == |input| then j else j + RunAt(input, j)
  }

  // The compressed form of what follows position `i`.
  function CompressedFrom(input: seq<byte>, i: nat): seq<byte>
    requires i <= |input|
    decreases |input| - i
  {
    if i == |input| then [] else GroupAt(input, i) + CompressedFrom(input, AfterGroup(input, i))
  }

  function Compressed(input: seq<byte>): seq<byte> {
    CompressedFrom(input, 0)
  }

  // What has been decompressed so far, and where the compressed data goes on.
  datatype Progress = Progress(out: seq<byte>, next: nat) | Short

  function Expansion(nibble: nat, rle: seq<byte>, i: nat, out: seq<byte>): (r: Progress)
    requires nibble < 16 && i <= |rle|
    ensures r.Progress? ==> |out| < |r.out| <= |out| + MAX_RUN && i <= r.next <= |rle|
  {
    if nibble >= 8 then Progress(out + Zeros(nibble - 7), i)
    else if i + (MAX_RUN - nibble) > |rle| then Short
    else Progress(out + Copied(rle, i, MAX_RUN - nibble), i + (MAX_RUN - nibble))
  }

  function Zeros(n: nat): (zeros: seq<byte>)
    ensures |zeros| == n
  {
    seq(n, _ => 0)
  }

  // What the control byte at `i` adds; its high nibble counts only if more bytes are needed.
  function GroupExpansion(rle: seq<byte>, i: nat, out: seq<byte>, expected: nat): (r: Progress)
    requires i < |rle| && |out| < expected
    ensures r.Progress? ==> |out| < |r.out| < expected + MAX_RUN && i < r.next <= |rle|
  {
    var first := Expansion(rle[i] % 16, rle, i + 1, out);
    if first.Short? || |first.out| >= expected then first
    else Expansion(rle[i] / 16, rle, first.next, first.out)
  }

  // At least the expected number of bytes, or nothing if the compressed data ends before.
  function Expanded(rle: seq<byte>, i: nat, out: seq<byte>, expected: nat): (r: Option<seq<byte>>)
    requires i <= |rle|
    ensures r.Some? ==> expected <= |r.value|
    decreases |rle| - i
  {
    if |out| >= expected then Some(out)
    else if i == |rle| then None
    else
      var group := GroupExpansion(rle, i, out, expected);
      if group.Short? then None else Expanded(rle, group.next, group.out, expected)
  }

  function Decompressed(rle: seq<byte>, expected: nat): (r: Option<seq<byte>>)
    ensures r.Some? ==> expected <= |r.value|
  {
    Expanded(rle, 0, [], expected)
  }

  // ------------------------------------------------------------------
  // Expansion undoes compression
  // ------------------------------------------------------------------

  lemma {:induction false} RunIsUniform(input: seq<byte>, i: nat, zero: bool, limit: nat)
    requires i <= |input|
    ensures forall k :: i <= k < i + Run(input, i, zero, limit) ==> (input[k] == 0) == zero
    ensures var end := i + Run(input, i, zero, limit);
      end < i + limit && end < |input| ==> (input[end] == 0) != zero
    decreases limit
  {
    if limit > 0 && i < |input| && (input[i] == 0) == zero {
      RunIsUniform(input, i + 1, zero, limit - 1);
    }
  }

  lemma {:induction false} CopiedIsSlice(input: seq<byte>, i: nat, n: nat)
    requires i + n <= |input|
    ensures Copied(input, i, n) == input[i..i + n]
    decreases n
  {
    if n > 0 {
      CopiedIsSlice(input, i + 1, n - 1);
      assert input[i..i + n] == [input[i]] + input[i + 1..i + n];
    }
  }

  lemma AddZeros(input: seq<byte>, i: nat, n: nat)
    requires i + n <= |input| && forall k :: i <= k < i + n ==> input[k] == 0
    ensures input[..i] + Zeros(n) == input[..i + n]
  {
  }

  lemma AddLiterals(input: seq<byte>, i: nat, n: nat, rle: seq<byte>, at: nat)
    requires i + n <= |input| && n > 0 && At(rle, at, Copied(input, i, n))
    ensures at + n <= |rle| && input[..i] + Copied(rle, at, n) == input[..i + n]
  {
    CopiedIsSlice(input, i, n);
    CopiedIsSlice(rle, at, n);
    AtSlice(rle, at, Copied(input, i, n));
  }

  lemma ExpandRun(input: seq<byte>, i: nat, rle: seq<byte>, at: nat)
    requires i < |input| && At(rle, at, LiteralsAt(input, i))
    ensures Expansion(NibbleAt(input, i), rle, at, input[..i]) == Progress(input[..i + RunAt(input, i)], at + |LiteralsAt(input, i)|)
  {
    hide At, Copied, Zeros, Run;
    RunIsUniform(input, i + 1, input[i] == 0, MAX_RUN - 1);
    if input[i] == 0 {
      AddZeros(input, i, RunAt(input, i));
    } else {
      AddLiterals(input, i, RunAt(input, i), rle, at);
    }
  }

  lemma ControlAt(rle: seq<byte>, at: nat, control: byte, literals: seq<byte>)
    requires At(rle, at, [control] + literals)
    ensures at < |rle| && rle[at] == control && At(rle, at + 1, literals)
  {
    AtSplits(rle, at, [control], literals);
    AtByte(rle, at, control);
  }

  // Where the parts of a group lie.
  lemma GroupParts(input: seq<byte>, i: nat, rle: seq<byte>, at: nat)
    requires i < |input| && At(rle, at, GroupAt(input, i))
    ensures at < |rle| && At(rle, at + 1, LiteralsAt(input, i)) && rle[at] % 16 == NibbleAt(input, i)
    ensures var j := i + RunAt(input, i);
      j < |input| ==> rle[at] / 16 == NibbleAt(input, j) && At(rle, at + 1 + |LiteralsAt(input, i)|, LiteralsAt(input, j))
  {
    hide At, LiteralsAt, NibbleAt, RunAt;
    var j, literals := i + RunAt(input, i), LiteralsAt(input, i);
    if j == |input| {
      ControlAt(rle, at, NibbleAt(input, i), literals);
    } else {
      var control := Control(NibbleAt(input, i), NibbleAt(input, j));
      AtSplits(rle, at, [control] + literals, LiteralsAt(input, j));
      ControlAt(rle, at, control, literals);
    }
  }

  lemma ExpandGroup(input: seq<byte>, i: nat, rle: seq<byte>, at: nat)
    requires i < |input| && At(rle, at, GroupAt(input, i))
    ensures at < |rle|
    ensures GroupExpansion(rle, at, input[..i], |input|) == Progress(input[..AfterGroup(input, i)], at + |GroupAt(input, i)|)
  {
    hide Expansion, LiteralsAt, NibbleAt, RunAt;
    GroupParts(input, i, rle, at);
    ExpandRun(input, i, rle, at + 1);
    var j := i + RunAt(input, i);
    if j < |input| {
      ExpandRun(input, j, rle, at + 1 + |LiteralsAt(input, i)|);
    }
  }

  lemma CompressedParts(input: seq<byte>, i: nat, rle: seq<byte>, at: nat)
    requires i < |input| && At(rle, at, CompressedFrom(input, i))
    ensures At(rle, at, GroupAt(input, i)) && At(rle, at + |GroupAt(input, i)|, CompressedFrom(input, AfterGroup(input, i)))
  {
    AtSplits(rle, at, GroupAt(input, i), CompressedFrom(input, AfterGroup(input, i)));
  }

  lemma ExpandedStep(rle: seq<byte>, at: nat, out: seq<byte>, expected: nat, next: nat, more: seq<byte>)
    requires at < |rle| && |out| < expected && next <= |rle|
    requires GroupExpansion(rle, at, out, expected) == Progress(more, next)
    ensures Expanded(rle, at, out, expected) == Expanded(rle, next, more, expected)
  {
  }

  lemma ExpandOneGroup(input: seq<byte>, i: nat, rle: seq<byte>, at: nat, next: nat, length: nat)
    requires i < |input| && At(rle, at, GroupAt(input, i)) && next == AfterGroup(input, i) && length == |GroupAt(input, i)|
    ensures at < |rle| && at + length <= |rle|
    ensures Expanded(rle, at, input[..i], |input|) == Expanded(rle, at + length, input[..next], |input|)
  {
    ExpandGroup(input, i, rle, at);
    ExpandedStep(rle, at, input[..i], |input|, at + length, input[..next]);
  }

  lemma {:induction false} ExpandCompressedAt(input: seq<byte>, i: nat, rle: seq<byte>, at: nat)
    requires i <= |input| && At(rle, at, CompressedFrom(input, i))
    ensures Expanded(rle, at, input[..i], |input|) == Some(input)
    decreases |input| - i
  {
    hide GroupAt, AfterGroup, GroupExpansion, Expansion;
    if i < |input| {
      var next, length := AfterGroup(input, i), |GroupAt(input, i)|;
      CompressedParts(input, i, rle, at);
      ExpandOneGroup(input, i, rle, at, next, length);
      ExpandCompressedAt(input, next, rle, at + length);
    } else {
      assert input[..i] == input;
    }
  }

  /** Decompression restores the input whenever the expected length is the length of the input, also when
      the last control byte has an unused high nibble. */
  lemma ExpandCompressed(input: seq<byte>)
    ensures Decompressed(Compressed(input), |input|) == Some(input)
  {
    AtSelf(Compressed(input));
    ExpandCompressedAt(input, 0, Compressed(input), 0);
    assert input[..0] == [];
  }

  // A group is longer than what it stands for only if that is two runs of literals or the end of the input.
  // Two literal runs, or two zero runs, follow each other only when the first is full.
  lemma FullRun(input: seq<byte>, i: nat)
    requires i < |input|
    ensures var j := i + RunAt(input, i);
      j < |input| && (input[i] == 0) == (input[j] == 0) ==> RunAt(input, i) == MAX_RUN
  {
    RunIsUniform(input, i + 1, input[i] == 0, MAX_RUN - 1);
  }

  lemma GroupLength(input: seq<byte>, i: nat)
    requires i < |input|
    ensures |GroupAt(input, i)| <= AfterGroup(input, i) - i + 1
    ensures |GroupAt(input, i)| <= AfterGroup(input, i) - i || AfterGroup(input, i) >= i + 9 || AfterGroup(input, i) == |input|
  {
    hide RunAt, Copied, NibbleAt, Control;
    FullRun(input, i);
  }

  lemma {:induction false} CompressedFromLength(input: seq<byte>, i: nat)
    requires i <= |input|
    ensures |CompressedFrom(input, i)| <= |input| - i + (|input| - i + 8) / 9
    decreases |input| - i
  {
    if i < |input| {
      CompressedFromLength(input, AfterGroup(input, i));
      GroupLength(input, i);
      var group, rest := GroupAt(input, i), CompressedFrom(input, AfterGroup(input, i));
      assert |CompressedFrom(input, i)| == |group| + |rest|;
    }
  }

  /** Compression costs at most one byte for every nine of the input. */
  lemma CompressedLength(input: seq<byte>)
    ensures |Compressed(input)| <= |input| + (|input| + 8) / 9
  {
    CompressedFromLength(input, 0);
  }

  // ------------------------------------------------------------------
  // The program
  // ------------------------------------------------------------------

  method ScanRun(input: seq<byte>, i: nat) returns (run: nat)
    requires i < |input|
    ensures run == RunAt(input, i)
  {
    run := 1;
    while run < MAX_RUN && i + run < |input| && (input[i + run] == 0) == (input[i] == 0)
      invariant 1 <= run <= MAX_RUN && i + run <= |input|
      invariant RunAt(input, i) == run + Run(input, i + run, input[i] == 0, MAX_RUN - run)
    {
      run := run + 1;
    }
  }

  method ZeroCompress(packed: seq<byte>, bitData: seq<byte>) returns (out: seq<byte>)
    ensures out == Compressed(packed + bitData)
  {
    var input := packed + bitData;
    out := [];
    var i := 0;
    while i < |input|
      invariant i <= |input| && out + CompressedFrom(input, i) == Compressed(input)
    {
      Reassociate(out, GroupAt(input, i), CompressedFrom(input, AfterGroup(input, i)));
      out, i := AppendGroup(input, i, out);
    }
  }

  lemma Reassociate(a: seq<byte>, b: seq<byte>, c: seq<byte>)
    ensures a + (b + c) == a + b + c
  {
  }

  lemma FillControl(before: seq<byte>, control: byte, filled: byte, literals: seq<byte>, more: seq<byte>)
    ensures (before + [control] + literals)[|before| := filled] + more == before + ([filled] + literals + more)
    ensures before + [control] + literals == before + ([control] + literals)
  {
  }

  // One round of the compression loop: the control byte is stored first and filled in nibble by nibble.
  method AppendGroup(input: seq<byte>, start: nat, before: seq<byte>) returns (out: seq<byte>, i: nat)
    requires start < |input|
    ensures out == before + GroupAt(input, start) && i == AfterGroup(input, start)
  {
    var controlIndex := |before|;
    var control, literals := EncodeRun(input, start);
    i := start + RunAt(input, start);
    out := before + [control] + literals;
    FillControl(before, control, control, literals, []);
    if i < |input| {
      var encoded, more := EncodeRun(input, i);
      FillControl(before, control, Control(control, encoded), literals, more);
      out := out[controlIndex := control + 16 * encoded] + more;
      i := i + RunAt(input, i);
    }
  }

  method EncodeRun(input: seq<byte>, i: nat) returns (encoded: byte, literals: seq<byte>)
    requires i < |input|
    ensures encoded == NibbleAt(input, i) && literals == LiteralsAt(input, i)
  {
    var run := ScanRun(input, i);
    if input[i] == 0 {
      encoded, literals := run + 7, [];
    } else {
      CopiedIsSlice(input, i, run);
      encoded, literals := MAX_RUN - run, input[i..i + run];
    }
  }

  method ZeroDecompress(rle: seq<byte>, expected: nat) returns (r: Option<seq<byte>>)
    ensures r == Decompressed(rle, expected)
  {
    hide Expanded, Expansion;
    var out: seq<byte> := [];
    var i := 0;
    while i < |rle| && |out| < expected
      invariant i <= |rle| && Decompressed(rle, expected) == Expanded(rle, i, out, expected)
    {
      ExpandedNext(rle, i, out, expected);
      var control := rle[i];
      i := i + 1;
      var progress := ExpandNibble(control % 16, rle, i, out);
      if progress.Progress? && |progress.out| < expected {
        progress := ExpandNibble(control / 16, rle, progress.next, progress.out);
      }
      if progress.Short? { return None; }
      out, i := progress.out, progress.next;
    }
    ExpandedLast(rle, i, out, expected);
    r := if |out| < expected then None else Some(out);
  }

  lemma ExpandedNext(rle: seq<byte>, i: nat, out: seq<byte>, expected: nat)
    requires i < |rle| && |out| < expected
    ensures var group := GroupExpansion(rle, i, out, expected);
      Expanded(rle, i, out, expected) == if group.Short? then None else Expanded(rle, group.next, group.out, expected)
  {
  }

  lemma ExpandedLast(rle: seq<byte>, i: nat, out: seq<byte>, expected: nat)
    requires i <= |rle| && (i == |rle| || |out| >= expected)
    ensures Expanded(rle, i, out, expected) == if |out| < expected then None else Some(out)
  {
  }

  method ExpandNibble(nibble: nat, rle: seq<byte>, i: nat, out: seq<byte>) returns (r: Progress)
    requires nibble < 16 && i <= |rle|
    ensures r == Expansion(nibble, rle, i, out)
  {
    if nibble < 8 {
      var run := 8 - nibble;
      if i + run > |rle| { return Short; }
      CopiedIsSlice(rle, i, run);
      r := Progress(out + rle[i..i + run], i + run);
    } else {
      r := Progress(out + Zeros(nibble - 7), i);
    }
  }
}
