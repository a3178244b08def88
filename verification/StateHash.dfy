/** The 64-bit hash of the world state. */
module StateHash {
  import opened Bytes
  import opened EcsWorld

  const HASH_OFFSET: Word64 := 14_695_981_039_346_656_037

  function MixHash(hash: Word64, value: Word64): Word64 {
    Xor(hash, value) * 1_099_511_628_211 % 0x1_0000_0000_0000_0000
  }

  // Conversion of a signed 64-bit integer to an unsigned one.
  function AsWord(value: Int64): Word64 {
    if value < 0 then value + 0x1_0000_0000_0000_0000 else value
  }

  function EntityWord(entity: Entity): Word64 {
    entity
  }

  function Mixed(hash: Word64, words: seq<Word64>): Word64 {
    if words == [] then hash else MixHash(Mixed(hash, words[..|words| - 1]), words[|words| - 1])
  }

  // The words hashed for a snapshot.
  function Words(snapshot: Snapshot): seq<Word64> {
    if snapshot == [] then []
    else
      var last := snapshot[|snapshot| - 1];
      Words(snapshot[..|snapshot| - 1]) + [EntityWord(last.entity)] + [AsWord(last.transform)] + [AsWord(last.velocity)]
  }

  method HashOf(world: World) returns (hash: Word64)
    requires world.Valid()
    ensures hash == Mixed(HASH_OFFSET, Words(world.States()))
  {
    var snapshot := world.CopySnapshot();
    hash := HASH_OFFSET;
    for i := 0 to |snapshot|
      invariant hash == Mixed(HASH_OFFSET, Words(snapshot[..i]))
    {
      var state := snapshot[i];
      ghost var words: seq<Word64> := Words(snapshot[..i]);
      hash := MixHash(hash, EntityWord(state.entity));
      MixedOne(HASH_OFFSET, words, EntityWord(state.entity));
      words := words + [EntityWord(state.entity)];
      hash := MixHash(hash, AsWord(state.transform));
      MixedOne(HASH_OFFSET, words, AsWord(state.transform));
      words := words + [AsWord(state.transform)];
      hash := MixHash(hash, AsWord(state.velocity));
      MixedOne(HASH_OFFSET, words, AsWord(state.velocity));
      words := words + [AsWord(state.velocity)];
      NextWords(snapshot, i);
      assert words == Words(snapshot[..i + 1]);
    }
    assert snapshot[..|snapshot|] == snapshot;
  }

  lemma NextWords(snapshot: Snapshot, i: nat)
    requires i < |snapshot|
    ensures Words(snapshot[..i + 1]) == Words(snapshot[..i]) + [EntityWord(snapshot[i].entity)] + [AsWord(snapshot[i].transform)] +
      [AsWord(snapshot[i].velocity)]
  {
    assert snapshot[..i + 1][..i] == snapshot[..i];
  }

  lemma MixedOne(hash: Word64, words: seq<Word64>, w: Word64)
    ensures Mixed(hash, words + [w]) == MixHash(Mixed(hash, words), w)
  {
    assert (words + [w])[..|words|] == words;
  }

  // ------------------------------------------------------------------
  // Each mixing step is a bijection in either argument
  // ------------------------------------------------------------------

  lemma XorByParts(a: nat, b: nat)
    ensures Xor(a, b) == (a % 2 + b % 2) % 2 + 2 * Xor(a / 2, b / 2)
  {
  }

  lemma SameBit(p: nat, q: nat, r: nat)
    requires q < 2 && r < 2 && (p + q) % 2 == (p + r) % 2
    ensures q == r
  {
  }

  lemma {:induction false} XorInjective(a: nat, b: nat, c: nat)
    requires Xor(a, b) == Xor(a, c)
    ensures b == c
    decreases a + b + c
  {
    if a + b + c > 0 {
      hide Xor;
      XorHalves(a, b);
      XorHalves(a, c);
      SameBit(a % 2, b % 2, c % 2);
      XorInjective(a / 2, b / 2, c / 2);
      assert b == 2 * (b / 2) + b % 2 && c == 2 * (c / 2) + c % 2;
    }
  }

  lemma {:induction false} XorCommutes(a: nat, b: nat)
    ensures Xor(a, b) == Xor(b, a)
    decreases a + b
  {
    if a + b > 0 {
      XorCommutes(a / 2, b / 2);
    }
  }

  lemma {:induction false} XorBound(a: nat, b: nat, n: nat)
    requires a < PowerOf2(n) && b < PowerOf2(n)
    ensures Xor(a, b) < PowerOf2(n)
    decreases n
  {
    if n > 0 {
      XorBound(a / 2, b / 2, n - 1);
    }
  }

  lemma PowerOf64()
    ensures PowerOf2(64) == 0x1_0000_0000_0000_0000
  {
    assert PowerOf2(8) == 0x100;
    assert PowerOf2(16) == 0x1_0000 by { assert PowerOf2(12) == 0x1000; }
    assert PowerOf2(24) == 0x100_0000 by { assert PowerOf2(20) == 0x10_0000; }
    assert PowerOf2(32) == 0x1_0000_0000 by { assert PowerOf2(28) == 0x1000_0000; }
    assert PowerOf2(40) == 0x100_0000_0000 by { assert PowerOf2(36) == 0x10_0000_0000; }
    assert PowerOf2(48) == 0x1_0000_0000_0000 by { assert PowerOf2(44) == 0x1000_0000_0000; }
    assert PowerOf2(56) == 0x100_0000_0000_0000 by { assert PowerOf2(52) == 0x10_0000_0000_0000; }
    assert PowerOf2(60) == 0x1000_0000_0000_0000;
  }

  // The prime is odd, so multiplication by it can be undone modulo 2 ^ 64.
  lemma PrimeInjective(x: Word64, y: Word64)
    requires x * 1_099_511_628_211 % 0x1_0000_0000_0000_0000 == y * 1_099_511_628_211 % 0x1_0000_0000_0000_0000
    ensures x == y
  {
    var d := x * 1_099_511_628_211 / 0x1_0000_0000_0000_0000 - y * 1_099_511_628_211 / 0x1_0000_0000_0000_0000;
    assert (x - y) * 1_099_511_628_211 == 0x1_0000_0000_0000_0000 * d;
    assert 1_099_511_628_211 * 14_886_173_955_864_302_971 == 1 + 887_285_111_055 * 0x1_0000_0000_0000_0000;
    var e := d * 14_886_173_955_864_302_971 - 887_285_111_055 * (x - y);
    assert x - y == 0x1_0000_0000_0000_0000 * e;
  }

  lemma MixInjective(h: Word64, h': Word64, v: Word64, v': Word64)
    requires MixHash(h, v) == MixHash(h', v') && (h == h' || v == v')
    ensures h == h' && v == v'
  {
    PowerOf64();
    XorBound(h, v, 64);
    XorBound(h', v', 64);
    PrimeInjective(Xor(h, v), Xor(h', v'));
    if h == h' {
      XorInjective(h, v, v');
    } else {
      XorCommutes(h, v);
      XorCommutes(h', v);
      XorInjective(v, h, h');
    }
  }

  // ------------------------------------------------------------------
  // One changed word changes the hash
  // ------------------------------------------------------------------

  predicate DifferOnlyAt(a: seq<Word64>, b: seq<Word64>, i: nat) {
    && |a| == |b| && i < |a| && a[i] != b[i]
    && forall k :: 0 <= k < |a| && k != i ==> a[k] == b[k]
  }

  lemma {:induction false} OneWordMatters(hash: Word64, a: seq<Word64>, b: seq<Word64>, i: nat)
    requires DifferOnlyAt(a, b, i)
    ensures Mixed(hash, a) != Mixed(hash, b)
    decreases |a|
  {
    var n := |a| - 1;
    if Mixed(hash, a) == Mixed(hash, b) {
      if i == n {
        assert a[..n] == b[..n];
        MixInjective(Mixed(hash, a[..n]), Mixed(hash, b[..n]), a[n], b[n]);
      } else {
        MixInjective(Mixed(hash, a[..n]), Mixed(hash, b[..n]), a[n], b[n]);
        OneWordMatters(hash, a[..n], b[..n], i);
      }
    }
  }

  /** Snapshots whose hashed words differ in one place have different hashes. */
  lemma OneChangeShows(a: Snapshot, b: Snapshot, i: nat)
    requires DifferOnlyAt(Words(a), Words(b), i)
    ensures Mixed(HASH_OFFSET, Words(a)) != Mixed(HASH_OFFSET, Words(b))
  {
    OneWordMatters(HASH_OFFSET, Words(a), Words(b), i);
  }

  lemma {:induction false} XorUndone(a: nat, b: nat)
    ensures Xor(a, Xor(a, b)) == b
    decreases a + b
  {
    if a + b > 0 {
      hide Xor;
      var c := Xor(a, b);
      XorUndone(a / 2, b / 2);
      XorHalves(a, b);
      XorHalves(a, c);
      BitTwice(a % 2, b % 2);
      assert Xor(a, c) == 2 * (Xor(a, c) / 2) + Xor(a, c) % 2 && b == 2 * (b / 2) + b % 2;
    }
  }

  lemma XorHalves(a: nat, b: nat)
    ensures Xor(a, b) % 2 == (a % 2 + b % 2) % 2 && Xor(a, b) / 2 == Xor(a / 2, b / 2)
  {
    hide Xor;
    XorByParts(a, b);
    var bit: nat, rest := (a % 2 + b % 2) % 2, Xor(a / 2, b / 2);
    assert (bit + 2 * rest) % 2 == bit && (bit + 2 * rest) / 2 == rest;
  }

  lemma BitTwice(p: nat, q: nat)
    requires p < 2 && q < 2
    ensures (p + (p + q) % 2) % 2 == q
  {
  }

  function AsSigned(word: Word64): Int64 {
    if word < 0x8000_0000_0000_0000 then word else word - 0x1_0000_0000_0000_0000
  }

  /** One word is as far as it goes: whatever transform the last entity of a snapshot is given, some velocity
      for it leaves the hash as it was. */
  lemma TwoChangesCanHide(a: Snapshot, transform: Int64) returns (velocity: Int64)
    requires a != []
    ensures var n := |a| - 1;
      Mixed(HASH_OFFSET, Words(a[n := a[n].(transform := transform, velocity := velocity)])) == Mixed(HASH_OFFSET, Words(a))
  {
    hide MixHash, AsWord, Xor;
    var n := |a| - 1;
    var before: Word64 := Mixed(HASH_OFFSET, Words(a[..n]) + [EntityWord(a[n].entity)]);
    var was, now: Word64 := MixHash(before, AsWord(a[n].transform)), MixHash(before, AsWord(transform));
    var word := HiddenBy(was, now, AsWord(a[n].velocity));
    velocity := AsSigned(word);
    WordOfSigned(word);
    MixedLast(a);
    MixedLast(a[n := a[n].(transform := transform, velocity := velocity)]);
    assert a[n := a[n].(transform := transform, velocity := velocity)][..n] == a[..n];
  }

  lemma WordOfSigned(word: Word64)
    ensures AsWord(AsSigned(word)) == word
  {
  }

  lemma HiddenBy(was: Word64, now: Word64, w: Word64) returns (w': Word64)
    ensures MixHash(now, w') == MixHash(was, w)
  {
    PowerOf64();
    XorBound(was, w, 64);
    XorBound(now, Xor(was, w), 64);
    XorUndone(now, Xor(was, w));
    w' := Xor(now, Xor(was, w));
  }

  lemma MixedLast(a: Snapshot)
    requires a != []
    ensures var n := |a| - 1;
      Mixed(HASH_OFFSET, Words(a)) ==
        MixHash(MixHash(Mixed(HASH_OFFSET, Words(a[..n]) + [EntityWord(a[n].entity)]), AsWord(a[n].transform)), AsWord(a[n].velocity))
  {
    hide MixHash, AsWord, Mixed;
    var n := |a| - 1;
    var words: seq<Word64> := Words(a[..n]) + [EntityWord(a[n].entity)];
    MixedOne(HASH_OFFSET, words, AsWord(a[n].transform));
    MixedOne(HASH_OFFSET, words + [AsWord(a[n].transform)], AsWord(a[n].velocity));
  }

  /** No information is lost before hashing: equal words come from equal snapshots. */
  lemma {:induction false} WordsTellAll(a: Snapshot, b: Snapshot)
    requires Words(a) == Words(b)
    ensures a == b
    decreases |a|
  {
    WordsLength(a);
    WordsLength(b);
    if a != [] {
      var n := |a| - 1;
      WordsLength(a[..n]);
      WordsLength(b[..n]);
      assert Words(a)[..3 * n] == Words(a[..n]) && Words(b)[..3 * n] == Words(b[..n]);
      assert Words(a)[3 * n..] == [EntityWord(a[n].entity), AsWord(a[n].transform), AsWord(a[n].velocity)];
      assert Words(b)[3 * n..] == [EntityWord(b[n].entity), AsWord(b[n].transform), AsWord(b[n].velocity)];
      WordsTellAll(a[..n], b[..n]);
      assert a == a[..n] + [a[n]] && b == b[..n] + [b[n]];
    }
  }

  lemma {:induction false} WordsLength(a: Snapshot)
    ensures |Words(a)| == 3 * |a|
    decreases |a|
  {
    if a != [] {
      WordsLength(a[..|a| - 1]);
    }
  }

  // ------------------------------------------------------------------
  // What is hashed, in order
  // ------------------------------------------------------------------

  lemma {:induction false} XorBit(a: nat, b: nat, k: nat)
    ensures TestBit(Xor(a, b), k) <==> TestBit(a, k) != TestBit(b, k)
  {
    hide Xor;
    XorHalves(a, b);
    if k > 0 {
      XorBit(a / 2, b / 2, k - 1);
    }
  }

  // One word of the 64-bit FNV-1a hash, taken as a whole: exclusive or, then a product with the prime.
  function Fnv(hash: Word64, word: nat): Word64
  {
    Xor(hash, word) * 0x100_0000_01B3 % 0x1_0000_0000_0000_0000
  }

  function TwosComplement(value: Int64): nat {
    value % 0x1_0000_0000_0000_0000
  }

  /** The hash begins with the offset of FNV-1a and takes in, entity by entity, the identifier, the transform and the
      velocity, the last two in two's complement. */
  lemma HashSpelled(a: Snapshot, state: EntityState)
    ensures Mixed(HASH_OFFSET, Words([])) == 0xCBF2_9CE4_8422_2325
    ensures Mixed(HASH_OFFSET, Words(a + [state])) ==
      Fnv(Fnv(Fnv(Mixed(HASH_OFFSET, Words(a)), state.entity), TwosComplement(state.transform)), TwosComplement(state.velocity))
  {
    var all, words := a + [state], Words(a);
    assert all[..|a|] == a;
    MixedLast(all);
    MixedOne(HASH_OFFSET, words, EntityWord(state.entity));
    WordIs(state.transform);
    WordIs(state.velocity);
    hide Mixed, Words, AsWord, TwosComplement, Xor;
  }

  lemma WordIs(value: Int64)
    ensures AsWord(value) == TwosComplement(value)
  {
  }
}
