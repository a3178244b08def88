/** The fixed-width part of a packed database row: fields ordered by width, then the bits of the bool
    columns and one null bit for every column. */
module PackedFields {
  import opened Bytes
  import opened MarshalTypes

  // ------------------------------------------------------------------
  // The order of the fields
  // ------------------------------------------------------------------

  function TypeAt(columns: seq<Column>, i: nat): byte {
    if i < |columns| then columns[i].dbType else 0
  }

  function BitsAt(columns: seq<Column>, i: nat): nat {
    TypeBits(TypeAt(columns, i))
  }

  // Wider columns first, and columns of equal width in their own order.
  predicate Precedes(columns: seq<Column>, i: nat, j: nat) {
    BitsAt(columns, i) > BitsAt(columns, j) || (BitsAt(columns, i) == BitsAt(columns, j) && i < j)
  }

  predicate InSizeOrder(columns: seq<Column>, order: seq<nat>) {
    forall a, b :: 0 <= a < b < |order| ==> Precedes(columns, order[a], order[b])
  }

  predicate AllBelow(order: seq<nat>, n: nat) {
    forall k :: 0 <= k < |order| ==> order[k] < n
  }

  function Inserted(columns: seq<Column>, order: seq<nat>, i: nat): (r: seq<nat>)
    ensures |r| == |order| + 1
  {
    if order == [] || BitsAt(columns, i) > BitsAt(columns, order[0]) then [i] + order
    else [order[0]] + Inserted(columns, order[1..], i)
  }

  function OrderOf(columns: seq<Column>, n: nat): (order: seq<nat>)
    ensures |order| == n
  {
    if n == 0 then [] else Inserted(columns, OrderOf(columns, n - 1), n - 1)
  }

  // The column indexes as the stable sort by width leaves them.
  function SizeOrder(columns: seq<Column>): (order: seq<nat>)
    ensures |order| == |columns|
  {
    OrderOf(columns, |columns|)
  }

  // Sorting by width, stably, as both programs do.
  method SortColumns(columns: seq<Column>) returns (order: seq<nat>)
    ensures order == SizeOrder(columns)
  {
    order := [];
    for i := 0 to |columns|
      invariant order == OrderOf(columns, i)
    {
      order := InsertColumn(columns, order, i);
    }
  }

  method InsertColumn(columns: seq<Column>, order: seq<nat>, i: nat) returns (inserted: seq<nat>)
    ensures inserted == Inserted(columns, order, i)
  {
    var k := 0;
    while k < |order| && BitsAt(columns, order[k]) >= BitsAt(columns, i)
      invariant k <= |order| && forall j :: 0 <= j < k ==> BitsAt(columns, order[j]) >= BitsAt(columns, i)
    {
      k := k + 1;
    }
    InsertedAt(columns, order, i, k);
    inserted := order[..k] + [i] + order[k..];
  }

  lemma {:induction false} InsertedAt(columns: seq<Column>, order: seq<nat>, i: nat, k: nat)
    requires k <= |order| && forall j :: 0 <= j < k ==> BitsAt(columns, order[j]) >= BitsAt(columns, i)
    requires k < |order| ==> BitsAt(columns, i) > BitsAt(columns, order[k])
    ensures Inserted(columns, order, i) == order[..k] + [i] + order[k..]
    decreases k
  {
    hide BitsAt;
    if k > 0 {
      assert forall j :: 0 <= j < k - 1 ==> order[1..][j] == order[j + 1];
      InsertedAt(columns, order[1..], i, k - 1);
      assert order[..k] == [order[0]] + order[1..][..k - 1] && order[1..][k - 1..] == order[k..];
    }
  }

  lemma {:induction false} InsertedElements(columns: seq<Column>, order: seq<nat>, i: nat)
    ensures forall x: nat :: x in Inserted(columns, order, i) <==> x == i || x in order
  {
    if order != [] && !(BitsAt(columns, i) > BitsAt(columns, order[0])) {
      InsertedElements(columns, order[1..], i);
      assert order == [order[0]] + order[1..];
    }
  }

  lemma PrependKeepsOrder(columns: seq<Column>, first: nat, rest: seq<nat>)
    requires InSizeOrder(columns, rest) && forall x: nat :: x in rest ==> Precedes(columns, first, x)
    ensures InSizeOrder(columns, [first] + rest)
  {
  }

  lemma {:induction false} InsertedInOrder(columns: seq<Column>, order: seq<nat>, i: nat)
    requires InSizeOrder(columns, order) && AllBelow(order, i)
    ensures InSizeOrder(columns, Inserted(columns, order, i))
  {
    if order == [] || BitsAt(columns, i) > BitsAt(columns, order[0]) {
      forall x: nat | x in order
        ensures Precedes(columns, i, x)
      {
        assert x == order[0] || Precedes(columns, order[0], x);
      }
      PrependKeepsOrder(columns, i, order);
    } else {
      InsertedInOrder(columns, order[1..], i);
      InsertedElements(columns, order[1..], i);
      forall x: nat | x in Inserted(columns, order[1..], i)
        ensures Precedes(columns, order[0], x)
      {
        assert order[0] < i;
        assert x == i || x in order[1..];
      }
      PrependKeepsOrder(columns, order[0], Inserted(columns, order[1..], i));
    }
  }

  lemma {:induction false} OrderOfIsSorted(columns: seq<Column>, n: nat)
    ensures InSizeOrder(columns, OrderOf(columns, n)) && AllBelow(OrderOf(columns, n), n)
    ensures forall x: nat :: x < n ==> x in OrderOf(columns, n)
  {
    if n > 0 {
      hide InSizeOrder, AllBelow, Inserted;
      OrderOfIsSorted(columns, n - 1);
      InsertedElements(columns, OrderOf(columns, n - 1), n - 1);
      InsertedInOrder(columns, OrderOf(columns, n - 1), n - 1);
      BelowElements(OrderOf(columns, n - 1), n - 1);
      ElementsBelow(OrderOf(columns, n), n);
    }
  }

  lemma BelowElements(order: seq<nat>, n: nat)
    requires AllBelow(order, n)
    ensures forall x: nat :: x in order ==> x < n
  {
  }

  lemma ElementsBelow(order: seq<nat>, n: nat)
    requires forall x: nat :: x in order ==> x < n
    ensures AllBelow(order, n)
  {
    assert forall k :: 0 <= k < |order| ==> order[k] in order;
  }

  /** The order holds every column once, widest first and otherwise in column order. */
  lemma SizeOrderIsSorted(columns: seq<Column>)
    ensures InSizeOrder(columns, SizeOrder(columns)) && AllBelow(SizeOrder(columns), |columns|)
    ensures forall x: nat :: x < |columns| ==> x in SizeOrder(columns)
  {
    OrderOfIsSorted(columns, |columns|);
  }

  lemma SameFirst(columns: seq<Column>, a: seq<nat>, b: seq<nat>)
    requires InSizeOrder(columns, a) && InSizeOrder(columns, b) && a != [] && b != []
    requires forall x: nat :: x in a <==> x in b
    ensures a[0] == b[0]
  {
    assert a[0] in b && b[0] in a;
    var i :| 0 <= i < |a| && a[i] == b[0];
    var j :| 0 <= j < |b| && b[j] == a[0];
    assert i > 0 ==> Precedes(columns, a[0], b[0]);
    assert j > 0 ==> Precedes(columns, b[0], a[0]);
  }

  lemma RestWithoutFirst(columns: seq<Column>, a: seq<nat>)
    requires InSizeOrder(columns, a) && a != []
    ensures InSizeOrder(columns, a[1..]) && forall x: nat :: x in a[1..] <==> x in a && x != a[0]
  {
    assert a == [a[0]] + a[1..];
    forall x: nat | x in a[1..]
      ensures x != a[0]
    {
      var k :| 0 <= k < |a| - 1 && a[1..][k] == x;
      assert Precedes(columns, a[0], a[k + 1]);
    }
  }

  lemma HasElement(s: seq<nat>)
    ensures s == [] || exists x: nat :: x in s
  {
    if s != [] {
      assert s[0] in s;
    }
  }

  lemma {:induction false} OrderIsUnique(columns: seq<Column>, a: seq<nat>, b: seq<nat>)
    requires InSizeOrder(columns, a) && InSizeOrder(columns, b)
    requires forall x: nat :: x in a <==> x in b
    ensures a == b
    decreases |a|
  {
    HasElement(a);
    HasElement(b);
    if a != [] && b != [] {
      SameFirst(columns, a, b);
      RestWithoutFirst(columns, a);
      RestWithoutFirst(columns, b);
      OrderIsUnique(columns, a[1..], b[1..]);
      assert a == [a[0]] + a[1..] && b == [b[0]] + b[1..];
    }
  }

  /** Any arrangement of the columns that a stable sort by width may produce is this one. */
  lemma StableSortIsUnique(columns: seq<Column>, order: seq<nat>)
    requires InSizeOrder(columns, order) && forall x: nat :: x in order <==> x < |columns|
    ensures order == SizeOrder(columns)
  {
    SizeOrderIsSorted(columns);
    assert forall x: nat :: x in SizeOrder(columns) ==> x < |columns|;
    OrderIsUnique(columns, order, SizeOrder(columns));
  }

  // ------------------------------------------------------------------
  // Packing
  // ------------------------------------------------------------------

  function ValueAt(values: seq<Value>, i: nat): Value {
    if i < |values| then values[i] else NoneValue
  }

  // The fields a packed row can hold; a real number other than null is refused as not an integer.
  predicate Packable(dbType: byte, value: Value) {
    || TypeBits(dbType) == 0
    || value.NoneValue?
    || (if dbType == DB_BOOL then value.BoolValue? else value.IntValue? && !IsReal(dbType))
  }

  predicate AllPackable(columns: seq<Column>, values: seq<Value>) {
    forall i: nat :: i < |columns| ==> Packable(TypeAt(columns, i), ValueAt(values, i))
  }

  function FieldBytes(dbType: byte, value: Value): (bytes: seq<byte>)
    ensures |bytes| == TypeBytes(dbType)
  {
    LittleEndian(ToUnsigned(if value.IntValue? then value.i else 0, TypeBytes(dbType)), TypeBytes(dbType))
  }

  function PackedBytes(columns: seq<Column>, values: seq<Value>, order: seq<nat>): seq<byte> {
    if order == [] then []
    else FieldBytes(TypeAt(columns, order[0]), ValueAt(values, order[0])) + PackedBytes(columns, values, order[1..])
  }

  function Width(columns: seq<Column>, order: seq<nat>): nat {
    if order == [] then 0 else TypeBytes(TypeAt(columns, order[0])) + Width(columns, order[1..])
  }

  // The bool columns, in the order of their bits.
  function Bools(columns: seq<Column>, order: seq<nat>): seq<nat> {
    if order == [] then []
    else if TypeAt(columns, order[0]) == DB_BOOL then [order[0]] + Bools(columns, order[1..])
    else Bools(columns, order[1..])
  }

  function BitBytes(boolCount: nat, columnCount: nat): nat {
    (boolCount + columnCount + 7) / 8
  }

  // Whether a bit of the bit region is set: first the bools, then a null bit for every column.
  predicate BitOf(columns: seq<Column>, values: seq<Value>, bools: seq<nat>, p: nat) {
    if p < |bools| then ValueAt(values, bools[p]) == BoolValue(true)
    else IsNull(columns, values, p - |bools|)
  }

  predicate IsNull(columns: seq<Column>, values: seq<Value>, i: nat) {
    i < |columns| && BitsAt(columns, i) > 0 && ValueAt(values, i).NoneValue?
  }

  function BitRegion(columns: seq<Column>, values: seq<Value>, bools: seq<nat>): (bits: seq<bool>)
    ensures |bits| == 8 * BitBytes(|bools|, |columns|)
  {
    seq(8 * BitBytes(|bools|, |columns|), p requires 0 <= p => BitOf(columns, values, bools, p))
  }

  function ByteOf(bits: seq<bool>, i: nat): byte
    requires 8 * i + 8 <= |bits|
  {
    var eight := bits[8 * i..8 * i + 8];
    assert PowerOf2(8) == 256 by { assert PowerOf2(4) == 16; }
    FromBits(eight)
  }

  function ToBytes(bits: seq<bool>): (bytes: seq<byte>)
    ensures |bytes| == |bits| / 8
  {
    seq(|bits| / 8, i requires 0 <= i < |bits| / 8 => ByteOf(bits, i))
  }

  // The uncompressed row: the fields, then the bit region.
  function PackedRow(columns: seq<Column>, values: seq<Value>): Result<seq<byte>> {
    var order := SizeOrder(columns);
    if AllPackable(columns, values) then
      Ok(PackedBytes(columns, values, order) + ToBytes(BitRegion(columns, values, Bools(columns, order))))
    else Err(BadFormat)
  }

  // ------------------------------------------------------------------
  // Unpacking
  // ------------------------------------------------------------------

  // The bit of the region that starts at byte `start`.
  predicate BitAt(data: seq<byte>, start: nat, bit: nat)
    requires start + bit / 8 < |data|
  {
    TestBit(data[start + bit / 8], bit % 8)
  }

  // The double with the value of a 32-bit float.
  function WidenedFloat(bits: Word32): Word64 {
    var sign, exponent, fraction := bits / 0x8000_0000, bits / 0x80_0000 % 0x100, bits % 0x80_0000;
    sign * 0x8000_0000_0000_0000 +
    if exponent == 0xFF then 0x7FF0_0000_0000_0000 + fraction * 0x2000_0000
    else if exponent > 0 then (exponent + 896) * 0x10_0000_0000_0000 + fraction * 0x2000_0000
    else if fraction == 0 then 0
    else Normalized(897, fraction * 0x2000_0000)
  }

  // A subnormal fraction, shifted until its leading bit is the implicit one.
  function Normalized(exponent: nat, fraction: nat): (bits: nat)
    requires 0 < fraction < 0x10_0000_0000_0000 && exponent <= 897
    ensures bits < 0x4000_0000_0000_0000
    decreases exponent
  {
    if exponent == 0 then 0
    else if 2 * fraction < 0x10_0000_0000_0000 then Normalized(exponent - 1, 2 * fraction)
    else (exponent - 1) * 0x10_0000_0000_0000 + (2 * fraction - 0x10_0000_0000_0000)
  }

  function IntegerFrom(dbType: byte, u: nat): Int64
    requires TypeBytes(dbType) > 0 && u < Power256(TypeBytes(dbType))
  {
    PowersOf256();
    if IsUnsigned(dbType) then u else ToSigned(u, TypeBytes(dbType))
  }

  function Scalar(dbType: byte, u: nat): Value
    requires TypeBytes(dbType) > 0 && u < Power256(TypeBytes(dbType))
  {
    PowersOf256();
    if dbType == DB_R4 then RealValue(WidenedFloat(u))
    else if dbType == DB_R8 then RealValue(u)
    else IntValue(IntegerFrom(dbType, u))
  }

  function ScalarAt(dbType: byte, data: seq<byte>, offset: nat): Value
    requires TypeBytes(dbType) > 0 && offset + TypeBytes(dbType) <= |data|
  {
    Scalar(dbType, FromLittleEndian(data[offset..offset + TypeBytes(dbType)]))
  }

  // The fields of the columns in `order` and the bit region lie within the data.
  predicate Unpackable(columns: seq<Column>, order: seq<nat>, data: seq<byte>, start: nat, boolCount: nat, offset: nat, boolOffset: nat) {
    && AllBelow(order, |columns|)
    && start + BitBytes(boolCount, |columns|) <= |data| && offset + Width(columns, order) <= |data|
    && boolOffset + |Bools(columns, order)| <= boolCount
  }

  // The fields of the columns in `order`, read one after the other into `values`.
  function Unpacked(columns: seq<Column>, order: seq<nat>, data: seq<byte>, start: nat, boolCount: nat,
                    offset: nat, boolOffset: nat, values: seq<Value>): (r: seq<Value>)
    requires |values| == |columns| && Unpackable(columns, order, data, start, boolCount, offset, boolOffset)
    ensures |r| == |columns|
    decreases |order|
  {
    if order == [] then values
    else
      var i, rest := order[0], order[1..];
      var dbType := TypeAt(columns, i);
      if TypeBits(dbType) == 0 then Unpacked(columns, rest, data, start, boolCount, offset, boolOffset, values)
      else
        var isNull := BitAt(data, start, i + boolCount);
        if dbType == DB_BOOL then
          var field := if isNull then NoneValue else BoolValue(BitAt(data, start, boolOffset));
          Unpacked(columns, rest, data, start, boolCount, offset, boolOffset + 1, values[i := field])
        else
          var field := if isNull then NoneValue else ScalarAt(dbType, data, offset);
          Unpacked(columns, rest, data, start, boolCount, offset + TypeBytes(dbType), boolOffset, values[i := field])
  }

  // ------------------------------------------------------------------
  // The lengths the decompression computes from the columns
  // ------------------------------------------------------------------

  function FixedBits(columns: seq<Column>, n: nat): nat {
    if n == 0 then 0
    else FixedBits(columns, n - 1) + if TypeAt(columns, n - 1) == DB_BOOL then 0 else BitsAt(columns, n - 1)
  }

  function BoolCount(columns: seq<Column>, n: nat): nat {
    if n == 0 then 0
    else BoolCount(columns, n - 1) + if TypeAt(columns, n - 1) == DB_BOOL then 1 else 0
  }

  function ExpectedBytes(columns: seq<Column>): nat {
    FixedBits(columns, |columns|) / 8 + BitBytes(BoolCount(columns, |columns|), |columns|)
  }

  lemma {:induction false} InsertedWidth(columns: seq<Column>, order: seq<nat>, i: nat)
    ensures Width(columns, Inserted(columns, order, i)) == Width(columns, order) + TypeBytes(TypeAt(columns, i))
    ensures |Bools(columns, Inserted(columns, order, i))| == |Bools(columns, order)| + if TypeAt(columns, i) == DB_BOOL then 1 else 0
  {
    var r := Inserted(columns, order, i);
    if order == [] || BitsAt(columns, i) > BitsAt(columns, order[0]) {
      assert r[1..] == order;
    } else {
      InsertedWidth(columns, order[1..], i);
      assert r[1..] == Inserted(columns, order[1..], i);
    }
  }

  lemma {:induction false} OrderOfWidth(columns: seq<Column>, n: nat)
    ensures FixedBits(columns, n) == 8 * Width(columns, OrderOf(columns, n))
    ensures BoolCount(columns, n) == |Bools(columns, OrderOf(columns, n))|
  {
    if n > 0 {
      OrderOfWidth(columns, n - 1);
      assert TypeAt(columns, n - 1) == DB_BOOL || BitsAt(columns, n - 1) == 8 * TypeBytes(TypeAt(columns, n - 1));
      InsertedWidth(columns, OrderOf(columns, n - 1), n - 1);
    }
  }

  lemma {:induction false} PackedBytesLength(columns: seq<Column>, values: seq<Value>, order: seq<nat>)
    ensures |PackedBytes(columns, values, order)| == Width(columns, order)
  {
    if order != [] {
      PackedBytesLength(columns, values, order[1..]);
    }
  }

  /** The length computed from the columns alone is the length of every row packed with them. */
  lemma ExpectedIsPacked(columns: seq<Column>, values: seq<Value>)
    requires PackedRow(columns, values).Ok?
    ensures |PackedRow(columns, values).value| == ExpectedBytes(columns)
    ensures BoolCount(columns, |columns|) == |Bools(columns, SizeOrder(columns))|
    ensures FixedBits(columns, |columns|) / 8 == Width(columns, SizeOrder(columns))
  {
    OrderOfWidth(columns, |columns|);
    PackedBytesLength(columns, values, SizeOrder(columns));
  }

  // ------------------------------------------------------------------
  // Unpacking restores the fields
  // ------------------------------------------------------------------

  // A field as it comes back: integers wrapped to the width of their column.
  function WrappedField(dbType: byte, value: Value): Value {
    if TypeBytes(dbType) > 0 && value.IntValue? then IntValue(IntegerFrom(dbType, ToUnsigned(value.i, TypeBytes(dbType))))
    else value
  }

  // The range of an integer column.
  predicate InColumnRange(dbType: byte, i: Int64) {
    var n := TypeBytes(dbType);
    if IsUnsigned(dbType) then 0 <= i < Power256(n) else FitsSigned(i, n)
  }

  lemma ModuloKeeps(i: int, m: nat)
    requires m > 0 && 0 <= i < m
    ensures i % m == i
  {
    DivisionIsUnique(i, m, 0, i);
  }

  /** An integer field comes back unchanged exactly when it is in the range of its column. */
  lemma WrapKeepsInRange(dbType: byte, i: Int64)
    requires TypeBytes(dbType) > 0
    ensures WrappedField(dbType, IntValue(i)) == IntValue(i) <==> InColumnRange(dbType, i)
  {
    var n := TypeBytes(dbType);
    PowersOf256();
    if InColumnRange(dbType, i) {
      if IsUnsigned(dbType) { ModuloKeeps(i, Power256(n)); } else { SignedRoundTrip(i, n); }
    }
  }

  lemma ScalarRestored(dbType: byte, value: Value, data: seq<byte>, offset: nat)
    requires TypeBytes(dbType) > 0 && value.IntValue? && !IsReal(dbType) && At(data, offset, FieldBytes(dbType, value))
    ensures ScalarAt(dbType, data, offset) == WrappedField(dbType, value)
  {
    var n := TypeBytes(dbType);
    var u := ToUnsigned(value.i, n);
    AtSlice(data, offset, FieldBytes(dbType, value));
    DecodeLittleEndian(u, n);
    ModuloKeeps(u, Power256(n));
  }

  lemma BitAtRegion(data: seq<byte>, start: nat, bits: seq<bool>, p: nat)
    requires |bits| % 8 == 0 && p < |bits| && At(data, start, ToBytes(bits))
    ensures start + p / 8 < |data| && BitAt(data, start, p) == bits[p]
  {
    var i := p / 8;
    assert ToBytes(bits)[i] == ByteOf(bits, i);
    TestFromBits(bits[8 * i..8 * i + 8], p % 8);
  }

  // What the bit region must say about the columns, the first of `bools` having its bit at `boolOffset`.
  predicate BitsAgree(columns: seq<Column>, values: seq<Value>, bools: seq<nat>, data: seq<byte>, start: nat,
                      boolCount: nat, boolOffset: nat)
    requires start + BitBytes(boolCount, |columns|) <= |data| && boolOffset + |bools| <= boolCount
  {
    && (forall i: nat :: i < |columns| ==> BitAt(data, start, i + boolCount) == IsNull(columns, values, i))
    && (forall b: nat :: b < |bools| ==> BoolAgrees(values, bools, data, start, boolOffset, b))
  }

  predicate BoolAgrees(values: seq<Value>, bools: seq<nat>, data: seq<byte>, start: nat, boolOffset: nat, b: nat)
    requires b < |bools| && start + (boolOffset + b) / 8 < |data|
  {
    BitAt(data, start, boolOffset + b) == (ValueAt(values, bools[b]) == BoolValue(true))
  }

  // Each column in `order` with a width has its field restored, and nothing else has changed.
  ghost predicate Restored(columns: seq<Column>, values: seq<Value>, order: seq<nat>, before: seq<Value>, after: seq<Value>) {
    && |before| == |after| == |columns|
    && forall i: nat :: i < |columns| ==>
      after[i] == if i in order && BitsAt(columns, i) > 0 then WrappedField(TypeAt(columns, i), ValueAt(values, i)) else before[i]
  }

  lemma RestoredNext(columns: seq<Column>, values: seq<Value>, order: seq<nat>, before: seq<Value>, field: Value, after: seq<Value>)
    requires order != [] && InSizeOrder(columns, order) && order[0] < |columns| == |before|
    requires BitsAt(columns, order[0]) > 0 && field == WrappedField(TypeAt(columns, order[0]), ValueAt(values, order[0]))
    requires Restored(columns, values, order[1..], before[order[0] := field], after)
    ensures Restored(columns, values, order, before, after)
  {
    RestWithoutFirst(columns, order);
  }

  lemma RestoredSkip(columns: seq<Column>, values: seq<Value>, order: seq<nat>, before: seq<Value>, after: seq<Value>)
    requires order != [] && InSizeOrder(columns, order) && BitsAt(columns, order[0]) == 0
    requires Restored(columns, values, order[1..], before, after)
    ensures Restored(columns, values, order, before, after)
  {
    RestWithoutFirst(columns, order);
  }

  lemma BoolsAgreeRest(columns: seq<Column>, values: seq<Value>, bools: seq<nat>, rest: seq<nat>, data: seq<byte>, start: nat,
                       boolCount: nat, boolOffset: nat)
    requires bools != [] && rest == bools[1..]
    requires start + BitBytes(boolCount, |columns|) <= |data| && boolOffset + |bools| <= boolCount
    requires BitsAgree(columns, values, bools, data, start, boolCount, boolOffset)
    ensures BitAt(data, start, boolOffset) == (ValueAt(values, bools[0]) == BoolValue(true))
    ensures BitsAgree(columns, values, rest, data, start, boolCount, boolOffset + 1)
  {
    assert BoolAgrees(values, bools, data, start, boolOffset, 0);
    var next := boolOffset + 1;
    forall b: nat | b < |rest|
      ensures BoolAgrees(values, rest, data, start, next, b)
    {
      assert BoolAgrees(values, bools, data, start, boolOffset, b + 1);
    }
  }

  lemma FieldRestored(columns: seq<Column>, values: seq<Value>, i: nat, data: seq<byte>, start: nat, boolCount: nat, offset: nat)
    requires i < |columns| && BitsAt(columns, i) > 1 && Packable(TypeAt(columns, i), ValueAt(values, i))
    requires start + BitBytes(boolCount, |columns|) <= |data| && offset + TypeBytes(TypeAt(columns, i)) <= |data|
    requires At(data, offset, FieldBytes(TypeAt(columns, i), ValueAt(values, i)))
    requires BitAt(data, start, i + boolCount) == IsNull(columns, values, i)
    ensures WrappedField(TypeAt(columns, i), ValueAt(values, i)) ==
      if BitAt(data, start, i + boolCount) then NoneValue else ScalarAt(TypeAt(columns, i), data, offset)
  {
    hide At, BitAt, FieldBytes, ScalarAt;
    if ValueAt(values, i).IntValue? {
      ScalarRestored(TypeAt(columns, i), ValueAt(values, i), data, offset);
    }
  }

  lemma {:induction false} UnpackRestores(columns: seq<Column>, values: seq<Value>, order: seq<nat>, data: seq<byte>, start: nat,
                                          boolCount: nat, offset: nat, boolOffset: nat, before: seq<Value>)
    requires |before| == |columns| && AllPackable(columns, values) && InSizeOrder(columns, order)
    requires Unpackable(columns, order, data, start, boolCount, offset, boolOffset)
    requires At(data, offset, PackedBytes(columns, values, order))
    requires BitsAgree(columns, values, Bools(columns, order), data, start, boolCount, boolOffset)
    ensures Restored(columns, values, order, before,
      Unpacked(columns, order, data, start, boolCount, offset, boolOffset, before))
    decreases |order|
  {
    hide At, FieldBytes, ScalarAt, IsNull, Restored, WrappedField, BitBytes;
    if order == [] {
      NothingRestored(columns, values, before);
    } else {
      var i, rest := order[0], order[1..];
      var dbType, value := TypeAt(columns, i), ValueAt(values, i);
      var after := Unpacked(columns, order, data, start, boolCount, offset, boolOffset, before);
      RestWithoutFirst(columns, order);
      AtSplits(data, offset, FieldBytes(dbType, value), PackedBytes(columns, values, rest));
      if TypeBits(dbType) == 0 {
        UnpackRestores(columns, values, rest, data, start, boolCount, offset, boolOffset, before);
        RestoredSkip(columns, values, order, before, after);
      } else {
        var field := WrappedField(dbType, value);
        if dbType == DB_BOOL {
          BoolsAgreeRest(columns, values, Bools(columns, order), Bools(columns, rest), data, start, boolCount, boolOffset);
          BoolRestored(columns, values, i, data, start, boolCount, boolOffset);
          UnpackRestores(columns, values, rest, data, start, boolCount, offset, boolOffset + 1, before[i := field]);
        } else {
          FieldRestored(columns, values, i, data, start, boolCount, offset);
          UnpackRestores(columns, values, rest, data, start, boolCount, offset + TypeBytes(dbType), boolOffset, before[i := field]);
        }
        RestoredNext(columns, values, order, before, field, after);
      }
    }
  }

  lemma NothingRestored(columns: seq<Column>, values: seq<Value>, before: seq<Value>)
    requires |before| == |columns|
    ensures Restored(columns, values, [], before, before)
  {
  }

  lemma BoolRestored(columns: seq<Column>, values: seq<Value>, i: nat, data: seq<byte>, start: nat, boolCount: nat, boolOffset: nat)
    requires i < |columns| && TypeAt(columns, i) == DB_BOOL && Packable(DB_BOOL, ValueAt(values, i))
    requires start + BitBytes(boolCount, |columns|) <= |data| && boolOffset < boolCount
    requires BitAt(data, start, i + boolCount) == IsNull(columns, values, i)
    requires BitAt(data, start, boolOffset) == (ValueAt(values, i) == BoolValue(true))
    ensures WrappedField(DB_BOOL, ValueAt(values, i)) ==
      if BitAt(data, start, i + boolCount) then NoneValue else BoolValue(BitAt(data, start, boolOffset))
  {
    hide BitAt;
  }

  /** Packing and unpacking restore every field with a width at its own column. */
  lemma UnpackPacked(columns: seq<Column>, values: seq<Value>, before: seq<Value>)
    requires PackedRow(columns, values).Ok? && |before| == |columns|
    ensures var data, order := PackedRow(columns, values).value, SizeOrder(columns);
      var bools := Bools(columns, order);
      && Width(columns, order) + BitBytes(|bools|, |columns|) == |data|
      && Unpackable(columns, order, data, |data| - BitBytes(|bools|, |columns|), |bools|, 0, 0)
      && Restored(columns, values, order, before,
        Unpacked(columns, order, data, |data| - BitBytes(|bools|, |columns|), |bools|, 0, 0, before))
  {
    hide Restored, Unpacked, BitsAgree, At, InSizeOrder, BitOf, ByteOf, FieldBytes;
    var data, order := PackedRow(columns, values).value, SizeOrder(columns);
    var bools := Bools(columns, order);
    var bits := BitRegion(columns, values, bools);
    var packed := PackedBytes(columns, values, order);
    SizeOrderIsSorted(columns);
    PackedBytesLength(columns, values, order);
    AtSelf(data);
    AtSplits(data, 0, packed, ToBytes(bits));
    RegionAgrees(columns, values, bools, data, |packed|);
    UnpackRestores(columns, values, order, data, |packed|, |bools|, 0, 0, before);
  }

  lemma RegionAgrees(columns: seq<Column>, values: seq<Value>, bools: seq<nat>, data: seq<byte>, start: nat)
    requires At(data, start, ToBytes(BitRegion(columns, values, bools)))
    ensures start + BitBytes(|bools|, |columns|) <= |data|
    ensures BitsAgree(columns, values, bools, data, start, |bools|, 0)
  {
    hide BitAt, ToBytes;
    var bits := BitRegion(columns, values, bools);
    forall i: nat | i < |columns|
      ensures BitAt(data, start, i + |bools|) == IsNull(columns, values, i)
    {
      BitAtRegion(data, start, bits, i + |bools|);
    }
    forall b: nat | b < |bools|
      ensures BoolAgrees(values, bools, data, start, 0, b)
    {
      BitAtRegion(data, start, bits, b);
    }
  }
}
