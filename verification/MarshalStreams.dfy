/** Whole marshal streams: round trip, re-encoding and injectivity. */
module MarshalStreams {
  import opened Bytes
  import opened MarshalDecoding
  import opened MarshalEncoding
  import opened MarshalRoundTrip
  import opened MarshalTypes
  import opened PackedFields
  import opened Options
  import opened StringTable

  // ------------------------------------------------------------------
  // The round trip of streams
  // ------------------------------------------------------------------

  lemma PrefixReads(table: Table, stream: seq<byte>)
    requires At(stream, 0, Prefix()) && |stream| <= MAX_STREAM_BYTES
    ensures var bare := Input(stream, |stream|, table);
      && InStream(bare, Cursor(0, [], 0)) && ReadByte(bare, Cursor(0, [], 0)) == Got(MARSHAL_HEADER_BYTE, Cursor(1, [], 0))
      && InStream(bare, Cursor(1, [], 0)) && ReadWord(bare, Cursor(1, [], 0), 4) == Got(0, Cursor(5, [], 0))
  {
    var bare, c := Input(stream, |stream|, table), Cursor(0, [], 0);
    PlacedSplits(bare, c, [MARSHAL_HEADER_BYTE], LittleEndian(0, 4));
    ReadsByte(bare, c, MARSHAL_HEADER_BYTE);
    ReadsWord(bare, Cursor(1, [], 0), 0, 4);
  }

  // A stream that begins with the prefix is decoded as a value from byte 5 on.
  lemma StreamBegins(table: Table, stream: seq<byte>, requireExactEnd: bool)
    requires At(stream, 0, Prefix()) && |stream| <= MAX_STREAM_BYTES
    ensures InStream(Input(stream, |stream|, table), Cursor(5, [], 0))
    ensures DecodeStream(table, stream, requireExactEnd) ==
      var result := DecodeValue(Input(stream, |stream|, table), Cursor(5, [], 0), 0);
      if result.Got? && requireExactEnd && result.cursor.offset != |stream| then Failed(BadFormat, result.cursor.calls) else result
  {
    hide DecodeValue, At, Prefix;
    PrefixReads(table, stream);
    ModuloKeeps(|stream|, 0x1_0000_0000_0000_0000);
    var none: seq<Option<Value>> := seq(0, _ => None);
    assert none == [];
  }

  /** A value placed after the prefix is read back, whatever follows it. */
  lemma StreamReads(table: Table, v: Value, suffix: seq<byte>)
    requires Encoded(table, v).Ok? && |Encoded(table, v).value + suffix| <= MAX_STREAM_BYTES
    ensures var r := DecodeStream(table, Encoded(table, v).value + suffix, false);
      r.Got? && r.value == Canon(v) && r.cursor.offset == |Encoded(table, v).value|
  {
    hide DecodeValue, EncodedValue, Canon, DecodeStream, Prefix;
    var stream := Encoded(table, v).value + suffix;
    var input, c := Input(stream, |stream|, table), Cursor(5, [], 0);
    var body := EncodedValue(table, v, 0);
    ThenIsSum(Ok(Prefix()), body);
    assert stream == Prefix() + (body.value + suffix);
    AtSelf(stream);
    AtSplits(stream, 0, Prefix(), body.value + suffix);
    PrefixLength();
    AtSplits(stream, 5, body.value, suffix);
    StreamBegins(table, stream, false);
    ValueReads(input, c, v, 0);
  }

  lemma PrefixLength()
    ensures |Prefix()| == 5
  {
  }

  /** Decoding an encoding gives the value back, up to negative zero and the width of packed columns, exactly
      when the encoding is within the size of a stream, which the encoder does not check itself. */
  lemma RoundTrip(table: Table, v: Value)
    requires Encoded(table, v).Ok?
    ensures var r := DecodeStream(table, Encoded(table, v).value, true);
      && (r.Got? <==> |Encoded(table, v).value| <= MAX_STREAM_BYTES)
      && (r.Got? ==> r.value == Canon(v) && r.cursor.offset == |Encoded(table, v).value|)
      && (r.Failed? ==> r.error == LimitExceeded)
  {
    hide DecodeValue, EncodedValue, Canon, Prefix;
    var bytes := Encoded(table, v).value;
    if |bytes| <= MAX_STREAM_BYTES {
      assert bytes + [] == bytes;
      StreamReads(table, v, []);
      ThenIsSum(Ok(Prefix()), EncodedValue(table, v, 0));
      AtSelf(bytes);
      AtSplits(bytes, 0, Prefix(), EncodedValue(table, v, 0).value);
      StreamBegins(table, bytes, false);
      StreamBegins(table, bytes, true);
    }
  }

  /** The very same value comes back exactly when it holds no negative zero and every integer of a packed
      row is in the range of its column. */
  lemma ExactRoundTrip(table: Table, v: Value)
    requires Encoded(table, v).Ok? && |Encoded(table, v).value| <= MAX_STREAM_BYTES
    ensures DecodeStream(table, Encoded(table, v).value, true).Got?
    ensures DecodeStream(table, Encoded(table, v).value, true).value == v <==> Plain(v)
  {
    hide DecodeStream, Encoded, Canon, Plain;
    RoundTrip(table, v);
    CanonKeeps(v);
  }

  // ------------------------------------------------------------------
  // Encoding what came back
  // ------------------------------------------------------------------

  lemma WrapTwice(dbType: byte, value: Value)
    ensures FieldBytes(dbType, WrappedField(dbType, value)) == FieldBytes(dbType, value)
  {
    var n := TypeBytes(dbType);
    if n > 0 && value.IntValue? {
      PowersOf256();
      var m, u := Power256(n), ToUnsigned(value.i, n);
      var i := IntegerFrom(dbType, u);
      if i == u { DivisionIsUnique(i, m, 0, u); } else { DivisionIsUnique(i, m, -1, u); }
    }
  }

  lemma CanonValueAt(columns: seq<Column>, values: seq<Value>, i: nat)
    requires |values| == |columns| && i < |columns|
    ensures ValueAt(CanonFields(columns, values, 0), i) ==
      if BitsAt(columns, i) == 0 then Canon(ValueAt(values, i)) else WrappedField(TypeAt(columns, i), ValueAt(values, i))
  {
    CanonFieldAt(columns, values, 0, i);
  }

  lemma {:induction false} PackedBytesAgain(columns: seq<Column>, values: seq<Value>, order: seq<nat>)
    requires |values| == |columns| && AllBelow(order, |columns|)
    ensures PackedBytes(columns, CanonFields(columns, values, 0), order) == PackedBytes(columns, values, order)
  {
    hide CanonFields, FieldBytes, WrappedField, Canon;
    if order != [] {
      var i := order[0];
      CanonValueAt(columns, values, i);
      WrapTwice(TypeAt(columns, i), ValueAt(values, i));
      NoWidth(TypeAt(columns, i), ValueAt(values, i), Canon(ValueAt(values, i)));
      PackedBytesAgain(columns, values, order[1..]);
    }
  }

  lemma NoWidth(dbType: byte, a: Value, b: Value)
    ensures TypeBits(dbType) == 0 ==> FieldBytes(dbType, a) == FieldBytes(dbType, b)
  {
  }

  lemma {:induction false} BoolsAreBool(columns: seq<Column>, order: seq<nat>)
    requires AllBelow(order, |columns|)
    ensures forall b :: 0 <= b < |Bools(columns, order)| ==> IsBoolColumn(columns, Bools(columns, order)[b])
  {
    if order != [] {
      BoolsAreBool(columns, order[1..]);
    }
  }

  predicate IsBoolColumn(columns: seq<Column>, i: nat) {
    i < |columns| && TypeAt(columns, i) == DB_BOOL
  }

  lemma PackedRowAgain(columns: seq<Column>, values: seq<Value>)
    requires |values| == |columns|
    ensures PackedRow(columns, CanonFields(columns, values, 0)) == PackedRow(columns, values)
  {
    hide CanonFields, Canon, PackedBytes, InSizeOrder, ToBytes;
    var again, order := CanonFields(columns, values, 0), SizeOrder(columns);
    var bools := Bools(columns, order);
    SizeOrderIsSorted(columns);
    PackedBytesAgain(columns, values, order);
    BoolsAreBool(columns, order);
    forall i: nat | i < |columns|
      ensures Packable(TypeAt(columns, i), ValueAt(again, i)) == Packable(TypeAt(columns, i), ValueAt(values, i))
      ensures IsNull(columns, again, i) == IsNull(columns, values, i)
      ensures IsBoolColumn(columns, i) ==> ValueAt(again, i) == ValueAt(values, i)
    {
      CanonValueAt(columns, values, i);
    }
    SameRegion(columns, again, values, bools);
    assert AllPackable(columns, again) == AllPackable(columns, values);
  }

  lemma SameRegion(columns: seq<Column>, a: seq<Value>, b: seq<Value>, bools: seq<nat>)
    requires forall i: nat :: i < |columns| ==> IsNull(columns, a, i) == IsNull(columns, b, i)
    requires forall i: nat :: IsBoolColumn(columns, i) ==> ValueAt(a, i) == ValueAt(b, i)
    requires forall k :: 0 <= k < |bools| ==> IsBoolColumn(columns, bools[k])
    ensures BitRegion(columns, a, bools) == BitRegion(columns, b, bools)
  {
    forall p: nat | p < 8 * BitBytes(|bools|, |columns|)
      ensures BitOf(columns, a, bools, p) == BitOf(columns, b, bools, p)
    {
      if p < |bools| {
        assert IsBoolColumn(columns, bools[p]);
      } else {
        assert p - |bools| < |columns| ==> IsNull(columns, a, p - |bools|) == IsNull(columns, b, p - |bools|);
      }
    }
  }

  lemma {:induction false} SelectAgain(columns: seq<Column>, values: seq<Value>, indexes: seq<nat>)
    requires |values| == |columns| && AllBelow(indexes, |columns|)
    requires forall k :: 0 <= k < |indexes| ==> BitsAt(columns, indexes[k]) == 0
    ensures Select(CanonFields(columns, values, 0), indexes) == CanonAll(Select(values, indexes))
  {
    hide CanonFields, Canon;
    if indexes != [] {
      CanonValueAt(columns, values, indexes[0]);
      SelectAgain(columns, values, indexes[1..]);
      assert Select(values, indexes)[1..] == Select(values, indexes[1..]);
    }
  }

  lemma {:induction false} TrailingHaveNoWidth(columns: seq<Column>, order: seq<nat>)
    ensures forall k :: 0 <= k < |Trailing(columns, order)| ==> BitsAt(columns, Trailing(columns, order)[k]) == 0
  {
    if order != [] {
      TrailingHaveNoWidth(columns, order[1..]);
    }
  }

  lemma {:induction false} ValueAgain(table: Table, v: Value, depth: nat)
    requires depth <= MAX_MARSHAL_DEPTH + 1
    ensures EncodedValue(table, Canon(v), depth) == EncodedValue(table, v, depth)
    decreases MAX_MARSHAL_DEPTH + 1 - depth, 1, 0
  {
    hide EncodedAll, EncodedDict, EncodedPairs, EncodedRow, EncodedInteger, EncodedString, EncodedWString, Sized, CanonAll, CanonEntries,
      CanonFields, Then, Code;
    if depth <= MAX_MARSHAL_DEPTH {
      match v {
        case TupleValue(items) => AllAgain(table, items, depth + 1);
        case ListValue(items) => AllAgain(table, items, depth + 1);
        case DictValue(entries) => DictAgain(table, entries, depth + 1);
        case ObjectValue(_, args) => ValueAgain(table, args, depth + 1);
        case ObjectExValue(isType2, header, list, dict) =>
          ValueAgain(table, header, depth + 1);
          AllAgain(table, list, depth + 1);
          PairsAgain(table, dict, depth + 1);
          assert EncodedObjectEx(table, Canon(header), CanonAll(list), CanonEntries(dict), depth) ==
            EncodedObjectEx(table, header, list, dict, depth);
        case SubStructValue(inner) => ValueAgain(table, inner, depth + 1);
        case ChecksumedValue(_, inner) => ValueAgain(table, inner, depth + 1);
        case PackedRowValue(columns, values) => RowAgain(table, columns, values, depth);
        case _ =>
      }
    }
  }

  lemma {:induction false} AllAgain(table: Table, items: seq<Value>, depth: nat)
    requires depth <= MAX_MARSHAL_DEPTH + 1
    ensures EncodedAll(table, CanonAll(items), depth) == EncodedAll(table, items, depth)
    decreases MAX_MARSHAL_DEPTH + 1 - depth, 2, |items|
  {
    hide EncodedValue, Canon, Then;
    if items != [] {
      ValueAgain(table, items[0], depth);
      AllAgain(table, items[1..], depth);
      assert CanonAll(items)[1..] == CanonAll(items[1..]);
    }
  }

  lemma {:induction false} DictAgain(table: Table, entries: seq<Entry>, depth: nat)
    requires depth <= MAX_MARSHAL_DEPTH + 1
    ensures EncodedDict(table, CanonEntries(entries), depth) == EncodedDict(table, entries, depth)
    decreases MAX_MARSHAL_DEPTH + 1 - depth, 2, |entries|
  {
    hide EncodedValue, Canon, Then;
    if entries != [] {
      ValueAgain(table, entries[0].value, depth);
      ValueAgain(table, entries[0].key, depth);
      DictAgain(table, entries[1..], depth);
      assert CanonEntries(entries)[1..] == CanonEntries(entries[1..]);
    }
  }

  lemma {:induction false} PairsAgain(table: Table, entries: seq<Entry>, depth: nat)
    requires depth <= MAX_MARSHAL_DEPTH + 1
    ensures EncodedPairs(table, CanonEntries(entries), depth) == EncodedPairs(table, entries, depth)
    decreases MAX_MARSHAL_DEPTH + 1 - depth, 2, |entries|
  {
    hide EncodedValue, Canon, Then;
    if entries != [] {
      ValueAgain(table, entries[0].key, depth);
      ValueAgain(table, entries[0].value, depth);
      PairsAgain(table, entries[1..], depth);
      assert CanonEntries(entries)[1..] == CanonEntries(entries[1..]);
    }
  }

  lemma {:induction false} RowAgain(table: Table, columns: seq<Column>, values: seq<Value>, depth: nat)
    requires depth <= MAX_MARSHAL_DEPTH
    ensures EncodedRow(table, columns, CanonFields(columns, values, 0), depth) == EncodedRow(table, columns, values, depth)
    decreases MAX_MARSHAL_DEPTH + 1 - depth, 0, 0
  {
    hide EncodedValue, EncodedAll, CanonFields, Canon, Then, PackedRow, RowHeader, InSizeOrder;
    if |values| == |columns| {
      var order := SizeOrder(columns);
      SizeOrderIsSorted(columns);
      TrailingBelow(columns, order, |columns|);
      TrailingHaveNoWidth(columns, order);
      PackedRowAgain(columns, values);
      SelectAgain(columns, values, Trailing(columns, order));
      AllAgain(table, Select(values, Trailing(columns, order)), depth + 1);
    }
  }

  /** Encoding what was decoded gives the same bytes again. */
  lemma SameBytesAgain(table: Table, v: Value)
    ensures Encoded(table, Canon(v)) == Encoded(table, v)
  {
    ValueAgain(table, v, 0);
  }

  /** Two values share an encoding exactly when they come back as the same value. */
  lemma SameEncoding(table: Table, a: Value, b: Value)
    requires Encoded(table, a).Ok? && |Encoded(table, a).value| <= MAX_STREAM_BYTES
    requires Encoded(table, b).Ok? && |Encoded(table, b).value| <= MAX_STREAM_BYTES
    ensures Encoded(table, a) == Encoded(table, b) <==> Canon(a) == Canon(b)
  {
    hide Encoded, DecodeStream, Canon;
    RoundTrip(table, a);
    RoundTrip(table, b);
    SameBytesAgain(table, a);
    SameBytesAgain(table, b);
  }

  /** No encoding is the beginning of another: where two streams agree, so do their first values. */
  lemma SelfDelimiting(table: Table, a: Value, b: Value, suffix: seq<byte>)
    requires Encoded(table, a).Ok? && Encoded(table, b).Ok?
    requires Encoded(table, a).value + suffix == Encoded(table, b).value && |Encoded(table, b).value| <= MAX_STREAM_BYTES
    ensures suffix == [] && Canon(a) == Canon(b)
  {
    hide Encoded, DecodeStream, Canon;
    StreamReads(table, a, suffix);
    assert Encoded(table, b).value + [] == Encoded(table, b).value;
    StreamReads(table, b, []);
  }
}
