/** Which values can be encoded, and which of the forms that would read back as a value the encoder chooses. */
module EncodedForms {
  import opened Bytes
  import opened MarshalEncoding
  import opened MarshalRoundTrip
  import opened MarshalTypes
  import opened PackedFields
  import opened StringTable
  import opened WireForms

  // ------------------------------------------------------------------
  // What fits
  // ------------------------------------------------------------------

  // What a column can hold: without a width anything, else null, a bool or an integer, but no real number.
  predicate FieldFits(dbType: byte, value: Value) {
    || dbType !in {0x02, 0x03, 0x04, 0x05, 0x06, 0x0B, 0x10, 0x11, 0x12, 0x13, 0x14, 0x15, 0x40}
    || value.NoneValue?
    || (dbType == 0x0B && value.BoolValue?)
    || (dbType !in {0x04, 0x05, 0x0B} && value.IntValue?)
  }

  // A value that fits in `room` levels of nesting. A packed row takes the levels of its header.
  predicate Fits(v: Value, room: nat)
    decreases v
  {
    && room > 0
    && match v
       case TupleValue(items) => |items| <= 65_536 && forall i :: 0 <= i < |items| ==> Fits(items[i], room - 1)
       case ListValue(items) => |items| <= 65_536 && forall i :: 0 <= i < |items| ==> Fits(items[i], room - 1)
       case DictValue(entries) =>
         && |entries| <= 65_536
         && forall i :: 0 <= i < |entries| ==> Fits(entries[i].value, room - 1) && Fits(entries[i].key, room - 1)
       case ObjectValue(_, args) => Fits(args, room - 1)
       case ObjectExValue(_, header, list, dict) =>
         && Fits(header, room - 1)
         && (forall i :: 0 <= i < |list| ==> Fits(list[i], room - 1))
         && (forall i :: 0 <= i < |dict| ==> Fits(dict[i].key, room - 1) && Fits(dict[i].value, room - 1))
       case SubStructValue(inner) => Fits(inner, room - 1)
       case ChecksumedValue(_, inner) => Fits(inner, room - 1)
       case PackedRowValue(columns, values) =>
         && |columns| <= 1024 && |values| == |columns| && room >= (if columns == [] then 3 else 5)
         && (forall i :: 0 <= i < |columns| ==> FieldFits(columns[i].dbType, values[i]))
         && (forall i :: 0 <= i < |values| && TypeBits(columns[i].dbType) == 0 ==> Fits(values[i], room - 1))
       case _ => true
  }

  lemma {:induction false} AllEncode(table: Table, items: seq<Value>, depth: nat)
    requires depth <= 65
    ensures EncodedAll(table, items, depth).Ok? <==> forall i :: 0 <= i < |items| ==> EncodedValue(table, items[i], depth).Ok?
  {
    hide EncodedValue;
    if items != [] {
      AllEncode(table, items[1..], depth);
      assert forall i :: 0 < i < |items| ==> items[i] == items[1..][i - 1];
    }
  }

  ghost predicate EntryEncodes(table: Table, entry: Entry, depth: nat)
    requires depth <= 65
  {
    EncodedValue(table, entry.value, depth).Ok? && EncodedValue(table, entry.key, depth).Ok?
  }

  lemma {:induction false} EntriesEncode(table: Table, entries: seq<Entry>, depth: nat)
    requires depth <= 65
    ensures EncodedDict(table, entries, depth).Ok? <==> forall i :: 0 <= i < |entries| ==> EntryEncodes(table, entries[i], depth)
    ensures EncodedPairs(table, entries, depth).Ok? <==> forall i :: 0 <= i < |entries| ==> EntryEncodes(table, entries[i], depth)
  {
    hide EncodedValue;
    if entries != [] {
      EntriesEncode(table, entries[1..], depth);
      assert forall i :: 0 < i < |entries| ==> entries[i] == entries[1..][i - 1];
    }
  }

  lemma ColumnEncodes(table: Table, column: Column, depth: nat)
    requires depth <= 65
    ensures EncodedValue(table, ColumnTuple(column), depth).Ok? <==> depth + 1 <= 64
  {
    hide EncodedString, EncodedInteger;
    if depth + 1 <= 64 {
      var items := [StringValue(column.name), IntValue(column.dbType)];
      assert EncodedValue(table, items[0], depth + 1).Ok? && EncodedValue(table, items[1], depth + 1).Ok?;
      AllEncode(table, items, depth + 1);
    } else if depth == 64 {
      var items := [StringValue(column.name), IntValue(column.dbType)];
      AllEncode(table, items, depth + 1);
      assert EncodedValue(table, items[0], depth + 1).Err?;
    }
  }

  lemma {:induction false} ColumnsEncode(table: Table, columns: seq<Column>, depth: nat)
    requires depth <= 65
    ensures EncodedAll(table, ColumnTuples(columns), depth).Ok? <==> columns == [] || depth + 1 <= 64
  {
    hide EncodedValue;
    if columns != [] {
      ColumnEncodes(table, columns[0], depth);
      ColumnsEncode(table, columns[1..], depth);
      assert ColumnTuples(columns)[1..] == ColumnTuples(columns[1..]);
    }
  }

  lemma TupleEncodes(table: Table, items: seq<Value>, depth: nat)
    requires depth <= 65 && |items| <= 65_536
    ensures EncodedValue(table, TupleValue(items), depth).Ok? <==> depth <= 64 && EncodedAll(table, items, depth + 1).Ok?
  {
    hide EncodedAll;
  }

  lemma HeaderEncodes(table: Table, columns: seq<Column>, depth: nat)
    requires depth <= 65 && |columns| <= 1024
    ensures EncodedValue(table, RowHeader(columns), depth).Ok? <==> depth + (if columns == [] then 1 else 3) <= 64
  {
    if depth + 1 <= 64 {
      hide EncodedAll, ColumnTuples;
      var args := TupleValue(ColumnTuples(columns));
      ColumnsEncode(table, columns, depth + 2);
      TupleEncodes(table, ColumnTuples(columns), depth + 1);
      AllEncode(table, [args], depth + 1);
      assert [args][0] == args;
      HeaderIsObject(table, columns, depth);
    } else if depth == 64 {
      HeaderIsObject(table, columns, depth);
    }
  }

  lemma HeaderIsObject(table: Table, columns: seq<Column>, depth: nat)
    requires depth <= 64
    ensures EncodedValue(table, RowHeader(columns), depth).Ok? <==>
      depth + 1 <= 64 && EncodedAll(table, [TupleValue(ColumnTuples(columns))], depth + 1).Ok?
  {
    var args, name := [TupleValue(ColumnTuples(columns))], TokenValue(ROW_DESCRIPTOR);
    TokenEncodes(table, ROW_DESCRIPTOR, depth + 1);
    EntriesEncode(table, [], depth + 1);
    hide EncodedAll, ColumnTuples, EncodedPairs;
    assert EncodedValue(table, RowHeader(columns), depth) ==
      Then(Ok(Op(PyObjectEx1)), EncodedObjectEx(table, name, args, [], depth));
  }

  lemma TokenEncodes(table: Table, text: seq<byte>, depth: nat)
    requires depth <= 65
    ensures EncodedValue(table, TokenValue(text), depth).Ok? <==> depth <= 64
  {
  }

  lemma {:induction false} SelectEncodes(table: Table, values: seq<Value>, indexes: seq<nat>, depth: nat)
    requires depth <= 65
    ensures EncodedAll(table, Select(values, indexes), depth).Ok? <==>
      forall x: nat :: x in indexes ==> EncodedValue(table, ValueAt(values, x), depth).Ok?
  {
    hide EncodedValue, ValueAt;
    if indexes != [] {
      SelectEncodes(table, values, indexes[1..], depth);
      assert indexes == [indexes[0]] + indexes[1..];
      assert Select(values, indexes)[1..] == Select(values, indexes[1..]);
    }
  }

  lemma FieldsFit(columns: seq<Column>, values: seq<Value>)
    requires |values| == |columns|
    ensures AllPackable(columns, values) <==> forall i :: 0 <= i < |columns| ==> FieldFits(columns[i].dbType, values[i])
  {
    hide FieldFits, Packable;
    forall i: nat | i < |columns|
      ensures Packable(TypeAt(columns, i), ValueAt(values, i)) == FieldFits(columns[i].dbType, values[i])
    {
      FieldFitsIs(columns[i].dbType, values[i]);
    }
  }

  lemma FieldFitsIs(dbType: byte, value: Value)
    ensures Packable(dbType, value) == FieldFits(dbType, value)
  {
  }

  lemma RowEncodes(table: Table, columns: seq<Column>, values: seq<Value>, depth: nat)
    requires depth <= 64
    ensures EncodedRow(table, columns, values, depth).Ok? <==>
      && |columns| <= 1024 && |values| == |columns| && 65 - depth >= (if columns == [] then 3 else 5)
      && (forall i :: 0 <= i < |columns| ==> FieldFits(columns[i].dbType, values[i]))
      && (forall i :: 0 <= i < |values| && TypeBits(columns[i].dbType) == 0 ==> EncodedValue(table, values[i], depth + 1).Ok?)
  {
    hide EncodedValue, EncodedAll, Select, Trailing, RowHeader, AllPackable, FieldFits, SizeOrder, PackedBytes, BitRegion, ToBytes,
         TypeBits, InSizeOrder;
    if |columns| <= 1024 && |values| == |columns| {
      var order := SizeOrder(columns);
      HeaderEncodes(table, columns, depth + 1);
      FieldsFit(columns, values);
      SizeOrderIsSorted(columns);
      TrailingElements(columns, order);
      SelectEncodes(table, values, Trailing(columns, order), depth + 1);
      TrailingAre(table, columns, values, Trailing(columns, order), depth + 1);
    }
  }

  lemma TrailingAre(table: Table, columns: seq<Column>, values: seq<Value>, indexes: seq<nat>, depth: nat)
    requires depth <= 65 && |values| == |columns|
    requires forall x: nat :: x in indexes <==> x < |columns| && BitsAt(columns, x) == 0
    ensures (forall x: nat :: x in indexes ==> EncodedValue(table, ValueAt(values, x), depth).Ok?) <==>
      forall i :: 0 <= i < |values| && TypeBits(columns[i].dbType) == 0 ==> EncodedValue(table, values[i], depth).Ok?
  {
    hide EncodedValue, TypeBits;
    if forall x: nat :: x in indexes ==> EncodedValue(table, ValueAt(values, x), depth).Ok? {
      forall i | 0 <= i < |values| && TypeBits(columns[i].dbType) == 0
        ensures EncodedValue(table, values[i], depth).Ok?
      {
        assert i in indexes;
        assert values[i] == ValueAt(values, i);
      }
    }
  }

  lemma ObjectExEncodes(table: Table, isType2: bool, header: Value, list: seq<Value>, dict: seq<Entry>, depth: nat)
    requires depth <= 64
    ensures EncodedValue(table, ObjectExValue(isType2, header, list, dict), depth).Ok? <==>
      && EncodedValue(table, header, depth + 1).Ok?
      && (forall i :: 0 <= i < |list| ==> EncodedValue(table, list[i], depth + 1).Ok?)
      && (forall i :: 0 <= i < |dict| ==> EntryEncodes(table, dict[i], depth + 1))
  {
    hide EncodedValue, EncodedAll, EncodedPairs, EntryEncodes;
    AllEncode(table, list, depth + 1);
    EntriesEncode(table, dict, depth + 1);
    ObjectExParts(table, isType2, header, list, dict, depth);
  }

  lemma ObjectExParts(table: Table, isType2: bool, header: Value, list: seq<Value>, dict: seq<Entry>, depth: nat)
    requires depth <= 64
    ensures EncodedValue(table, ObjectExValue(isType2, header, list, dict), depth).Ok? <==>
      && EncodedValue(table, header, depth + 1).Ok? && EncodedAll(table, list, depth + 1).Ok?
      && EncodedPairs(table, dict, depth + 1).Ok?
  {
    hide EncodedAll, EncodedPairs;
    assert EncodedValue(table, ObjectExValue(isType2, header, list, dict), depth) ==
      Then(Ok(Op(if isType2 then PyObjectEx2 else PyObjectEx1)), EncodedObjectEx(table, header, list, dict, depth));
  }

  lemma CountedEncodes(table: Table, items: seq<Value>, entries: seq<Entry>, depth: nat)
    requires depth <= 64
    ensures EncodedValue(table, TupleValue(items), depth).Ok? <==>
      |items| <= 65_536 && forall i :: 0 <= i < |items| ==> EncodedValue(table, items[i], depth + 1).Ok?
    ensures EncodedValue(table, ListValue(items), depth).Ok? <==>
      |items| <= 65_536 && forall i :: 0 <= i < |items| ==> EncodedValue(table, items[i], depth + 1).Ok?
    ensures EncodedValue(table, DictValue(entries), depth).Ok? <==>
      |entries| <= 65_536 && forall i :: 0 <= i < |entries| ==> EntryEncodes(table, entries[i], depth + 1)
  {
    hide EncodedValue, EncodedAll, EncodedDict, EntryEncodes;
    AllEncode(table, items, depth + 1);
    EntriesEncode(table, entries, depth + 1);
    CountedParts(table, items, entries, depth);
  }

  lemma CountedParts(table: Table, items: seq<Value>, entries: seq<Entry>, depth: nat)
    requires depth <= 64
    ensures EncodedValue(table, TupleValue(items), depth).Ok? <==> |items| <= 65_536 && EncodedAll(table, items, depth + 1).Ok?
    ensures EncodedValue(table, ListValue(items), depth).Ok? <==> |items| <= 65_536 && EncodedAll(table, items, depth + 1).Ok?
    ensures EncodedValue(table, DictValue(entries), depth).Ok? <==> |entries| <= 65_536 && EncodedDict(table, entries, depth + 1).Ok?
  {
    hide EncodedAll, EncodedDict;
  }

  lemma WrappedEncodes(table: Table, v: Value, depth: nat)
    requires depth <= 64
    ensures v.ObjectValue? ==> (EncodedValue(table, v, depth).Ok? <==> EncodedValue(table, v.args, depth + 1).Ok?)
    ensures v.SubStructValue? || v.ChecksumedValue? ==>
      (EncodedValue(table, v, depth).Ok? <==> EncodedValue(table, v.inner, depth + 1).Ok?)
    ensures v.PackedRowValue? ==> EncodedValue(table, v, depth) == EncodedRow(table, v.columns, v.values, depth)
  {
    hide EncodedString, EncodedRow;
  }

  lemma TooDeepEncodes(table: Table, v: Value)
    ensures EncodedValue(table, v, 65) == Err(TooDeep)
  {
  }

  lemma LeafEncodes(table: Table, v: Value, depth: nat)
    requires depth <= 64
    requires !(v.TupleValue? || v.ListValue? || v.DictValue? || v.ObjectValue? || v.ObjectExValue? || v.SubStructValue?
               || v.ChecksumedValue? || v.PackedRowValue?)
    ensures EncodedValue(table, v, depth).Ok? && Fits(v, 65 - depth)
  {
    hide EncodedString, EncodedInteger, EncodedReal, EncodedWString, Sized;
  }

  /** A value can be encoded exactly when it fits in 64 levels below the outermost, every container has at most
      65536 parts and every row at most 1024 columns, a value for each, and in each what the column can hold. */
  lemma {:induction false} EncodesWhenItFits(table: Table, v: Value, depth: nat)
    requires depth <= 65
    ensures EncodedValue(table, v, depth).Ok? <==> Fits(v, 65 - depth)
    decreases v, 1
  {
    hide EncodedValue, EncodedRow, FieldFits, TypeBits;
    if depth == 65 {
      TooDeepEncodes(table, v);
    } else {
      match v {
        case TupleValue(items) =>
          CountedEncodes(table, items, [], depth);
          forall i | 0 <= i < |items| { EncodesWhenItFits(table, items[i], depth + 1); }
        case ListValue(items) =>
          CountedEncodes(table, items, [], depth);
          forall i | 0 <= i < |items| { EncodesWhenItFits(table, items[i], depth + 1); }
        case DictValue(entries) =>
          CountedEncodes(table, [], entries, depth);
          forall i | 0 <= i < |entries| { EntryEncodesWhenItFits(table, entries[i], depth + 1); }
        case ObjectExValue(_, _, _, _) => ObjectExEncodesWhenItFits(table, v, depth);
        case PackedRowValue(_, _) => RowEncodesWhenItFits(table, v, depth);
        case ObjectValue(_, args) =>
          WrappedEncodes(table, v, depth);
          EncodesWhenItFits(table, args, depth + 1);
        case SubStructValue(inner) =>
          WrappedEncodes(table, v, depth);
          EncodesWhenItFits(table, inner, depth + 1);
        case ChecksumedValue(_, inner) =>
          WrappedEncodes(table, v, depth);
          EncodesWhenItFits(table, inner, depth + 1);
        case _ => LeafEncodes(table, v, depth);
      }
    }
  }

  lemma {:induction false} ObjectExEncodesWhenItFits(table: Table, v: Value, depth: nat)
    requires depth <= 64 && v.ObjectExValue?
    ensures EncodedValue(table, v, depth).Ok? <==> Fits(v, 65 - depth)
    decreases v, 0
  {
    hide EncodedValue, FieldFits, TypeBits;
    ObjectExEncodes(table, v.isType2, v.header, v.list, v.dict, depth);
    EncodesWhenItFits(table, v.header, depth + 1);
    forall i | 0 <= i < |v.list| { EncodesWhenItFits(table, v.list[i], depth + 1); }
    forall i | 0 <= i < |v.dict| { EntryEncodesWhenItFits(table, v.dict[i], depth + 1); }
  }

  lemma {:induction false} RowEncodesWhenItFits(table: Table, v: Value, depth: nat)
    requires depth <= 64 && v.PackedRowValue?
    ensures EncodedValue(table, v, depth).Ok? <==> Fits(v, 65 - depth)
    decreases v, 0
  {
    hide EncodedValue, EncodedRow, FieldFits, TypeBits;
    WrappedEncodes(table, v, depth);
    RowEncodes(table, v.columns, v.values, depth);
    forall i | 0 <= i < |v.values| { EncodesWhenItFits(table, v.values[i], depth + 1); }
  }

  lemma {:induction false} EntryEncodesWhenItFits(table: Table, entry: Entry, depth: nat)
    requires depth <= 65
    ensures EntryEncodes(table, entry, depth) <==> Fits(entry.value, 65 - depth) && Fits(entry.key, 65 - depth)
    decreases entry, 2
  {
    hide EncodedValue, Fits;
    EncodesWhenItFits(table, entry.key, depth);
    EncodesWhenItFits(table, entry.value, depth);
  }

  // ------------------------------------------------------------------
  // What it costs
  // ------------------------------------------------------------------

  /** An integer takes the shortest of the forms of one, two, three, five and nine bytes that can hold it. The
      variable form, which is shorter for some integers beyond 32 bits, is never chosen. */
  lemma IntegerTakes(i: Int64)
    ensures |EncodedInteger(i)| ==
      if -1 <= i <= 1 then 1
      else if -0x80 <= i < 0x80 then 2
      else if -0x8000 <= i < 0x8000 then 3
      else if -0x8000_0000 <= i < 0x8000_0000 then 5
      else 9
    ensures EncodedInteger(i)[0] != 0x2F
  {
    hide LittleEndian, ToUnsigned, Power256;
  }

  // What a size costs.
  function SizeTakes(size: nat): nat {
    if size < 255 then 1 else 5
  }

  lemma SizedTakes(bytes: seq<byte>)
    requires |bytes| < 0x1_0000_0000
    ensures |Sized(bytes)| == SizeTakes(|bytes|) + |bytes|
  {
  }

  /** A zero takes one byte, any other real nine; an empty string one; one of one byte, or in the string table, two;
      any other string its opcode, its size and its bytes, and a wide one the same. */
  lemma LeavesTake(table: Table, bits: Word64, text: seq<byte>)
    requires |text| < 0x1_0000_0000
    ensures |EncodedReal(bits)| == if bits == 0 || bits == 0x8000_0000_0000_0000 then 1 else 9
    ensures |EncodedString(table, text)| ==
      if text == [] then 1 else if |text| == 1 || text in table then 2 else 1 + SizeTakes(|text|) + |text|
    ensures |EncodedWString(text)| == if text == [] then 1 else 1 + SizeTakes(|text|) + |text|
  {
    hide LittleEndian, Sized;
    SizedTakes(text);
  }

  /** A tuple of at most two parts and a list of at most one have an opcode of their own; all other containers say
      how many parts they have. */
  lemma HeadsTake(count: nat)
    requires count <= 65_536
    ensures |TupleHead(count)| == if count <= 2 then 1 else 1 + SizeTakes(count)
    ensures |ListHead(count)| == if count <= 1 then 1 else 1 + SizeTakes(count)
    ensures |DictHead(count)| == 1 + SizeTakes(count)
  {
    hide LittleEndian;
  }
}
