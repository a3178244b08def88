/** How the values that have parts read, and whole streams: told by what their parts read as. */
module WireContainers {
  import opened Bytes
  import opened MarshalDecoding
  import opened MarshalEncoding
  import opened MarshalTypes
  import opened Options
  import opened StringTable
  import opened WireForms

  // ------------------------------------------------------------------
  // Parts in a row
  // ------------------------------------------------------------------

  // The values `items`, read one after the other from `c` on, end at `next`.
  ghost predicate InARow(input: Input, c: Cursor, depth: nat, items: seq<Value>, next: Cursor)
    requires InStream(input, c) && depth <= 65
    decreases |items|
  {
    if items == [] then next == c
    else
      match DecodeValue(input, c, depth)
      case Failed(_, _) => false
      case Got(item, behind) => item == items[0] && InARow(input, behind, depth, items[1..], next)
  }

  lemma {:induction false} ItemsInARow(input: Input, c: Cursor, depth: nat, items: seq<Value>, next: Cursor)
    requires InStream(input, c) && depth <= 65 && InARow(input, c, depth, items, next)
    ensures DecodeItems(input, c, |items|, depth) == Got(items, next)
    decreases |items|
  {
    hide DecodeValue;
    if items != [] {
      ItemsInARow(input, DecodeValue(input, c, depth).cursor, depth, items[1..], next);
      assert [items[0]] + items[1..] == items;
    }
  }

  // Entries with each value before its key, as in a dict.
  ghost predicate EntriesInARow(input: Input, c: Cursor, depth: nat, entries: seq<Entry>, next: Cursor)
    requires InStream(input, c) && depth <= 65
    decreases |entries|
  {
    if entries == [] then next == c
    else exists mid :: InStream(input, mid) && InARow(input, c, depth, [entries[0].value, entries[0].key], mid) &&
                       EntriesInARow(input, mid, depth, entries[1..], next)
  }

  lemma OneInARow(input: Input, c: Cursor, depth: nat, a: Value, next: Cursor)
    requires InStream(input, c) && depth <= 65 && InARow(input, c, depth, [a], next)
    ensures DecodeValue(input, c, depth) == Got(a, next)
  {
    hide DecodeValue;
    assert [a][1..] == [];
  }

  lemma TwoInARow(input: Input, c: Cursor, depth: nat, a: Value, b: Value, next: Cursor)
    requires InStream(input, c) && depth <= 65 && InARow(input, c, depth, [a, b], next)
    ensures DecodeValue(input, c, depth).Got? && DecodeValue(input, c, depth).value == a
    ensures InStream(input, DecodeValue(input, c, depth).cursor)
    ensures DecodeValue(input, DecodeValue(input, c, depth).cursor, depth) == Got(b, next)
  {
    hide DecodeValue;
    var mid := DecodeValue(input, c, depth).cursor;
    assert [a, b][1..] == [b];
    assert InARow(input, mid, depth, [b], next);
    OneInARow(input, mid, depth, b, next);
  }

  lemma {:induction false} DictInARow(input: Input, c: Cursor, depth: nat, entries: seq<Entry>, next: Cursor)
    requires InStream(input, c) && depth <= 65 && EntriesInARow(input, c, depth, entries, next)
    ensures DecodeEntries(input, c, |entries|, depth) == Got(entries, next)
    decreases |entries|
  {
    hide DecodeValue, InARow;
    if entries != [] {
      var mid :| InStream(input, mid) && InARow(input, c, depth, [entries[0].value, entries[0].key], mid) &&
                 EntriesInARow(input, mid, depth, entries[1..], next);
      TwoInARow(input, c, depth, entries[0].value, entries[0].key, mid);
      DictInARow(input, mid, depth, entries[1..], next);
      assert [entries[0]] + entries[1..] == entries;
    }
  }

  // A terminator is any byte whose low six bits are 0x2D.
  predicate IsTerminator(b: byte) {
    b % 0x40 == 0x2D
  }

  // The values up to a terminator, none of which begins like one, end behind it.
  ghost predicate RowUntil(input: Input, c: Cursor, depth: nat, items: seq<Value>, next: Cursor)
    requires InStream(input, c) && depth <= 65
    decreases |items|
  {
    && c.offset < input.end && c.offset < |input.bytes| && (IsTerminator(input.bytes[c.offset]) <==> items == [])
    && if items == [] then next == c.(offset := c.offset + 1)
       else
         match DecodeValue(input, c, depth)
         case Failed(_, _) => false
         case Got(item, behind) => item == items[0] && RowUntil(input, behind, depth, items[1..], next)
  }

  lemma {:induction false} ListUntil(input: Input, c: Cursor, depth: nat, items: seq<Value>, next: Cursor)
    requires InStream(input, c) && depth <= 65 && RowUntil(input, c, depth, items, next)
    ensures DecodeUntil(input, c, depth) == Got(items, next)
    decreases |items|
  {
    hide DecodeValue;
    if items != [] {
      ListUntil(input, DecodeValue(input, c, depth).cursor, depth, items[1..], next);
      assert [items[0]] + items[1..] == items;
    }
  }

  // Entries with each key before its value, up to a terminator.
  ghost predicate EntriesUntil(input: Input, c: Cursor, depth: nat, entries: seq<Entry>, next: Cursor)
    requires InStream(input, c) && depth <= 65
    decreases |entries|
  {
    && c.offset < input.end && c.offset < |input.bytes| && (IsTerminator(input.bytes[c.offset]) <==> entries == [])
    && if entries == [] then next == c.(offset := c.offset + 1)
       else exists mid :: InStream(input, mid) && InARow(input, c, depth, [entries[0].key, entries[0].value], mid) &&
                          EntriesUntil(input, mid, depth, entries[1..], next)
  }

  lemma NextPair(input: Input, c: Cursor, depth: nat, entry: Entry, mid: Cursor, rest: seq<Entry>, next: Cursor)
    requires InStream(input, c) && InStream(input, mid) && depth <= 65
    requires c.offset < input.end && c.offset < |input.bytes| && !IsTerminator(input.bytes[c.offset])
    requires InARow(input, c, depth, [entry.key, entry.value], mid) && DecodePairs(input, mid, depth) == Got(rest, next)
    ensures DecodePairs(input, c, depth) == Got([entry] + rest, next)
  {
    hide DecodeValue, InARow;
    TwoInARow(input, c, depth, entry.key, entry.value, mid);
  }

  lemma NoPairs(input: Input, c: Cursor, depth: nat, next: Cursor)
    requires InStream(input, c) && depth <= 65 && EntriesUntil(input, c, depth, [], next)
    ensures DecodePairs(input, c, depth) == Got([], next)
  {
    hide DecodeValue, InARow;
  }

  lemma EntriesGoOn(input: Input, c: Cursor, depth: nat, entries: seq<Entry>, next: Cursor) returns (mid: Cursor)
    requires InStream(input, c) && depth <= 65 && EntriesUntil(input, c, depth, entries, next) && entries != []
    ensures c.offset < input.end && c.offset < |input.bytes| && !IsTerminator(input.bytes[c.offset])
    ensures InStream(input, mid) && InARow(input, c, depth, [entries[0].key, entries[0].value], mid)
    ensures EntriesUntil(input, mid, depth, entries[1..], next)
  {
    hide DecodeValue, InARow, IsTerminator;
    mid :| InStream(input, mid) && InARow(input, c, depth, [entries[0].key, entries[0].value], mid) &&
           EntriesUntil(input, mid, depth, entries[1..], next);
  }

  lemma {:induction false} PairsUntil(input: Input, c: Cursor, depth: nat, entries: seq<Entry>, next: Cursor)
    requires InStream(input, c) && depth <= 65 && EntriesUntil(input, c, depth, entries, next)
    ensures DecodePairs(input, c, depth) == Got(entries, next)
    decreases |entries|
  {
    hide DecodeValue, InARow, DecodePairs, IsTerminator, EntriesUntil;
    if entries == [] {
      NoPairs(input, c, depth, next);
    } else {
      var mid := EntriesGoOn(input, c, depth, entries, next);
      PairsUntil(input, mid, depth, entries[1..], next);
      NextPair(input, c, depth, entries[0], mid, entries[1..], next);
      assert [entries[0]] + entries[1..] == entries;
    }
  }

  // ------------------------------------------------------------------
  // Values with parts
  // ------------------------------------------------------------------

  // How many parts a tuple or a list says it has, and where they begin.
  function CountAt(input: Input, code: byte, begun: Cursor): Option<(nat, Cursor)> {
    match code
    case 0x24 => Some((0, begun))
    case 0x25 => Some((1, begun))
    case 0x2C => Some((2, begun))
    case 0x26 => Some((0, begun))
    case 0x27 => Some((1, begun))
    case _ =>
      match SizeAt(input.bytes, begun.offset)
      case None => None
      case Some((count, at)) => Some((count, begun.(offset := at)))
  }

  predicate IsTuple(code: byte) {
    code == 0x24 || code == 0x25 || code == 0x2C || code == 0x14
  }

  predicate IsList(code: byte) {
    code == 0x26 || code == 0x27 || code == 0x15
  }

  lemma TupleCode(input: Input, begun: Cursor, depth: nat, code: byte)
    requires InStream(input, begun) && depth <= 64 && IsTuple(code)
    ensures DecodeCode(input, begun, code, depth) ==
      match CountAt(input, code, begun)
      case None => Failed(Truncated, begun.calls)
      case Some((count, at)) =>
        if code == 0x14 && count > 65_536 then Failed(LimitExceeded, begun.calls) else DecodeTuple(input, at, count, depth)
  {
    hide DecodeValue, DecodeTuple, DecodeList, SizeAt, DecodeSigned, DecodeVarInteger, DecodeReal, DecodeChar, DecodeShortString,
         DecodeTableItem, DecodeWide, DecodeSavedElement, ReadBounded, DecodeObject, DecodeObjectEx, DecodeChecksumed, DecodeRow,
         DecodeEntries;
    SizeReads(input, begun, MAX_CONTAINER_COUNT);
  }

  lemma ListCode(input: Input, begun: Cursor, depth: nat, code: byte)
    requires InStream(input, begun) && depth <= 64 && IsList(code)
    ensures DecodeCode(input, begun, code, depth) ==
      match CountAt(input, code, begun)
      case None => Failed(Truncated, begun.calls)
      case Some((count, at)) =>
        if code == 0x15 && count > 65_536 then Failed(LimitExceeded, begun.calls) else DecodeList(input, at, count, depth)
  {
    hide DecodeValue, DecodeTuple, DecodeList, SizeAt, DecodeSigned, DecodeVarInteger, DecodeReal, DecodeChar, DecodeShortString,
         DecodeTableItem, DecodeWide, DecodeSavedElement, ReadBounded, DecodeObject, DecodeObjectEx, DecodeChecksumed, DecodeRow,
         DecodeEntries;
    SizeReads(input, begun, MAX_CONTAINER_COUNT);
  }

  // The tuple or list that its parts, read one level deeper, make; at most 65536 of them.
  ghost predicate RowIs(input: Input, depth: nat, code: byte, begun: Cursor, index: Option<nat>, items: seq<Value>, next: Cursor,
                        r: Parsed<Value>)
    requires depth <= 64
  {
    match CountAt(input, code, begun)
    case None => r == Failed(Truncated, begun.calls)
    case Some((count, at)) =>
      if count > 65_536 then r == Failed(LimitExceeded, begun.calls)
      else
        && InStream(input, at)
        && (|items| == count && InARow(input, at, depth + 1, items, next) ==>
              r == Kept(index, Got(if IsTuple(code) then TupleValue(items) else ListValue(items), next)))
        && (|items| < count && InStream(input, next) && InARow(input, at, depth + 1, items, next) &&
            DecodeValue(input, next, depth + 1).Failed? ==>
              r == Failed(DecodeValue(input, next, depth + 1).error, DecodeValue(input, next, depth + 1).calls))
  }

  lemma {:induction false} RowFails(input: Input, c: Cursor, depth: nat, items: seq<Value>, next: Cursor, count: nat)
    requires InStream(input, c) && InStream(input, next) && depth <= 65 && InARow(input, c, depth, items, next)
    requires |items| < count && DecodeValue(input, next, depth).Failed?
    ensures DecodeItems(input, c, count, depth) ==
      Failed(DecodeValue(input, next, depth).error, DecodeValue(input, next, depth).calls)
    decreases |items|
  {
    hide DecodeValue;
    if items != [] {
      RowFails(input, DecodeValue(input, c, depth).cursor, depth, items[1..], next, count - 1);
    }
  }

  lemma CountInside(input: Input, code: byte, begun: Cursor)
    requires InStream(input, begun)
    ensures CountAt(input, code, begun).Some? ==> InStream(input, CountAt(input, code, begun).value.1)
    ensures code != 0x14 && code != 0x15 && (IsTuple(code) || IsList(code)) ==>
      CountAt(input, code, begun).Some? && CountAt(input, code, begun).value.0 <= 2
  {
    SizeInside(input.bytes, begun.offset);
  }

  lemma RowContent(input: Input, depth: nat, at: Cursor, items: seq<Value>, next: Cursor, count: nat)
    requires InStream(input, at) && depth <= 64
    ensures |items| == count && InARow(input, at, depth + 1, items, next) ==>
      DecodeTuple(input, at, count, depth) == Got(TupleValue(items), next) &&
      DecodeList(input, at, count, depth) == Got(ListValue(items), next)
    ensures (|items| < count && InStream(input, next) && InARow(input, at, depth + 1, items, next) &&
             DecodeValue(input, next, depth + 1).Failed?) ==>
        var failed := DecodeValue(input, next, depth + 1);
        && DecodeTuple(input, at, count, depth) == Failed(failed.error, failed.calls)
        && DecodeList(input, at, count, depth) == Failed(failed.error, failed.calls)
  {
    hide DecodeValue, InARow, DecodeItems;
    if InARow(input, at, depth + 1, items, next) {
      if |items| == count {
        ItemsInARow(input, at, depth + 1, items, next);
      } else if |items| < count && InStream(input, next) && DecodeValue(input, next, depth + 1).Failed? {
        RowFails(input, at, depth + 1, items, next, count);
      }
    }
  }

  /** A tuple or a list is its parts, in order; the first part that fails fails the whole. */
  lemma RowReads(input: Input, c: Cursor, depth: nat, code: byte, begun: Cursor, index: Option<nat>, items: seq<Value>, next: Cursor)
    requires Opens(input, c, depth, code, begun, index) && (IsTuple(code) || IsList(code))
    ensures RowIs(input, depth, code, begun, index, items, next, DecodeValue(input, c, depth))
  {
    hide DecodeValue, DecodeCode, CountAt, InARow, DecodeTuple, DecodeList;
    Begins(input, c, depth, code, begun, index);
    CountInside(input, code, begun);
    if IsTuple(code) {
      TupleCode(input, begun, depth, code);
    } else {
      ListCode(input, begun, depth, code);
    }
    if CountAt(input, code, begun).Some? {
      var (count, at) := CountAt(input, code, begun).value;
      RowContent(input, depth, at, items, next, count);
    }
  }

  // ------------------------------------------------------------------
  // Dicts and objects
  // ------------------------------------------------------------------

  lemma DictCode(input: Input, begun: Cursor, depth: nat)
    requires InStream(input, begun) && depth <= 64
    ensures DecodeCode(input, begun, 0x16, depth) ==
      match SizeAt(input.bytes, begun.offset)
      case None => Failed(Truncated, begun.calls)
      case Some((count, at)) =>
        if count > 65_536 then Failed(LimitExceeded, begun.calls)
        else
          match DecodeEntries(input, begun.(offset := at), count, depth + 1)
          case Failed(error, calls) => Failed(error, calls)
          case Got(entries, next) => Got(DictValue(entries), next)
  {
    hide DecodeValue, DecodeTuple, DecodeList, SizeAt, DecodeSigned, DecodeVarInteger, DecodeReal, DecodeChar, DecodeShortString,
         DecodeTableItem, DecodeWide, DecodeSavedElement, ReadBounded, DecodeObject, DecodeObjectEx, DecodeChecksumed, DecodeRow,
         DecodeEntries;
    SizeInside(input.bytes, begun.offset);
    SizeReads(input, begun, MAX_CONTAINER_COUNT);
  }

  /** A dict is its entries, each value before its key. */
  lemma DictReads(input: Input, c: Cursor, depth: nat, begun: Cursor, index: Option<nat>, at: nat, entries: seq<Entry>, next: Cursor)
    requires Opens(input, c, depth, 0x16, begun, index) && SizeAt(input.bytes, begun.offset) == Some((|entries|, at))
    requires InStream(input, begun.(offset := at)) && EntriesInARow(input, begun.(offset := at), depth + 1, entries, next)
    ensures DecodeValue(input, c, depth) ==
      if |entries| > 65_536 then Failed(LimitExceeded, begun.calls) else Kept(index, Got(DictValue(entries), next))
  {
    hide DecodeValue, DecodeCode, SizeAt, EntriesInARow, DecodeEntries;
    Begins(input, c, depth, 0x16, begun, index);
    DictCode(input, begun, depth);
    DictInARow(input, begun.(offset := at), depth + 1, entries, next);
  }

  lemma ObjectCode(input: Input, begun: Cursor, depth: nat)
    requires InStream(input, begun) && depth <= 64
    ensures DecodeCode(input, begun, 0x17, depth) == DecodeObject(input, begun, depth)
  {
    hide DecodeValue, DecodeTuple, DecodeList, DecodeSigned, DecodeVarInteger, DecodeReal, DecodeChar, DecodeShortString,
         DecodeTableItem, DecodeWide, DecodeSavedElement, ReadBounded, DecodeObject, DecodeObjectEx, DecodeChecksumed, DecodeRow,
         DecodeEntries;
  }

  lemma ObjectExCode(input: Input, begun: Cursor, depth: nat, code: byte)
    requires InStream(input, begun) && depth <= 64 && (code == 0x22 || code == 0x23)
    ensures DecodeCode(input, begun, code, depth) == DecodeObjectEx(input, begun, code == 0x23, depth)
  {
    hide DecodeValue, DecodeTuple, DecodeList, DecodeSigned, DecodeVarInteger, DecodeReal, DecodeChar, DecodeShortString,
         DecodeTableItem, DecodeWide, DecodeSavedElement, ReadBounded, DecodeObject, DecodeObjectEx, DecodeChecksumed, DecodeRow,
         DecodeEntries;
  }

  lemma ObjectContent(input: Input, begun: Cursor, depth: nat, typeName: Value, args: Value, next: Cursor)
    requires InStream(input, begun) && depth <= 64
    ensures typeName.StringValue? && InARow(input, begun, depth + 1, [typeName, args], next) ==>
      DecodeObject(input, begun, depth) == Got(ObjectValue(typeName.text, args), next)
    ensures !typeName.StringValue? && InARow(input, begun, depth + 1, [typeName], next) ==>
      DecodeObject(input, begun, depth) == Failed(BadFormat, next.calls)
  {
    hide DecodeValue, InARow;
    if InARow(input, begun, depth + 1, [typeName, args], next) {
      TwoInARow(input, begun, depth + 1, typeName, args, next);
    }
    if InARow(input, begun, depth + 1, [typeName], next) {
      OneInARow(input, begun, depth + 1, typeName, next);
    }
  }

  /** An object is a string, its type, and its arguments; any other type is refused. */
  lemma ObjectReads(input: Input, c: Cursor, depth: nat, begun: Cursor, index: Option<nat>, typeName: Value, args: Value, next: Cursor)
    requires Opens(input, c, depth, 0x17, begun, index) && InStream(input, begun)
    ensures typeName.StringValue? && InARow(input, begun, depth + 1, [typeName, args], next) ==>
      DecodeValue(input, c, depth) == Kept(index, Got(ObjectValue(typeName.text, args), next))
    ensures !typeName.StringValue? && InARow(input, begun, depth + 1, [typeName], next) ==>
      DecodeValue(input, c, depth) == Failed(BadFormat, next.calls)
  {
    hide DecodeValue, DecodeCode, InARow, DecodeObject;
    Begins(input, c, depth, 0x17, begun, index);
    ObjectCode(input, begun, depth);
    ObjectContent(input, begun, depth, typeName, args, next);
  }

  /** An extended object is its header, values up to a terminator, and entries, keys first, up to another. */
  lemma ObjectExReads(input: Input, c: Cursor, depth: nat, code: byte, begun: Cursor, index: Option<nat>, header: Value, list: seq<Value>,
                      dict: seq<Entry>, listAt: Cursor, dictAt: Cursor, next: Cursor)
    requires Opens(input, c, depth, code, begun, index) && (code == 0x22 || code == 0x23) && InStream(input, begun)
    requires InARow(input, begun, depth + 1, [header], listAt) && InStream(input, listAt)
    requires RowUntil(input, listAt, depth + 1, list, dictAt) && InStream(input, dictAt)
    requires EntriesUntil(input, dictAt, depth + 1, dict, next)
    ensures DecodeValue(input, c, depth) == Kept(index, Got(ObjectExValue(code == 0x23, header, list, dict), next))
  {
    hide DecodeValue, DecodeCode, InARow, RowUntil, EntriesUntil, DecodeUntil, DecodePairs;
    Begins(input, c, depth, code, begun, index);
    ObjectExCode(input, begun, depth, code);
    OneInARow(input, begun, depth + 1, header, listAt);
    ListUntil(input, listAt, depth + 1, list, dictAt);
    PairsUntil(input, dictAt, depth + 1, dict, next);
  }

  /** One whose values end before a terminator comes is refused. */
  lemma ObjectExUnterminated(input: Input, c: Cursor, depth: nat, code: byte, begun: Cursor, index: Option<nat>, header: Value,
                             next: Cursor)
    requires Opens(input, c, depth, code, begun, index) && (code == 0x22 || code == 0x23) && InStream(input, begun)
    requires InARow(input, begun, depth + 1, [header], next) && InStream(input, next)
    requires next.offset >= input.end || next.offset == |input.bytes|
    ensures DecodeValue(input, c, depth) == Failed(Truncated, next.calls)
  {
    hide DecodeValue, DecodeCode, InARow;
    Begins(input, c, depth, code, begun, index);
    ObjectExCode(input, begun, depth, code);
    OneInARow(input, begun, depth + 1, header, next);
  }

  lemma WrappedCode(input: Input, begun: Cursor, depth: nat)
    requires InStream(input, begun) && depth <= 64
    ensures DecodeCode(input, begun, 0x1C, depth) == DecodeChecksumed(input, begun, depth)
    ensures DecodeCode(input, begun, 0x19, depth) ==
      match DecodeValue(input, begun, depth + 1)
      case Failed(error, calls) => Failed(error, calls)
      case Got(inner, next) => Got(SubStructValue(inner), next)
  {
    hide DecodeValue, DecodeTuple, DecodeList, DecodeSigned, DecodeVarInteger, DecodeReal, DecodeChar, DecodeShortString,
         DecodeTableItem, DecodeWide, DecodeSavedElement, ReadBounded, DecodeObject, DecodeObjectEx, DecodeChecksumed, DecodeRow,
         DecodeEntries;
  }

  /** A substructure is one value; a checksummed one is four bytes, which are kept and not checked, and a value. */
  lemma WrappedReads(input: Input, c: Cursor, depth: nat, code: byte, begun: Cursor, index: Option<nat>, inner: Value, next: Cursor)
    requires Opens(input, c, depth, code, begun, index) && (code == 0x19 || code == 0x1C) && InStream(input, begun)
    ensures code == 0x19 && InARow(input, begun, depth + 1, [inner], next) ==>
      DecodeValue(input, c, depth) == Kept(index, Got(SubStructValue(inner), next))
    ensures code == 0x1C && begun.offset + 4 > |input.bytes| ==> DecodeValue(input, c, depth) == Failed(Truncated, begun.calls)
    ensures (code == 0x1C && begun.offset + 4 <= |input.bytes| &&
             InARow(input, begun.(offset := begun.offset + 4), depth + 1, [inner], next)) ==>
        DecodeValue(input, c, depth) == Kept(index, Got(ChecksumedValue(Word(input.bytes, begun.offset), inner), next))
  {
    hide DecodeValue, DecodeCode, InARow, Word;
    Begins(input, c, depth, code, begun, index);
    WrappedCode(input, begun, depth);
    if code == 0x19 && InARow(input, begun, depth + 1, [inner], next) {
      OneInARow(input, begun, depth + 1, inner, next);
    }
    if begun.offset + 4 <= |input.bytes| {
      WordReads(input, begun);
      if InARow(input, begun.(offset := begun.offset + 4), depth + 1, [inner], next) {
        OneInARow(input, begun.(offset := begun.offset + 4), depth + 1, inner, next);
      }
    }
  }

  // ------------------------------------------------------------------
  // Row descriptors
  // ------------------------------------------------------------------

  lemma DescriptorSpelled()
    ensures |ROW_DESCRIPTOR| == |"blue.DBRowDescriptor"|
    ensures forall i :: 0 <= i < |ROW_DESCRIPTOR| ==> ROW_DESCRIPTOR[i] as char == "blue.DBRowDescriptor"[i]
  {
  }

  predicate IsDescriptor(header: Value) {
    && header.ObjectExValue? && header.header == TokenValue(ROW_DESCRIPTOR)
    && |header.list| == 1 && header.list[0].TupleValue?
  }

  // A name and a type, of which the low byte counts.
  predicate Describes(tuple: Value, column: Column) {
    && tuple.TupleValue? && |tuple.items| == 2 && tuple.items[0] == StringValue(column.name)
    && tuple.items[1].IntValue? && tuple.items[1].i % 256 == column.dbType
  }

  lemma {:induction false} ColumnsDescribed(tuples: seq<Value>, columns: seq<Column>)
    ensures ColumnsOf(tuples) == Ok(columns) <==>
      |columns| == |tuples| && forall i :: 0 <= i < |tuples| ==> Describes(tuples[i], columns[i])
    ensures ColumnsOf(tuples).Err? ==> ColumnsOf(tuples) == Err(BadFormat)
  {
    PowersOf256();
    if tuples != [] {
      if columns == [] {
        ColumnsDescribed(tuples[1..], []);
      } else {
        ColumnsDescribed(tuples[1..], columns[1..]);
        assert columns == [columns[0]] + columns[1..];
        assert forall i :: 0 <= i < |tuples| - 1 ==> tuples[1..][i] == tuples[i + 1];
      }
    }
  }

  /** The columns of a packed row are what its header describes, at most 1024 of them. */
  lemma DescriptorReads(header: Value, columns: seq<Column>)
    ensures ExtractColumns(header) == Ok(columns) <==>
      && IsDescriptor(header) && |columns| == |header.list[0].items| <= 1024
      && forall i :: 0 <= i < |columns| ==> Describes(header.list[0].items[i], columns[i])
    ensures ExtractColumns(header).Err? ==>
      ExtractColumns(header).error == if IsDescriptor(header) && |header.list[0].items| > 1024 then LimitExceeded else BadFormat
  {
    hide ColumnsOf, Describes;
    if IsDescriptor(header) {
      ColumnsDescribed(header.list[0].items, columns);
    }
  }

  // ------------------------------------------------------------------
  // Streams
  // ------------------------------------------------------------------

  // The values end where the save table, of four bytes an entry, begins; one too large for the stream makes the
  // 64-bit subtraction wrap around.
  function ValuesEnd(length: nat, count: nat): int {
    if 4 * count <= length then length - 4 * count else 0x1_0000_0000_0000_0000 + length - 4 * count
  }

  /** A stream is the header byte, the number of saved values and one value, in at most a mebibyte; where the exact
      end is asked for, the value ends where the values do. */
  lemma StreamReads(table: Table, stream: seq<byte>, exact: bool)
    ensures DecodeStream(table, stream, exact) ==
      if |stream| > 0x10_0000 then Failed(LimitExceeded, 0)
      else if |stream| == 0 then Failed(Truncated, 0)
      else if stream[0] != 0x7E then Failed(BadFormat, 0)
      else if |stream| < 5 then Failed(Truncated, 0)
      else if Word(stream, 1) > 65_536 then Failed(LimitExceeded, 0)
      else
        var end := ValuesEnd(|stream|, Word(stream, 1));
        match DecodeValue(Input(stream, end, table), Cursor(5, seq(Word(stream, 1), _ => None), 0), 0)
        case Failed(error, calls) => Failed(error, calls)
        case Got(v, next) => if exact && next.offset != end then Failed(BadFormat, next.calls) else Got(v, next)
  {
    hide DecodeValue, Word;
    if 5 <= |stream| {
      WordReads(Input(stream, |stream|, table), Cursor(1, [], 0));
    }
  }

  // 3000000000 in four bytes.
  lemma ThreeBillion(bytes: seq<byte>, offset: nat)
    requires At(bytes, offset, [0x00, 0x5E, 0xD0, 0xB2])
    ensures DigitsAt(bytes, offset, 3_000_000_000, 4) && 3_000_000_000 < Power256(4)
  {
    var digits := [0x00, 0x5E, 0xD0, 0xB2];
    PowersOf256();
    assert Power256(3) == 0x100_0000;
    forall k: nat | k < 4
      ensures bytes[offset + k] == Digit(3_000_000_000, k)
    {
      assert bytes[offset + k] == digits[k];
      assert k == 0 || k == 1 || k == 2 || k == 3;
    }
  }

  /** Four bytes with the topmost bit set are a positive integer. */
  lemma FourBytesStayPositive(table: Table)
    ensures var stream := [0x7E, 0x00, 0x00, 0x00, 0x00, 0x2F, 0x04, 0x00, 0x5E, 0xD0, 0xB2];
      DecodeStream(table, stream, true).Got? && DecodeStream(table, stream, true).value == IntValue(3_000_000_000)
  {
    hide DecodeStream, DecodeValue, DigitsAt, Power256;
    var stream := [0x7E, 0x00, 0x00, 0x00, 0x00, 0x2F, 0x04, 0x00, 0x5E, 0xD0, 0xB2];
    StreamReads(table, stream, true);
    var input, c := Input(stream, 11, table), Cursor(5, [], 0);
    assert seq<Option<Value>>(0, _ => None) == [];
    ThreeBillion(stream, 7);
    VarIntegerReads(input, c, 0, Cursor(6, [], 1), None, 3_000_000_000);
  }
}
