/** What the save table holds: each index the value last saved under it, whatever is read in between. */
module WireSaves {
  import opened Bytes
  import opened MarshalDecoding
  import opened MarshalEncoding
  import opened MarshalTypes
  import opened Options
  import opened PackedFields
  import opened WireContainers
  import opened WireForms

  // No byte in the range can begin a value that is saved under the index.
  ghost predicate NoSave(bytes: seq<byte>, from: nat, to: nat, index: nat) {
    forall o :: from <= o < to && o + 5 <= |bytes| && 0x40 <= bytes[o] < 0x80 ==> Word(bytes, o + 1) != index
  }

  // If nothing on the way can save under the index, what is saved there stays.
  ghost predicate Stays<T>(input: Input, c: Cursor, index: nat, r: Parsed<T>) {
    r.Got? && |r.cursor.saved| == |c.saved| && 1 <= index <= |c.saved| && NoSave(input.bytes, c.offset, r.cursor.offset, index) ==>
      r.cursor.saved[index - 1] == c.saved[index - 1]
  }

  lemma NoSaveInside(bytes: seq<byte>, from: nat, mid: nat, mid': nat, to: nat, index: nat)
    requires from <= mid && mid' <= to && NoSave(bytes, from, to, index)
    ensures NoSave(bytes, mid, mid', index)
  {
  }

  // Two steps, each of which leaves the index alone.
  lemma StaysTwice<T, U>(input: Input, c: Cursor, index: nat, first: Parsed<T>, second: Parsed<U>)
    requires first.Got? && Stays(input, c, index, first) && Stays(input, first.cursor, index, second)
    requires |first.cursor.saved| == |c.saved|
    requires second.Got? ==> c.offset <= first.cursor.offset <= second.cursor.offset
    ensures Stays(input, c, index, second)
  {
    if second.Got? && NoSave(input.bytes, c.offset, second.cursor.offset, index) {
      NoSaveInside(input.bytes, c.offset, c.offset, first.cursor.offset, second.cursor.offset, index);
      NoSaveInside(input.bytes, c.offset, first.cursor.offset, second.cursor.offset, second.cursor.offset, index);
    }
  }

  lemma ReadersSaveNothing(input: Input, c: Cursor, index: nat, n: nat, limit: nat)
    requires InStream(input, c)
    ensures Stays(input, c, index, ReadByte(input, c)) && Stays(input, c, index, ReadBytes(input, c, n))
    ensures Stays(input, c, index, ReadWord(input, c, n)) && Stays(input, c, index, ReadBounded(input, c, limit))
    ensures Stays(input, c, index, ReadSized(input, c)) && Stays(input, c, index, ReadSaveIndex(input, c))
    ensures Stays(input, c, index, AtTerminator(input, c))
  {
  }

  predicate IsLeaf(code: byte) {
    match OpcodeOf(code)
    case Err(_) => true
    case Ok(op) =>
      !(op.PyEmptyTuple? || op.PyOneTuple? || op.PyTwoTuple? || op.PyTuple? || op.PyEmptyList? || op.PyOneList? || op.PyList?
        || op.PyDict? || op.PyObject? || op.PyObjectEx1? || op.PyObjectEx2? || op.PySubStruct? || op.PyChecksumedStream?
        || op.PyPackedRow?)
  }

  lemma LeavesSaveNothing(input: Input, c: Cursor, code: byte, depth: nat)
    requires InStream(input, c) && depth <= 64 && IsLeaf(code)
    ensures DecodeCode(input, c, code, depth).Got? ==> DecodeCode(input, c, code, depth).cursor.saved == c.saved
  {
    hide DecodeNested, DecodeValue;
  }

  lemma NestedCode(input: Input, c: Cursor, code: byte, depth: nat)
    requires InStream(input, c) && depth <= 64 && !IsLeaf(code)
    ensures OpcodeOf(code).Ok? && DecodeCode(input, c, code, depth) == DecodeNested(input, c, OpcodeOf(code).value, depth)
  {
    hide DecodeNested, DecodeValue, DecodeSigned, DecodeVarInteger, DecodeReal, DecodeChar, DecodeShortString, DecodeTableItem,
         DecodeWide, DecodeSavedElement, DecodeSized, ReadBounded, OpcodeOf;
  }

  // ------------------------------------------------------------------
  // Every value
  // ------------------------------------------------------------------

  /** Reading a value changes what is saved under an index only if one of its bytes begins a value saved there. */
  lemma {:induction false} ValueStays(input: Input, c: Cursor, depth: nat, index: nat)
    requires InStream(input, c) && depth <= 65
    ensures Stays(input, c, index, DecodeValue(input, c, depth))
    decreases 65 - depth, 2, 0
  {
    hide DecodeCode, NoSave, Word;
    var r := DecodeValue(input, c, depth);
    if r.Got? {
      var raw := input.bytes[c.offset];
      var begun := Cursor(c.offset + 1, c.saved, c.calls + 1);
      if raw < 0x40 {
        CodeStays(input, begun, raw, depth, index);
        OpcodeSavesNothing(input, c, begun, index, r);
      } else {
        FlaggedStays(input, c, begun, raw, depth, index);
      }
    }
  }

  lemma OpcodeSavesNothing<T>(input: Input, c: Cursor, begun: Cursor, index: nat, r: Parsed<T>)
    requires begun.saved == c.saved && begun.offset >= c.offset && Stays(input, begun, index, r)
    requires r.Got? ==> begun.offset <= r.cursor.offset
    ensures Stays(input, c, index, r)
  {
    if r.Got? && NoSave(input.bytes, c.offset, r.cursor.offset, index) {
      NoSaveInside(input.bytes, c.offset, begun.offset, r.cursor.offset, r.cursor.offset, index);
    }
  }

  // With the save flag the value is saved under another index, as the byte it begins with shows.
  lemma {:induction false} FlaggedStays(input: Input, c: Cursor, begun: Cursor, raw: byte, depth: nat, index: nat)
    requires InStream(input, c) && depth <= 64 && c.offset < |input.bytes| && raw == input.bytes[c.offset] >= 0x40
    requires begun == Cursor(c.offset + 1, c.saved, c.calls + 1) && DecodeValue(input, c, depth).Got?
    ensures Stays(input, c, index, DecodeValue(input, c, depth))
    decreases 65 - depth, 1, 1
  {
    hide DecodeCode, NoSave, Word;
    var saveAt := ReadSaveIndex(input, begun);
    assert raw < 0x80 && saveAt.Got?;
    WordReads(input, begun);
    var inner := DecodeCode(input, saveAt.cursor, raw % 0x40, depth);
    CodeStays(input, saveAt.cursor, raw % 0x40, depth, index);
    OpcodeSavesNothing(input, c, saveAt.cursor, index, inner);
    FlagShows(input, c, inner.cursor.offset, index);
  }

  lemma FlagShows(input: Input, c: Cursor, to: nat, index: nat)
    requires c.offset + 5 <= |input.bytes| && c.offset < to && 0x40 <= input.bytes[c.offset] < 0x80
    ensures NoSave(input.bytes, c.offset, to, index) ==> Word(input.bytes, c.offset + 1) != index
  {
    hide Word;
  }

  lemma {:induction false} CodeStays(input: Input, c: Cursor, code: byte, depth: nat, index: nat)
    requires InStream(input, c) && depth <= 64
    ensures Stays(input, c, index, DecodeCode(input, c, code, depth))
    decreases 65 - depth, 1, 0
  {
    hide DecodeCode, NoSave, IsLeaf, DecodeNested;
    if IsLeaf(code) {
      LeavesSaveNothing(input, c, code, depth);
    } else {
      NestedCode(input, c, code, depth);
      NestedStays(input, c, OpcodeOf(code).value, depth, index);
    }
  }

  lemma {:induction false} NestedStays(input: Input, c: Cursor, op: Opcode, depth: nat, index: nat)
    requires InStream(input, c) && depth <= 64
    ensures Stays(input, c, index, DecodeNested(input, c, op, depth))
    decreases 65 - depth, 0, 2
  {
    hide NoSave, DecodeValue, DecodeTuple, DecodeList, DecodeEntries, DecodeObject, DecodeObjectEx, DecodeChecksumed, DecodeRow,
         ReadBounded, Stays;
    match op {
      case PyEmptyTuple => ItemsStay(input, c, 0, depth, index);
      case PyOneTuple => ItemsStay(input, c, 1, depth, index);
      case PyTwoTuple => ItemsStay(input, c, 2, depth, index);
      case PyTuple => CountedStays(input, c, op, depth, index);
      case PyEmptyList => ItemsStay(input, c, 0, depth, index);
      case PyOneList => ItemsStay(input, c, 1, depth, index);
      case PyList => CountedStays(input, c, op, depth, index);
      case PyDict => DictStays(input, c, depth, index);
      case PyObject => ObjectStays(input, c, depth, index);
      case PyObjectEx1 => ObjectExStays(input, c, false, depth, index);
      case PyObjectEx2 => ObjectExStays(input, c, true, depth, index);
      case PySubStruct => SubStructStays(input, c, depth, index);
      case PyChecksumedStream => ChecksumedStays(input, c, depth, index);
      case PyPackedRow => RowStays(input, c, depth, index);
      case _ => FailureStays<Value>(input, c, index, BadFormat);
    }
  }

  lemma FailureStays<T>(input: Input, c: Cursor, index: nat, error: Error)
    ensures forall calls :: Stays<T>(input, c, index, Failed(error, calls))
  {
  }

  // What is made of a result keeps what the result keeps.
  lemma MadeStays<T, U>(input: Input, c: Cursor, index: nat, r: Parsed<T>, made: Parsed<U>)
    requires Stays(input, c, index, r) && (made.Got? ==> r.Got? && made.cursor == r.cursor)
    ensures Stays(input, c, index, made)
  {
  }

  lemma {:induction false} ItemsStay(input: Input, c: Cursor, count: nat, depth: nat, index: nat)
    requires InStream(input, c) && depth <= 64
    ensures Stays(input, c, index, DecodeTuple(input, c, count, depth))
    ensures Stays(input, c, index, DecodeList(input, c, count, depth))
    decreases 65 - depth, 0, 0
  {
    hide DecodeItems, Stays;
    SeveralStay(input, c, count, depth + 1, index);
    MadeStays(input, c, index, DecodeItems(input, c, count, depth + 1), DecodeTuple(input, c, count, depth));
    MadeStays(input, c, index, DecodeItems(input, c, count, depth + 1), DecodeList(input, c, count, depth));
  }

  lemma {:induction false} SeveralStay(input: Input, c: Cursor, count: nat, depth: nat, index: nat)
    requires InStream(input, c) && depth <= 65
    ensures Stays(input, c, index, DecodeItems(input, c, count, depth))
    decreases 65 - depth, 3, count
  {
    hide DecodeValue, Stays;
    if count == 0 {
      NothingReadStays(input, c, index, DecodeItems(input, c, count, depth));
    } else {
      var first := DecodeValue(input, c, depth);
      ValueStays(input, c, depth, index);
      if first.Got? {
        var rest := DecodeItems(input, first.cursor, count - 1, depth);
        SeveralStay(input, first.cursor, count - 1, depth, index);
        StaysTwice(input, c, index, first, rest);
        MadeStays(input, c, index, rest, DecodeItems(input, c, count, depth));
      } else {
        MadeStays(input, c, index, first, DecodeItems(input, c, count, depth));
      }
    }
  }

  lemma NothingReadStays<T>(input: Input, c: Cursor, index: nat, r: Parsed<T>)
    requires r.Got? ==> r.cursor.saved == c.saved
    ensures Stays(input, c, index, r)
  {
  }

  lemma {:induction false} EntriesStay(input: Input, c: Cursor, count: nat, depth: nat, index: nat)
    requires InStream(input, c) && depth <= 65
    ensures Stays(input, c, index, DecodeEntries(input, c, count, depth))
    decreases 65 - depth, 3, count
  {
    hide DecodeValue, Stays;
    var r := DecodeEntries(input, c, count, depth);
    if count == 0 || r.Failed? {
      NothingReadStays(input, c, index, r);
    } else {
      var value := DecodeValue(input, c, depth);
      var key := DecodeValue(input, value.cursor, depth);
      var rest := DecodeEntries(input, key.cursor, count - 1, depth);
      ValueStays(input, c, depth, index);
      ValueStays(input, value.cursor, depth, index);
      StaysTwice(input, c, index, value, key);
      EntriesStay(input, key.cursor, count - 1, depth, index);
      StaysTwice(input, c, index, key, rest);
      MadeStays(input, c, index, rest, r);
    }
  }

  lemma {:induction false} UntilStays(input: Input, c: Cursor, depth: nat, index: nat)
    requires InStream(input, c) && depth <= 65
    ensures Stays(input, c, index, DecodeUntil(input, c, depth))
    decreases 65 - depth, 3, |input.bytes| - c.offset
  {
    hide DecodeValue, Stays;
    var r := DecodeUntil(input, c, depth);
    if r.Failed? || AtTerminator(input, c).value {
      NothingReadStays(input, c, index, r);
    } else {
      var first := DecodeValue(input, c, depth);
      var rest := DecodeUntil(input, first.cursor, depth);
      ValueStays(input, c, depth, index);
      UntilStays(input, first.cursor, depth, index);
      StaysTwice(input, c, index, first, rest);
      MadeStays(input, c, index, rest, r);
    }
  }

  lemma {:induction false} PairsStay(input: Input, c: Cursor, depth: nat, index: nat)
    requires InStream(input, c) && depth <= 65
    ensures Stays(input, c, index, DecodePairs(input, c, depth))
    decreases 65 - depth, 3, |input.bytes| - c.offset
  {
    hide DecodeValue, Stays;
    var r := DecodePairs(input, c, depth);
    if r.Failed? || AtTerminator(input, c).value {
      NothingReadStays(input, c, index, r);
    } else {
      var key := DecodeValue(input, c, depth);
      var value := DecodeValue(input, key.cursor, depth);
      var rest := DecodePairs(input, value.cursor, depth);
      ValueStays(input, c, depth, index);
      ValueStays(input, key.cursor, depth, index);
      StaysTwice(input, c, index, key, value);
      PairsStay(input, value.cursor, depth, index);
      StaysTwice(input, c, index, value, rest);
      MadeStays(input, c, index, rest, r);
    }
  }

  // The containers that say how many parts they have.
  lemma {:induction false} CountedStays(input: Input, c: Cursor, op: Opcode, depth: nat, index: nat)
    requires InStream(input, c) && depth <= 64 && (op == PyTuple || op == PyList)
    ensures Stays(input, c, index, DecodeNested(input, c, op, depth))
    decreases 65 - depth, 0, 1
  {
    hide DecodeValue, Stays, DecodeTuple, DecodeList, DecodeEntries, ReadBounded;
    var r := DecodeNested(input, c, op, depth);
    if r.Failed? {
      NothingReadStays(input, c, index, r);
    } else {
      var count := ReadBounded(input, c, MAX_CONTAINER_COUNT);
      ReadersSaveNothing(input, c, index, 0, MAX_CONTAINER_COUNT);
      ItemsStay(input, count.cursor, count.value, depth, index);
      StaysTwice(input, c, index, count, r);
    }
  }

  lemma {:induction false} DictStays(input: Input, c: Cursor, depth: nat, index: nat)
    requires InStream(input, c) && depth <= 64
    ensures Stays(input, c, index, DecodeNested(input, c, PyDict, depth))
    decreases 65 - depth, 0, 0
  {
    hide DecodeValue, Stays, DecodeTuple, DecodeList, DecodeEntries, ReadBounded;
    var r := DecodeNested(input, c, PyDict, depth);
    if r.Failed? {
      NothingReadStays(input, c, index, r);
    } else {
      var count := ReadBounded(input, c, MAX_CONTAINER_COUNT);
      var entries := DecodeEntries(input, count.cursor, count.value, depth + 1);
      ReadersSaveNothing(input, c, index, 0, MAX_CONTAINER_COUNT);
      EntriesStay(input, count.cursor, count.value, depth + 1, index);
      StaysTwice(input, c, index, count, entries);
      MadeStays(input, c, index, entries, r);
    }
  }

  lemma {:induction false} ObjectStays(input: Input, c: Cursor, depth: nat, index: nat)
    requires InStream(input, c) && depth <= 64
    ensures Stays(input, c, index, DecodeObject(input, c, depth))
    decreases 65 - depth, 0, 0
  {
    hide DecodeValue, Stays;
    var r := DecodeObject(input, c, depth);
    if r.Failed? {
      NothingReadStays(input, c, index, r);
    } else {
      var typeName := DecodeValue(input, c, depth + 1);
      var args := DecodeValue(input, typeName.cursor, depth + 1);
      ValueStays(input, c, depth + 1, index);
      ValueStays(input, typeName.cursor, depth + 1, index);
      StaysTwice(input, c, index, typeName, args);
      MadeStays(input, c, index, args, r);
    }
  }

  lemma {:induction false} ObjectExStays(input: Input, c: Cursor, isType2: bool, depth: nat, index: nat)
    requires InStream(input, c) && depth <= 64
    ensures Stays(input, c, index, DecodeObjectEx(input, c, isType2, depth))
    decreases 65 - depth, 0, 0
  {
    hide DecodeValue, DecodeUntil, DecodePairs, Stays;
    var r := DecodeObjectEx(input, c, isType2, depth);
    if r.Failed? {
      NothingReadStays(input, c, index, r);
    } else {
      var header := DecodeValue(input, c, depth + 1);
      var list := DecodeUntil(input, header.cursor, depth + 1);
      var dict := DecodePairs(input, list.cursor, depth + 1);
      ValueStays(input, c, depth + 1, index);
      UntilStays(input, header.cursor, depth + 1, index);
      StaysTwice(input, c, index, header, list);
      PairsStay(input, list.cursor, depth + 1, index);
      StaysTwice(input, c, index, list, dict);
      MadeStays(input, c, index, dict, r);
    }
  }

  lemma {:induction false} SubStructStays(input: Input, c: Cursor, depth: nat, index: nat)
    requires InStream(input, c) && depth <= 64
    ensures Stays(input, c, index, DecodeNested(input, c, PySubStruct, depth))
    decreases 65 - depth, 0, 0
  {
    hide DecodeValue, Stays;
    ValueStays(input, c, depth + 1, index);
    MadeStays(input, c, index, DecodeValue(input, c, depth + 1), DecodeNested(input, c, PySubStruct, depth));
  }

  lemma {:induction false} ChecksumedStays(input: Input, c: Cursor, depth: nat, index: nat)
    requires InStream(input, c) && depth <= 64
    ensures Stays(input, c, index, DecodeChecksumed(input, c, depth))
    decreases 65 - depth, 0, 0
  {
    hide DecodeValue, Stays, ReadWord;
    var r := DecodeChecksumed(input, c, depth);
    if r.Failed? {
      NothingReadStays(input, c, index, r);
    } else {
      var checksum := ReadWord(input, c, 4);
      ReadersSaveNothing(input, c, index, 4, 0);
      ValueStays(input, checksum.cursor, depth + 1, index);
      StaysTwice(input, c, index, checksum, DecodeValue(input, checksum.cursor, depth + 1));
      MadeStays(input, c, index, DecodeValue(input, checksum.cursor, depth + 1), r);
    }
  }

  lemma {:induction false} TrailingStays(input: Input, c: Cursor, indexes: seq<nat>, values: seq<Value>, depth: nat, index: nat)
    requires InStream(input, c) && depth <= 65 && AllBelow(indexes, |values|)
    ensures Stays(input, c, index, DecodeTrailing(input, c, indexes, values, depth))
    decreases 65 - depth, 3, |indexes|
  {
    hide DecodeValue, Stays;
    var r := DecodeTrailing(input, c, indexes, values, depth);
    if indexes == [] || r.Failed? {
      NothingReadStays(input, c, index, r);
    } else {
      var value := DecodeValue(input, c, depth);
      ValueStays(input, c, depth, index);
      TrailingStays(input, value.cursor, indexes[1..], values[indexes[0] := value.value], depth, index);
      StaysTwice(input, c, index, value, r);
    }
  }

  lemma {:induction false} RowBodyStays(input: Input, c: Cursor, columns: seq<Column>, depth: nat, index: nat)
    requires InStream(input, c) && depth <= 65
    ensures Stays(input, c, index, DecodeRowBody(input, c, columns, depth))
    decreases 65 - depth, 4, 0
  {
    hide DecodeValue, Stays, DecodeTrailing, DecodeFields, ReadSized;
    var r := DecodeRowBody(input, c, columns, depth);
    if r.Failed? {
      NothingReadStays(input, c, index, r);
    } else {
      var rle := ReadSized(input, c);
      var fields, order := DecodeFields(columns, rle.value), SizeOrder(columns);
      ReadersSaveNothing(input, c, index, 0, 0);
      SizeOrderIsSorted(columns);
      TrailingBelow(columns, order, |columns|);
      TrailingStays(input, rle.cursor, Trailing(columns, order), fields.value, depth, index);
      StaysTwice(input, c, index, rle, DecodeTrailing(input, rle.cursor, Trailing(columns, order), fields.value, depth));
      MadeStays(input, c, index, DecodeTrailing(input, rle.cursor, Trailing(columns, order), fields.value, depth), r);
    }
  }

  lemma {:induction false} RowStays(input: Input, c: Cursor, depth: nat, index: nat)
    requires InStream(input, c) && depth <= 64
    ensures Stays(input, c, index, DecodeRow(input, c, depth))
    decreases 65 - depth, 0, 0
  {
    hide DecodeValue, Stays, DecodeRowBody, ExtractColumns;
    var r := DecodeRow(input, c, depth);
    if r.Failed? {
      NothingReadStays(input, c, index, r);
    } else {
      var header := DecodeValue(input, c, depth + 1);
      ValueStays(input, c, depth + 1, index);
      RowBodyStays(input, header.cursor, ExtractColumns(header.value).value, depth + 1, index);
      StaysTwice(input, c, index, header, r);
    }
  }

  // ------------------------------------------------------------------
  // The value last saved
  // ------------------------------------------------------------------

  lemma {:induction false} InARowStays(input: Input, c: Cursor, depth: nat, items: seq<Value>, next: Cursor, index: nat)
    requires InStream(input, c) && depth <= 65 && InARow(input, c, depth, items, next)
    requires 1 <= index <= |c.saved| && NoSave(input.bytes, c.offset, next.offset, index)
    ensures |next.saved| == |c.saved| && next.saved[index - 1] == c.saved[index - 1] && InStream(input, next)
    ensures c.offset <= next.offset
    decreases |items|
  {
    hide DecodeValue, Stays, NoSave;
    ItemsInARow(input, c, depth, items, next);
    SeveralStay(input, c, |items|, depth, index);
    GotStays(input, c, index, DecodeItems(input, c, |items|, depth));
  }

  lemma GotStays<T>(input: Input, c: Cursor, index: nat, r: Parsed<T>)
    requires Stays(input, c, index, r) && r.Got? && |r.cursor.saved| == |c.saved| && 1 <= index <= |c.saved|
    requires NoSave(input.bytes, c.offset, r.cursor.offset, index)
    ensures r.cursor.saved[index - 1] == c.saved[index - 1]
  {
  }

  /** A saved element is the value last saved under its index: whatever values come between the two, if none of
      their bytes begins a value saved under that index. */
  lemma LastSavedComesBack(input: Input, c: Cursor, depth: nat, code: byte, begun: Cursor, index: nat, behind: Cursor,
                           between: seq<Value>, next: Cursor, again: Cursor)
    requires Opens(input, c, depth, code, begun, Some(index)) && DecodeValue(input, c, depth).Got?
    requires behind == DecodeValue(input, c, depth).cursor && InARow(input, behind, depth, between, next)
    requires NoSave(input.bytes, behind.offset, next.offset, index)
    requires Opens(input, next, depth, 0x1B, again, None) && SizeAt(input.bytes, again.offset).Some?
    requires SizeAt(input.bytes, again.offset).value.0 == index <= 0x10_0000
    ensures DecodeValue(input, next, depth).Got? && DecodeValue(input, next, depth).value == DecodeValue(input, c, depth).value
  {
    hide DecodeValue, DecodeCode, SizeAt, Opens, NoSave, InARow;
    BeginsWithSaves(input, c, depth, code, begun, Some(index));
    Begins(input, c, depth, code, begun, Some(index));
    var r := DecodeValue(input, c, depth);
    assert 1 <= index <= |behind.saved| && behind.saved[index - 1] == Some(r.value);
    InARowStays(input, behind, depth, between, next, index);
    SavedElementReads(input, next, depth, again, None);
    BeginsWithSaves(input, next, depth, 0x1B, again, None);
  }
}
