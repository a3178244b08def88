/** The shared string table: a string is found by hash and then by content. */
module StringTable {
  import opened Bytes
  import opened Options

  const STRING_TABLE_ERROR: nat := 0
  const STRING_TABLE_SIZE: nat := 195

  // Any table of the right size; its entries are not part of this model.
  type Table = t: seq<seq<byte>> | |t| == STRING_TABLE_SIZE witness seq(STRING_TABLE_SIZE, _ => [])

  function Djb2(text: seq<byte>): Word32 {
    if text == [] then 5381 else (Djb2(text[..|text| - 1]) * 33 + text[|text| - 1]) % 0x1_0000_0000
  }

  method Djb2Hash(text: seq<byte>) returns (hash: Word32)
    ensures hash == Djb2(text)
  {
    hash := 5381;
    for i := 0 to |text|
      invariant hash == Djb2(text[..i])
    {
      assert text[..i + 1][..i] == text[..i];
      hash := (hash * 33 + text[i]) % 0x1_0000_0000;
    }
    assert text[..|text|] == text;
  }

  // The index, from 1, of the first entry from position `i` on that equals `text`.
  function IndexFrom(table: Table, text: seq<byte>, i: nat): (index: Option<byte>)
    requires i <= |table|
    ensures index.Some? ==> i < index.value <= |table| && table[index.value - 1] == text
    ensures index.None? ==> text !in table[i..]
    decreases |table| - i
  {
    if i == |table| then None
    else if table[i] == text then Some(i + 1)
    else
      var index := IndexFrom(table, text, i + 1);
      assert table[i..] == [table[i]] + table[i + 1..];
      index
  }

  function IndexOf(table: Table, text: seq<byte>): (index: Option<byte>)
    ensures index.Some? <==> text in table
    ensures index.Some? ==> 1 <= index.value <= |table| && table[index.value - 1] == text
  {
    assert table[0..] == table;
    IndexFrom(table, text, 0)
  }

  // The hash only saves comparisons: equal strings have equal hashes.
  method LookupStringIndex(table: Table, text: seq<byte>) returns (index: Option<byte>)
    ensures index == IndexOf(table, text)
  {
    var target := Djb2Hash(text);
    for i := 0 to |table|
      invariant IndexOf(table, text) == IndexFrom(table, text, i)
    {
      var hash := Djb2Hash(table[i]);
      if hash == target && text == table[i] {
        return Some(i + 1);
      }
    }
    index := None;
  }

  function LookupString(table: Table, index: byte): (text: Option<seq<byte>>)
    ensures text.Some? <==> 1 <= index <= STRING_TABLE_SIZE
  {
    if index == STRING_TABLE_ERROR || index > STRING_TABLE_SIZE then None else Some(table[index - 1])
  }

  /** A string found in the table is the string its index stands for. */
  lemma LookupUndone(table: Table, text: seq<byte>)
    requires IndexOf(table, text).Some?
    ensures LookupString(table, IndexOf(table, text).value) == Some(text)
  {
  }

  lemma {:induction false} NoneBefore(table: Table, text: seq<byte>, i: nat)
    requires i <= |table| && IndexFrom(table, text, i).Some?
    ensures forall j :: i <= j < IndexFrom(table, text, i).value - 1 ==> table[j] != text
    decreases |table| - i
  {
    if i < |table| && table[i] != text {
      NoneBefore(table, text, i + 1);
    }
  }

  /** Of several equal entries the first is found, counted from one. */
  lemma FirstIsFound(table: Table, text: seq<byte>, i: nat)
    ensures IndexOf(table, text) == Some(i) <==>
      1 <= i <= 195 && table[i - 1] == text && forall j :: 0 <= j < i - 1 ==> table[j] != text
  {
    if IndexOf(table, text).Some? {
      NoneBefore(table, text, 0);
    }
  }
}
