/** `invert_abstract_to_abstract` and `clean_abstract` of predictor.py: an
    abstract arrives as an inverted index (each word with the positions it
    occupies) and is written back out as text. */
module AbstractText {
  import opened Wrappers
  import Strings
  import TextCleaning

  /** The parsed JSON object: `IndexLength` and the entries of `InvertedIndex`
      in the object's order (the order Python's dict iterates them in). */
  datatype InvertedIndex = InvertedIndex(indexLength: int, entries: seq<(string, seq<int>)>)

  /** Only abstracts of more than 30 and fewer than 1000 words are rebuilt. */
  predicate InRange(n: int) { 30 < n < 1000 }

  /** The slot of a Python list of length `n` that index `p` refers to;
      negative indices count from the end. */
  function Slot(p: int, n: int): int { if p < 0 then p + n else p }

  /** Every position can be written into the list of `IndexLength` slots;
      any other position makes the assignment raise `IndexError`. */
  predicate PositionsValid(inv: InvertedIndex)
  {
    InRange(inv.indexLength) ==>
      forall k, j :: 0 <= k < |inv.entries| && 0 <= j < |inv.entries[k].1| ==>
        -inv.indexLength <= inv.entries[k].1[j] < inv.indexLength
  }

  /** Some position in `pos` refers to slot `i`. */
  predicate Hits(pos: seq<int>, n: int, i: int)
    decreases |pos|
  {
    |pos| > 0 && (Slot(pos[|pos| - 1], n) == i || Hits(pos[..|pos| - 1], n, i))
  }

  /** The word left in slot `i` after writing the entries in order: the key of
      the last entry that hits `i`, or the initial `" "`. */
  function WordAt(entries: seq<(string, seq<int>)>, n: int, i: int): string
    decreases |entries|
  {
    if |entries| == 0 then " "
    else if Hits(entries[|entries| - 1].1, n, i) then entries[|entries| - 1].0
    else WordAt(entries[..|entries| - 1], n, i)
  }

  /** The list `abstract` before it is joined. */
  function Words(inv: InvertedIndex): seq<string>
    requires inv.indexLength >= 0
  {
    seq(inv.indexLength, i requires 0 <= i < inv.indexLength => WordAt(inv.entries, inv.indexLength, i))
  }

  /** What `invert_abstract_to_abstract` returns, `None` standing for Python's `None`. */
  function Inverted(inv: InvertedIndex): Option<string>
  {
    if InRange(inv.indexLength) then Some(Strings.Join(Words(inv), ' ')) else None
  }

  lemma {:induction false} HitsIff(pos: seq<int>, n: int, i: int)
    ensures Hits(pos, n, i) <==> exists j :: 0 <= j < |pos| && Slot(pos[j], n) == i
    decreases |pos|
  {
    if |pos| > 0 {
      var init := pos[..|pos| - 1];
      HitsIff(init, n, i);
      if Hits(init, n, i) {
        var j :| 0 <= j < |init| && Slot(init[j], n) == i;
        assert pos[j] == init[j];
      }
      if exists j :: 0 <= j < |pos| && Slot(pos[j], n) == i {
        var j :| 0 <= j < |pos| && Slot(pos[j], n) == i;
        if j < |pos| - 1 {
          assert init[j] == pos[j];
        }
      }
    }
  }

  /** Slot `i` holds the key of the last entry one of whose positions refers
      to it, and `" "` when no entry does. */
  lemma {:induction false} WordAtIsLastKey(entries: seq<(string, seq<int>)>, n: int, i: int)
    ensures (forall k :: 0 <= k < |entries| ==> !Hits(entries[k].1, n, i)) ==> WordAt(entries, n, i) == " "
    ensures (exists k :: 0 <= k < |entries| && Hits(entries[k].1, n, i)) ==>
      exists k :: 0 <= k < |entries| && Hits(entries[k].1, n, i)
        && WordAt(entries, n, i) == entries[k].0
        && forall k' :: k < k' < |entries| ==> !Hits(entries[k'].1, n, i)
    decreases |entries|
  {
    if |entries| > 0 {
      var m := |entries| - 1;
      var init := entries[..m];
      WordAtIsLastKey(init, n, i);
      if !Hits(entries[m].1, n, i) {
        assert forall k :: 0 <= k < m ==> init[k] == entries[k];
        if exists k :: 0 <= k < |entries| && Hits(entries[k].1, n, i) {
          var k0 :| 0 <= k0 < |entries| && Hits(entries[k0].1, n, i);
          assert Hits(init[k0].1, n, i);
        }
      }
    }
  }

  /** `invert_abstract_to_abstract` after its JSON parse: fill a list of
      `IndexLength` blanks, write each key at each of its positions, join with spaces. */
  method InvertAbstract(inv: InvertedIndex) returns (r: Option<string>)
    requires PositionsValid(inv)
    ensures !InRange(inv.indexLength) ==> r == None
    ensures InRange(inv.indexLength) ==> r == Some(Strings.Join(Words(inv), ' '))
    ensures r == Inverted(inv)
  {
    var n := inv.indexLength;
    if !InRange(n) {
      return None;
    }
    var slots := new string[n](_ => " ");
    var entries := inv.entries;
    for k := 0 to |entries|
      invariant forall i :: 0 <= i < n ==> slots[i] == WordAt(entries[..k], n, i)
    {
      var (key, value) := entries[k];
      for j := 0 to |value|
        invariant forall i :: 0 <= i < n ==>
          slots[i] == if Hits(value[..j], n, i) then key else WordAt(entries[..k], n, i)
      {
        var p := value[j];
        slots[Slot(p, n)] := key;
        assert value[..j + 1][..j] == value[..j];
      }
      assert value[..|value|] == value;
      assert entries[..k + 1][..k] == entries[..k];
    }
    assert entries[..|entries|] == entries;
    assert slots[..] == Words(inv);
    r := Some(Strings.Join(slots[..], ' '));
  }

  /** `clean_abstract(abstract, inverted)`: an inverted abstract that is present
      is first rebuilt (parsed by `parse`, standing for `json.loads`), then the
      text is cleaned; a rebuilt `None` cleans to `""`. */
  function CleanAbstract(doc: Field, inverted: bool, parse: string -> InvertedIndex): (r: string)
    requires inverted && Truthy(doc) ==> doc.Text? && PositionsValid(parse(doc.s))
    ensures TextCleaning.IsClean(r)
    ensures !inverted ==> r == TextCleaning.CleanText(doc)
    ensures inverted && !Truthy(doc) ==> r == ""
    ensures inverted && Truthy(doc) && !InRange(parse(doc.s).indexLength) ==> r == ""
    ensures inverted && Truthy(doc) && InRange(parse(doc.s).indexLength) ==>
      r == TextCleaning.CleanText(Text(Strings.Join(Words(parse(doc.s)), ' ')))
  {
    if inverted && Truthy(doc) then
      match Inverted(parse(doc.s))
      case Some(text) => TextCleaning.CleanText(Text(text))
      case None => TextCleaning.CleanText(Null)
    else
      assert inverted && !Truthy(doc) ==> TextCleaning.CleanText(doc) == "";
      TextCleaning.CleanText(doc)
  }
}
