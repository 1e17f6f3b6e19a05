/** The store collection as an ordered sequence whose 0-based positions are
    the records' only identifiers. Appending goes at the end; removing and
    replacing are addressed by position and are bounds-checked first. */
module Collection {
  import opened Outcomes

  /** True when `index` addresses an existing position of `s`. */
  predicate InRange<T>(s: seq<T>, index: int) {
    0 <= index < |s|
  }

  /** What a successful removal hands back: the record that was at the
      position, and the collection without it. */
  datatype Removal<T> = Removal(removed: T, rest: seq<T>)

  /** Appends `x` as the new last record; every earlier position keeps its
      record. */
  function Append<T>(s: seq<T>, x: T): (r: seq<T>)
    ensures |r| == |s| + 1
    ensures forall j :: 0 <= j < |s| ==> r[j] == s[j]
    ensures r[|s|] == x
  {
    s + [x]
  }

  /** Removes the record at `index`, shifting every later record down by one
      position; an index outside the collection is reported as OutOfRange. */
  function RemoveAt<T>(s: seq<T>, index: int): (r: Result<Removal<T>>)
    ensures r.Err? <==> !InRange(s, index)
    ensures r.Err? ==> r.error == OutOfRange
    ensures r.Ok? ==> r.value.removed == s[index] && |r.value.rest| == |s| - 1
    ensures r.Ok? ==> forall j :: 0 <= j < index ==> r.value.rest[j] == s[j]
    ensures r.Ok? ==> forall j :: index <= j < |r.value.rest| ==> r.value.rest[j] == s[j + 1]
  {
    if !InRange(s, index) then Err(OutOfRange)
    else Ok(Removal(s[index], s[..index] + s[index + 1..]))
  }

  /** Overwrites the record at `index` in place; an index outside the
      collection is reported as OutOfRange. */
  function ReplaceAt<T>(s: seq<T>, index: int, x: T): (r: Result<seq<T>>)
    ensures r.Err? <==> !InRange(s, index)
    ensures r.Err? ==> r.error == OutOfRange
    ensures r.Ok? ==> |r.value| == |s| && r.value[index] == x
    ensures r.Ok? ==> forall j :: 0 <= j < |s| && j != index ==> r.value[j] == s[j]
  {
    if !InRange(s, index) then Err(OutOfRange)
    else Ok(s[index := x])
  }

  /** Inserts `x` so that it lands at position `index`: the inverse of a
      removal at that position. */
  function InsertAt<T>(s: seq<T>, index: nat, x: T): (r: seq<T>)
    requires index <= |s|
    ensures |r| == |s| + 1 && r[index] == x
    ensures forall j :: 0 <= j < index ==> r[j] == s[j]
    ensures forall j :: index < j < |r| ==> r[j] == s[j - 1]
  {
    s[..index] + [x] + s[index..]
  }

  /** Putting the removed record back where it was restores the collection. */
  lemma RemoveAtThenInsert<T>(s: seq<T>, index: int)
    requires InRange(s, index)
    ensures RemoveAt(s, index).Ok?
    ensures InsertAt(RemoveAt(s, index).value.rest, index, RemoveAt(s, index).value.removed) == s
  {
  }

  /** Removing a freshly inserted record gives back the record and the
      collection it was inserted into. */
  lemma InsertThenRemoveAt<T>(s: seq<T>, index: nat, x: T)
    requires index <= |s|
    ensures RemoveAt(InsertAt(s, index, x), index) == Ok(Removal(x, s))
  {
    var t := InsertAt(s, index, x);
    var rest := RemoveAt(t, index).value.rest;
    assert |rest| == |s|;
    forall j | 0 <= j < |s|
      ensures rest[j] == s[j]
    {
      if j >= index {
        assert rest[j] == t[j + 1] == s[j];
      }
    }
    assert rest == s;
  }

  /** Removing the record that was just appended undoes the append. */
  lemma AppendThenRemoveLast<T>(s: seq<T>, x: T)
    ensures RemoveAt(Append(s, x), |s|) == Ok(Removal(x, s))
  {
    assert Append(s, x) == InsertAt(s, |s|, x);
    InsertThenRemoveAt(s, |s|, x);
  }

  /** A removal takes exactly one occurrence of the removed record out of the
      collection and leaves every other record in it. */
  lemma RemoveAtMultiset<T>(s: seq<T>, index: int)
    requires InRange(s, index)
    ensures RemoveAt(s, index).Ok?
    ensures multiset(s) == multiset(RemoveAt(s, index).value.rest) + multiset{s[index]}
  {
    assert s == s[..index] + [s[index]] + s[index + 1..];
  }

  /** A replacement swaps one occurrence of the old record for the new one. */
  lemma ReplaceAtMultiset<T>(s: seq<T>, index: int, x: T)
    requires InRange(s, index)
    ensures ReplaceAt(s, index, x).Ok?
    ensures multiset(ReplaceAt(s, index, x).value) + multiset{s[index]} == multiset(s) + multiset{x}
  {
  }

  /** Writing the old record back over a replacement restores the collection. */
  lemma ReplaceAtRestore<T>(s: seq<T>, index: int, x: T)
    requires InRange(s, index)
    ensures ReplaceAt(s, index, x).Ok?
    ensures ReplaceAt(ReplaceAt(s, index, x).value, index, s[index]) == Ok(s)
  {
    var t := ReplaceAt(s, index, x).value;
    assert t[index := s[index]] == s;
  }

  /** Of two replacements at the same position only the later one shows. */
  lemma ReplaceAtLastWins<T>(s: seq<T>, index: int, x: T, y: T)
    requires InRange(s, index)
    ensures ReplaceAt(s, index, x).Ok?
    ensures ReplaceAt(ReplaceAt(s, index, x).value, index, y) == ReplaceAt(s, index, y)
  {
    var t := ReplaceAt(s, index, x).value;
    assert t[index := y] == s[index := y];
  }
}
