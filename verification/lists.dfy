/** The list operations the store applies to a user's `pendingTasks`:
    MongoDB's `$pull` and `$addToSet`, and `Array.from(new Set(list))`. */
module Lists {

  import opened Common

  predicate NoDuplicates(s: seq<Id>)
  {
    forall i, j :: 0 <= i < j < |s| ==> s[i] != s[j]
  }

  /** `s` with every element of `xs` removed, the rest in order
      (`$pull` of one id is `Without(s, {id})`; `filter` by "not listed" too). */
  function Without(s: seq<Id>, xs: set<Id>): (r: seq<Id>)
    ensures forall x :: x in r <==> x in s && x !in xs
    ensures |r| <= |s|
    ensures NoDuplicates(s) ==> NoDuplicates(r)
  {
    if s == [] then []
    else
      var rest := Without(s[1..], xs);
      if s[0] in xs then rest
      else
        assert forall k :: 0 <= k < |rest| ==> rest[k] in s[1..];
        [s[0]] + rest
  }

  /** Removing two sets one after the other is removing their union. */
  lemma {:induction false} WithoutTwice(s: seq<Id>, xs: set<Id>, ys: set<Id>)
    ensures Without(Without(s, xs), ys) == Without(s, xs + ys)
  {
    if s != [] {
      WithoutTwice(s[1..], xs, ys);
    }
  }

  /** Removing elements that are not listed changes nothing. */
  lemma {:induction false} WithoutAbsent(s: seq<Id>, xs: set<Id>)
    requires forall x :: x in xs ==> x !in s
    ensures Without(s, xs) == s
  {
    if s != [] {
      WithoutAbsent(s[1..], xs);
      assert [s[0]] + s[1..] == s;
    }
  }

  /** `$addToSet`: append `x` unless it is already listed. */
  function AddToSet(s: seq<Id>, x: Id): (r: seq<Id>)
    ensures x in r
    ensures forall y :: y in r <==> y in s || y == x
    ensures x in s ==> r == s
    ensures NoDuplicates(s) ==> NoDuplicates(r)
  {
    if x in s then s else s + [x]
  }

  /** Adding the same element twice is adding it once. */
  lemma AddToSetIdempotent(s: seq<Id>, x: Id)
    ensures AddToSet(AddToSet(s, x), x) == AddToSet(s, x)
  {
  }

  /** `Array.from(new Set(s))`: the first occurrence of each element, in order. */
  function Dedup(s: seq<Id>): (r: seq<Id>)
    ensures NoDuplicates(r)
    ensures forall x :: x in r <==> x in s
    ensures |r| <= |s|
    decreases |s|
  {
    if s == [] then []
    else
      var prefix := Dedup(s[..|s| - 1]);
      var last := s[|s| - 1];
      assert forall x :: x in s <==> x in s[..|s| - 1] || x == last;
      if last in prefix then prefix else prefix + [last]
  }

  /** A list without duplicates is its own de-duplication. */
  lemma {:induction false} DedupOfDistinct(s: seq<Id>)
    requires NoDuplicates(s)
    ensures Dedup(s) == s
  {
    if s != [] {
      var init := s[..|s| - 1];
      DedupOfDistinct(init);
      assert s[|s| - 1] !in init;
      assert init + [s[|s| - 1]] == s;
    }
  }

  /** De-duplicating twice is de-duplicating once. */
  lemma DedupIdempotent(s: seq<Id>)
    ensures Dedup(Dedup(s)) == Dedup(s)
  {
    DedupOfDistinct(Dedup(s));
  }

  /** The elements of `s` that `keep` accepts, in order. */
  function Filter(s: seq<Id>, keep: Id -> bool): (r: seq<Id>)
    ensures forall x :: x in r <==> x in s && keep(x)
    ensures |r| <= |s|
    ensures |r| == |s| <==> forall x :: x in s ==> keep(x)
    ensures (forall x :: x in s ==> keep(x)) ==> r == s
  {
    if s == [] then []
    else
      var rest := Filter(s[1..], keep);
      assert forall x :: x in s <==> x == s[0] || x in s[1..];
      if keep(s[0]) then [s[0]] + rest else rest
  }
}
