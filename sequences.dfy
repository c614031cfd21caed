/** Row selection (`df[mask]`) and column-wise mapping over a table, with the
    facts the pipeline needs about them: selection keeps the relative order of
    the rows it keeps, and both only depend on the multiset of rows. */
module Sequences {

  /** `df[mask]`: the elements that satisfy `keep`, in their original order. */
  function Filter<T>(s: seq<T>, keep: T -> bool): seq<T>
  {
    if s == [] then []
    else Filter(s[..|s| - 1], keep) + (if keep(s[|s| - 1]) then [s[|s| - 1]] else [])
  }

  /** The positions of the elements that `Filter` keeps. */
  function KeptPositions<T>(s: seq<T>, keep: T -> bool): seq<int>
  {
    if s == [] then []
    else KeptPositions(s[..|s| - 1], keep) + (if keep(s[|s| - 1]) then [|s| - 1] else [])
  }

  predicate StrictlyIncreasing(p: seq<int>)
  {
    forall j, k :: 0 <= j < k < |p| ==> p[j] < p[k]
  }

  lemma {:induction false} FilterLength<T>(s: seq<T>, keep: T -> bool)
    ensures |Filter(s, keep)| == |KeptPositions(s, keep)|
  {
    if s != [] {
      FilterLength(s[..|s| - 1], keep);
    }
  }

  /** Position j of the selection holds the element at position p[j] of the
      input, which satisfies `keep`. */
  lemma {:induction false} FilterAt<T>(s: seq<T>, keep: T -> bool, j: int)
    requires 0 <= j < |KeptPositions(s, keep)|
    ensures var p := KeptPositions(s, keep);
      |Filter(s, keep)| == |p| && 0 <= p[j] < |s| && Filter(s, keep)[j] == s[p[j]] && keep(s[p[j]])
  {
    var init := s[..|s| - 1];
    FilterLength(s, keep);
    FilterLength(init, keep);
    if j < |KeptPositions(init, keep)| {
      FilterAt(init, keep, j);
      assert init[KeptPositions(init, keep)[j]] == s[KeptPositions(init, keep)[j]];
    }
  }

  /** The kept positions are strictly increasing: the relative order of the
      selected rows is the order they had in the input. */
  lemma {:induction false} PositionsIncreasing<T>(s: seq<T>, keep: T -> bool)
    ensures StrictlyIncreasing(KeptPositions(s, keep))
    ensures forall j :: 0 <= j < |KeptPositions(s, keep)| ==> 0 <= KeptPositions(s, keep)[j] < |s|
  {
    if s != [] {
      PositionsIncreasing(s[..|s| - 1], keep);
    }
  }

  /** Every position whose element satisfies `keep` is kept. */
  lemma {:induction false} PositionsComplete<T>(s: seq<T>, keep: T -> bool, i: int)
    requires 0 <= i < |s| && keep(s[i])
    ensures i in KeptPositions(s, keep)
  {
    var init := s[..|s| - 1];
    if i < |s| - 1 {
      assert init[i] == s[i];
      PositionsComplete(init, keep, i);
    }
  }

  /** An element is selected exactly when it occurs and satisfies `keep`. */
  lemma {:induction false} FilterMultiset<T>(s: seq<T>, keep: T -> bool, x: T)
    ensures multiset(Filter(s, keep))[x] == if keep(x) then multiset(s)[x] else 0
  {
    if s != [] {
      var init := s[..|s| - 1];
      FilterMultiset(init, keep, x);
      assert s == init + [s[|s| - 1]];
    }
  }

  lemma MultisetExtensionality<T>(m: multiset<T>, n: multiset<T>)
    requires forall x :: m[x] == n[x]
    ensures m == n
  {
  }

  /** Selection only depends on the multiset of its input. */
  lemma {:induction false} FilterPermutation<T>(a: seq<T>, b: seq<T>, keep: T -> bool)
    requires multiset(a) == multiset(b)
    ensures multiset(Filter(a, keep)) == multiset(Filter(b, keep))
  {
    var fa, fb := multiset(Filter(a, keep)), multiset(Filter(b, keep));
    forall x
      ensures fa[x] == fb[x]
    {
      FilterMultiset(a, keep, x);
      FilterMultiset(b, keep, x);
    }
    MultisetExtensionality(fa, fb);
  }

  /** A column computed row by row. */
  function MapSeq<T, U>(s: seq<T>, f: T --> U): (r: seq<U>)
    requires forall x :: x in s ==> f.requires(x)
    ensures |r| == |s|
  {
    seq(|s|, i requires 0 <= i < |s| => f(s[i]))
  }

  lemma MapHas<T, U>(s: seq<T>, f: T --> U, x: T)
    requires forall x :: x in s ==> f.requires(x)
    requires x in s
    ensures f(x) in MapSeq(s, f)
  {
    var i :| 0 <= i < |s| && s[i] == x;
    assert MapSeq(s, f)[i] == f(x);
  }

  lemma MapAppend<T, U>(s: seq<T>, t: seq<T>, f: T --> U)
    requires forall x :: x in s + t ==> f.requires(x)
    ensures MapSeq(s + t, f) == MapSeq(s, f) + MapSeq(t, f)
  {
  }

  /** Taking out the element at position j takes one copy of it out of the multiset. */
  lemma RemoveAt<T>(b: seq<T>, j: int)
    requires 0 <= j < |b|
    ensures multiset(b) == multiset(b[..j] + b[j + 1..]) + multiset{b[j]}
  {
    assert b == b[..j] + [b[j]] + b[j + 1..];
  }

  lemma Cancel<T>(m: multiset<T>, n: multiset<T>, x: T)
    requires m + multiset{x} == n + multiset{x}
    ensures m == n
  {
    forall y
      ensures m[y] == n[y]
    {
      assert (m + multiset{x})[y] == (n + multiset{x})[y];
    }
    MultisetExtensionality(m, n);
  }

  /** Dropping position j of the input drops position j of the column. */
  lemma MapRemoveAt<T, U>(b: seq<T>, j: int, f: T --> U)
    requires forall x :: x in b ==> f.requires(x)
    requires 0 <= j < |b|
    ensures forall x :: x in b[..j] + b[j + 1..] ==> f.requires(x)
    ensures MapSeq(b[..j] + b[j + 1..], f) == MapSeq(b, f)[..j] + MapSeq(b, f)[j + 1..]
  {
    var rest := b[..j] + b[j + 1..];
    assert forall i :: 0 <= i < |rest| ==> rest[i] == b[if i < j then i else i + 1];
  }

  /** Computing a column row by row only depends on the multiset of rows. */
  lemma {:induction false} MapPermutation<T, U>(a: seq<T>, b: seq<T>, f: T --> U)
    requires forall x :: x in a ==> f.requires(x)
    requires forall x :: x in b ==> f.requires(x)
    requires multiset(a) == multiset(b)
    ensures multiset(MapSeq(a, f)) == multiset(MapSeq(b, f))
    decreases |a|
  {
    if a == [] {
      assert |multiset(b)| == 0;
    } else {
      var n := |a| - 1;
      var x := a[n];
      assert x in multiset(b);
      var j :| 0 <= j < |b| && b[j] == x;
      var a', b' := a[..n] + a[n + 1..], b[..j] + b[j + 1..];
      RemoveAt(a, n);
      RemoveAt(b, j);
      Cancel(multiset(a'), multiset(b'), x);
      MapRemoveAt(a, n, f);
      MapRemoveAt(b, j, f);
      MapPermutation(a', b', f);
      RemoveAt(MapSeq(a, f), n);
      RemoveAt(MapSeq(b, f), j);
    }
  }

  /** An element y of a computed column is the image of some element. */
  lemma MapSource<T, U>(s: seq<T>, f: T --> U, y: U) returns (i: int)
    requires forall x :: x in s ==> f.requires(x)
    requires y in MapSeq(s, f)
    ensures 0 <= i < |s| && y == f(s[i])
  {
    i :| 0 <= i < |MapSeq(s, f)| && MapSeq(s, f)[i] == y;
  }

  /** Every selected element satisfies `keep`. */
  lemma FilterAll<T>(s: seq<T>, keep: T -> bool)
    ensures forall x :: x in Filter(s, keep) ==> keep(x) && x in s
  {
    forall x | x in Filter(s, keep)
      ensures keep(x) && x in s
    {
      FilterMultiset(s, keep, x);
    }
  }

  /** `df[mask]` keeps exactly the elements that satisfy the mask. */
  lemma FilterMembership<T>(s: seq<T>, keep: T -> bool)
    ensures forall x :: x in Filter(s, keep) <==> x in s && keep(x)
  {
    FilterAll(s, keep);
    forall x | x in s && keep(x)
      ensures x in Filter(s, keep)
    {
      FilterMultiset(s, keep, x);
    }
  }

  predicate NoDuplicates<T(==)>(s: seq<T>)
  {
    forall i, j :: 0 <= i < j < |s| ==> s[i] != s[j]
  }

  /** `unique()`: the elements of s, each once, in order of first appearance. */
  function Distinct<T(==)>(s: seq<T>): seq<T>
  {
    if s == [] then []
    else
      var d := Distinct(s[..|s| - 1]);
      if s[|s| - 1] in d then d else d + [s[|s| - 1]]
  }

  lemma {:induction false} DistinctElements<T>(s: seq<T>)
    ensures NoDuplicates(Distinct(s))
    ensures forall x :: x in Distinct(s) <==> x in s
  {
    if s != [] {
      var init := s[..|s| - 1];
      DistinctElements(init);
      assert s == init + [s[|s| - 1]];
    }
  }

  lemma {:induction false} NoDuplicatesCount<T>(s: seq<T>, x: T)
    requires NoDuplicates(s)
    ensures multiset(s)[x] == if x in s then 1 else 0
  {
    if s != [] {
      var init := s[..|s| - 1];
      assert s == init + [s[|s| - 1]];
      NoDuplicatesCount(init, x);
    }
  }

  /** Two duplicate-free sequences with the same elements are permutations of
      each other. */
  lemma SameElements<T>(a: seq<T>, b: seq<T>)
    requires NoDuplicates(a) && NoDuplicates(b)
    requires forall x :: x in a <==> x in b
    ensures multiset(a) == multiset(b)
  {
    forall x
      ensures multiset(a)[x] == multiset(b)[x]
    {
      NoDuplicatesCount(a, x);
      NoDuplicatesCount(b, x);
    }
    MultisetExtensionality(multiset(a), multiset(b));
  }
}
