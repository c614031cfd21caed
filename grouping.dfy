/** `groupby(key).mean()` on a table given as a sequence of rows: one mean per
    key that occurs, over the rows with that key. A key with no rows has no
    entry at all (pandas writes NaN there, which the join later drops). */
module Grouping {
  import opened Sequences

  /** Number of rows in group k. */
  function Count<T, K(==)>(s: seq<T>, key: T -> K, k: K): nat
  {
    if s == [] then 0
    else Count(s[..|s| - 1], key, k) + (if key(s[|s| - 1]) == k then 1 else 0)
  }

  /** Sum of `val` over the rows of group k. */
  function Sum<T, K(==)>(s: seq<T>, key: T -> K, val: T -> real, k: K): real
  {
    if s == [] then 0.0
    else Sum(s[..|s| - 1], key, val, k) + (if key(s[|s| - 1]) == k then val(s[|s| - 1]) else 0.0)
  }

  /** The keys that occur. */
  function Groups<T, K>(s: seq<T>, key: T -> K): set<K>
  {
    set i | 0 <= i < |s| :: key(s[i])
  }

  /** The arithmetic mean of `val` over the rows of group k. */
  function Mean<T, K(==)>(s: seq<T>, key: T -> K, val: T -> real, k: K): real
    requires k in Groups(s, key)
  {
    CountPositive(s, key, k);
    Sum(s, key, val, k) / (Count(s, key, k) as real)
  }

  function GroupMean<T, K(==)>(s: seq<T>, key: T -> K, val: T -> real): map<K, real>
  {
    map k | k in Groups(s, key) :: Mean(s, key, val, k)
  }

  lemma {:induction false} CountPositive<T, K>(s: seq<T>, key: T -> K, k: K)
    requires k in Groups(s, key)
    ensures Count(s, key, k) > 0
  {
    var i :| 0 <= i < |s| && key(s[i]) == k;
    var n := |s| - 1;
    if i < n {
      assert s[..n][i] == s[i];
      CountPositive(s[..n], key, k);
    }
  }

  /** A key has a mean exactly when some row carries it: row i's key has one... */
  lemma GroupHas<T, K>(s: seq<T>, key: T -> K, val: T -> real, i: int)
    requires 0 <= i < |s|
    ensures key(s[i]) in GroupMean(s, key, val)
  {
  }

  /** ... and every key that has one is carried by some row i. */
  lemma GroupSource<T, K>(s: seq<T>, key: T -> K, val: T -> real, k: K) returns (i: int)
    requires k in GroupMean(s, key, val)
    ensures 0 <= i < |s| && key(s[i]) == k
  {
    i :| 0 <= i < |s| && key(s[i]) == k;
  }

  lemma MeanAt<T, K>(s: seq<T>, key: T -> K, val: T -> real, k: K)
    requires k in GroupMean(s, key, val)
    ensures Count(s, key, k) > 0
    ensures GroupMean(s, key, val)[k] == Sum(s, key, val, k) / (Count(s, key, k) as real)
  {
    CountPositive(s, key, k);
  }

  /** The plain sum of a sequence of reals. */
  function Total(s: seq<real>): real
  {
    if s == [] then 0.0 else Total(s[..|s| - 1]) + s[|s| - 1]
  }

  /** The rows of group k, as `df[df[key] == k]` selects them. */
  function InGroup<T, K(==)>(key: T -> K, k: K): T -> bool
  {
    (x: T) => key(x) == k
  }

  lemma TotalAppend(a: seq<real>, x: real)
    ensures Total(a + [x]) == Total(a) + x
  {
    assert (a + [x])[..|a|] == a;
  }

  /** Count and Sum agree with selecting the group's rows and summing their values. */
  lemma {:induction false} TallyFilter<T, K>(s: seq<T>, key: T -> K, val: T -> real, k: K)
    ensures Count(s, key, k) == |Filter(s, InGroup(key, k))|
    ensures Sum(s, key, val, k) == Total(MapSeq(Filter(s, InGroup(key, k)), val))
  {
    if s != [] {
      var n := |s| - 1;
      var init := s[..n];
      var g := Filter(init, InGroup(key, k));
      TallyFilter(init, key, val, k);
      if key(s[n]) == k {
        assert Filter(s, InGroup(key, k)) == g + [s[n]];
        MapAppend(g, [s[n]], val);
        assert MapSeq([s[n]], val) == [val(s[n])];
        TotalAppend(MapSeq(g, val), val(s[n]));
      } else {
        assert Filter(s, InGroup(key, k)) == g;
      }
    }
  }

  /** A group's mean is the average of the values of the rows selected by its
      key: their total divided by how many there are. */
  lemma MeanIsAverage<T, K>(s: seq<T>, key: T -> K, val: T -> real, k: K)
    requires k in GroupMean(s, key, val)
    ensures var g := Filter(s, InGroup(key, k));
      |g| > 0 && GroupMean(s, key, val)[k] == Total(MapSeq(g, val)) / (|g| as real)
  {
    MeanAt(s, key, val, k);
    TallyFilter(s, key, val, k);
  }

  /** Adding one value of at least lo to a group keeps its sum at least its
      size times lo. */
  lemma StepAbove(c: real, x: real, c': real, x': real, v: real, lo: real)
    requires c * lo <= x && lo <= v
    requires c' == c + 1.0 && x' == x + v
    ensures c' * lo <= x'
  {
  }

  /** Adding one value of at most hi keeps the sum at most its size times hi. */
  lemma StepBelow(c: real, x: real, c': real, x': real, v: real, hi: real)
    requires x <= c * hi && v <= hi
    requires c' == c + 1.0 && x' == x + v
    ensures x' <= c' * hi
  {
  }

  /** A mean is at least any lower bound of the total it divides. */
  lemma DivAbove(x: real, c: real, m: real, lo: real)
    requires c > 0.0 && m == x / c && c * lo <= x
    ensures lo <= m
  {
  }

  /** A mean is at most any upper bound of the total it divides. */
  lemma DivBelow(x: real, c: real, m: real, hi: real)
    requires c > 0.0 && m == x / c && x <= c * hi
    ensures m <= hi
  {
  }

  /** The sum of a group is at least its size times a lower bound of its values. */
  lemma {:induction false} SumAbove<T, K>(s: seq<T>, key: T -> K, val: T -> real, k: K, lo: real)
    requires forall i :: 0 <= i < |s| && key(s[i]) == k ==> lo <= val(s[i])
    ensures (Count(s, key, k) as real) * lo <= Sum(s, key, val, k)
  {
    if s != [] {
      var n := |s| - 1;
      var init := s[..n];
      forall i | 0 <= i < n && key(init[i]) == k
        ensures lo <= val(init[i])
      {
        assert init[i] == s[i];
      }
      SumAbove(init, key, val, k, lo);
      if key(s[n]) == k {
        StepAbove(Count(init, key, k) as real, Sum(init, key, val, k),
          Count(s, key, k) as real, Sum(s, key, val, k), val(s[n]), lo);
      }
    }
  }

  /** The sum of a group is at most its size times an upper bound of its values. */
  lemma {:induction false} SumBelow<T, K>(s: seq<T>, key: T -> K, val: T -> real, k: K, hi: real)
    requires forall i :: 0 <= i < |s| && key(s[i]) == k ==> val(s[i]) <= hi
    ensures Sum(s, key, val, k) <= (Count(s, key, k) as real) * hi
  {
    if s != [] {
      var n := |s| - 1;
      var init := s[..n];
      forall i | 0 <= i < n && key(init[i]) == k
        ensures val(init[i]) <= hi
      {
        assert init[i] == s[i];
      }
      SumBelow(init, key, val, k, hi);
      if key(s[n]) == k {
        StepBelow(Count(init, key, k) as real, Sum(init, key, val, k),
          Count(s, key, k) as real, Sum(s, key, val, k), val(s[n]), hi);
      }
    }
  }

  lemma MeanAbove<T, K>(s: seq<T>, key: T -> K, val: T -> real, k: K, lo: real)
    requires k in GroupMean(s, key, val)
    requires forall i :: 0 <= i < |s| && key(s[i]) == k ==> lo <= val(s[i])
    ensures lo <= GroupMean(s, key, val)[k]
  {
    MeanAt(s, key, val, k);
    SumAbove(s, key, val, k, lo);
    DivAbove(Sum(s, key, val, k), Count(s, key, k) as real, GroupMean(s, key, val)[k], lo);
  }

  lemma MeanBelow<T, K>(s: seq<T>, key: T -> K, val: T -> real, k: K, hi: real)
    requires k in GroupMean(s, key, val)
    requires forall i :: 0 <= i < |s| && key(s[i]) == k ==> val(s[i]) <= hi
    ensures GroupMean(s, key, val)[k] <= hi
  {
    MeanAt(s, key, val, k);
    SumBelow(s, key, val, k, hi);
    DivBelow(Sum(s, key, val, k), Count(s, key, k) as real, GroupMean(s, key, val)[k], hi);
  }

  /** The mean of a group lies between any bounds of its values. */
  lemma MeanBounds<T, K>(s: seq<T>, key: T -> K, val: T -> real, k: K, lo: real, hi: real)
    requires k in GroupMean(s, key, val)
    requires forall i :: 0 <= i < |s| && key(s[i]) == k ==> lo <= val(s[i]) <= hi
    ensures lo <= GroupMean(s, key, val)[k] <= hi
  {
    MeanAbove(s, key, val, k, lo);
    MeanBelow(s, key, val, k, hi);
  }

  lemma {:induction false} TallyAppend<T, K>(a: seq<T>, b: seq<T>, key: T -> K, val: T -> real, k: K)
    ensures Count(a + b, key, k) == Count(a, key, k) + Count(b, key, k)
    ensures Sum(a + b, key, val, k) == Sum(a, key, val, k) + Sum(b, key, val, k)
    decreases |b|
  {
    if b != [] {
      var n := |b| - 1;
      assert (a + b)[..|a + b| - 1] == a + b[..n];
      TallyAppend(a, b[..n], key, val, k);
    } else {
      assert a + b == a;
    }
  }

  /** Count and sum of a group only depend on the multiset of rows. */
  lemma {:induction false} TallyPermutation<T, K>(a: seq<T>, b: seq<T>, key: T -> K, val: T -> real, k: K)
    requires multiset(a) == multiset(b)
    ensures Count(a, key, k) == Count(b, key, k)
    ensures Sum(a, key, val, k) == Sum(b, key, val, k)
    decreases |a|
  {
    if a == [] {
      assert |multiset(b)| == 0;
    } else {
      var n := |a| - 1;
      var x := a[n];
      assert x in multiset(b);
      var j :| 0 <= j < |b| && b[j] == x;
      var a', b1, b2 := a[..n], b[..j], b[j + 1..];
      RemoveAt(a, n);
      RemoveAt(b, j);
      assert a[..n] + a[n + 1..] == a';
      Cancel(multiset(a'), multiset(b1 + b2), x);
      assert a == a' + [x];
      assert b == b1 + [x] + b2;
      TallyPermutation(a', b1 + b2, key, val, k);
      TallyAppend(b1, b2, key, val, k);
      TallyAppend(b1 + [x], b2, key, val, k);
    }
  }

  /** `groupby(key).mean()` does not depend on the order of the rows. */
  lemma GroupPermutation<T, K>(a: seq<T>, b: seq<T>, key: T -> K, val: T -> real)
    requires multiset(a) == multiset(b)
    ensures GroupMean(a, key, val) == GroupMean(b, key, val)
  {
    forall k | k in Groups(a, key)
      ensures k in Groups(b, key)
    {
      var i :| 0 <= i < |a| && key(a[i]) == k;
      assert a[i] in multiset(b);
    }
    forall k | k in Groups(b, key)
      ensures k in Groups(a, key)
    {
      var i :| 0 <= i < |b| && key(b[i]) == k;
      assert b[i] in multiset(a);
    }
    forall k | k in Groups(a, key)
      ensures Mean(a, key, val, k) == Mean(b, key, val, k)
    {
      TallyPermutation(a, b, key, val, k);
    }
  }
}
