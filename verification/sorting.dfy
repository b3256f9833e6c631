/**
 * Ordering cities by position: the in-place sort the program performs
 * with its comparator, and a reference sort on positions that states
 * the order the rest of the model relies on.
 */
module Sorting {
  import opened Cities

  /** A sorted sequence stays sorted when an element no larger than its head goes in front. */
  lemma SortedCons(h: int, t: seq<int>)
    requires Sorted(t) && (t == [] || h <= t[0])
    ensures Sorted([h] + t)
  {
    forall j, k | 0 <= j < k < |[h] + t|
      ensures ([h] + t)[j] <= ([h] + t)[k]
    {
      if j == 0 {
        assert t[0] <= t[k - 1];
      }
    }
  }

  /** Puts `x` into its place in the sorted `s`. */
  function Insert(x: int, s: seq<int>): (r: seq<int>)
    requires Sorted(s)
    ensures Sorted(r)
    ensures multiset(r) == multiset(s) + multiset{x}
    ensures |r| == |s| + 1 && (r[0] == x || (s != [] && r[0] == s[0]))
  {
    if s == [] || x <= s[0] then
      SortedCons(x, s);
      [x] + s
    else
      SortedTail(s);
      var rest := Insert(x, s[1..]);
      SortedCons(s[0], rest);
      [s[0]] + rest
  }

  /** The positions `s` in non-decreasing order. */
  function SortInts(s: seq<int>): (r: seq<int>)
    ensures Sorted(r)
    ensures multiset(r) == multiset(s)
  {
    if s == [] then []
    else
      assert s == [s[0]] + s[1..];
      Insert(s[0], SortInts(s[1..]))
  }

  /** Removing the first element of a sorted sequence. */
  lemma SortedTail(a: seq<int>)
    requires a != [] && Sorted(a)
    ensures Sorted(a[1..])
    ensures a == [a[0]] + a[1..]
  {
  }

  lemma TailMultiset(a: seq<int>)
    requires a != []
    ensures multiset(a[1..]) == multiset(a) - multiset{a[0]}
  {
    assert a == [a[0]] + a[1..];
  }

  /** Two sorted sequences with the same elements start with the same element. */
  lemma SortedHeadsAgree(a: seq<int>, b: seq<int>)
    requires Sorted(a) && Sorted(b) && a != [] && b != []
    requires multiset(a) == multiset(b)
    ensures a[0] == b[0]
  {
    assert a[0] in multiset(b) && b[0] in multiset(a);
    var j :| 0 <= j < |b| && b[j] == a[0];
    var k :| 0 <= k < |a| && a[k] == b[0];
  }

  /** There is only one sorted arrangement of a multiset of positions. */
  lemma {:induction false} SortedPermutationsAgree(a: seq<int>, b: seq<int>)
    requires Sorted(a) && Sorted(b)
    requires multiset(a) == multiset(b)
    ensures a == b
  {
    if a == [] || b == [] {
      assert |a| == |multiset(a)| == |multiset(b)| == |b|;
    } else {
      SortedHeadsAgree(a, b);
      TailMultiset(a);
      TailMultiset(b);
      SortedTail(a);
      SortedTail(b);
      SortedPermutationsAgree(a[1..], b[1..]);
    }
  }

  /** The index of a city with the smallest position in `a[lo..]`. */
  method MinIndexFrom(a: array<City>, lo: nat) returns (m: nat)
    requires lo < a.Length
    ensures lo <= m < a.Length
    ensures forall k :: lo <= k < a.Length ==> a[m].position <= a[k].position
  {
    m := lo;
    for k := lo + 1 to a.Length
      invariant lo <= m < a.Length
      invariant forall j :: lo <= j < k ==> a[m].position <= a[j].position
    {
      if Compare(a[k], a[m]) < 0 {
        m := k;
      }
    }
  }

  /** The first `i` cities are in order and none is after a city further right. */
  predicate SelectedPrefix(cs: seq<City>, i: nat)
    requires i <= |cs|
  {
    && SortedByPosition(cs[..i])
    && forall j, k :: 0 <= j < i <= k < |cs| ==> cs[j].position <= cs[k].position
  }

  /** Exchanging the city at `i` with a leftmost-positioned one of `cs[i..]` extends the selected prefix. */
  lemma SelectionStep(cs: seq<City>, i: nat, m: nat)
    requires i <= m < |cs| && SelectedPrefix(cs, i)
    requires forall k :: i <= k < |cs| ==> cs[m].position <= cs[k].position
    ensures SelectedPrefix(cs[i := cs[m]][m := cs[i]], i + 1)
    ensures multiset(cs[i := cs[m]][m := cs[i]]) == multiset(cs)
  {
    var ds := cs[i := cs[m]][m := cs[i]];
    forall j, k | 0 <= j < k < i + 1
      ensures ds[j].position <= ds[k].position
    {
      assert cs[..i][j] == cs[j];
      if k < i {
        assert cs[..i][k] == cs[k];
      }
    }
  }

  /**
   * Sorts the cities by position, in place, using `Compare`. The result
   * is ordered and holds the same cities; the order among cities at the
   * same position is not specified.
   */
  method SortByPosition(a: array<City>)
    modifies a
    ensures SortedByPosition(a[..])
    ensures multiset(a[..]) == old(multiset(a[..]))
  {
    for i := 0 to a.Length
      invariant SelectedPrefix(a[..], i)
      invariant multiset(a[..]) == old(multiset(a[..]))
    {
      var m := MinIndexFrom(a, i);
      SelectionStep(a[..], i, m);
      var c := a[i];
      a[i] := a[m];
      a[m] := c;
    }
    assert a[..a.Length] == a[..];
  }

  /** A sorted arrangement of some cities has the reference order of their positions. */
  lemma SortedCitiesPositions(cs: seq<City>, ds: seq<City>)
    requires SortedByPosition(ds)
    requires multiset(ds) == multiset(cs)
    ensures Positions(ds) == SortInts(Positions(cs))
  {
    PositionsPermutation(ds, cs);
    SortedPermutationsAgree(Positions(ds), SortInts(Positions(cs)));
  }
}
