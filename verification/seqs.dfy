/** Generic helpers on sequences. */
module Seqs {

  /** Applies `f` to every element of `s`, keeping the order. */
  function Map<A, B>(f: A --> B, s: seq<A>): (r: seq<B>)
    requires forall x :: x in s ==> f.requires(x)
    ensures |r| == |s|
    ensures forall i :: 0 <= i < |s| ==> r[i] == f(s[i])
  {
    seq(|s|, i requires 0 <= i < |s| => f(s[i]))
  }

  /** `s` without its element at index `j`. */
  function RemoveAt<A>(s: seq<A>, j: nat): (r: seq<A>)
    requires j < |s|
    ensures multiset(r) + multiset{s[j]} == multiset(s)
  {
    assert s == s[..j] + [s[j]] + s[j + 1..];
    s[..j] + s[j + 1..]
  }

  lemma MapRemoveAt<A, B>(f: A --> B, s: seq<A>, j: nat)
    requires j < |s|
    requires forall x :: x in s ==> f.requires(x)
    ensures multiset(Map(f, s)) == multiset(Map(f, RemoveAt(s, j))) + multiset{f(s[j])}
  {
    var m := Map(f, s);
    assert m == m[..j] + [m[j]] + m[j + 1..];
    assert Map(f, RemoveAt(s, j)) == m[..j] + m[j + 1..];
  }

  /** Mapping two permutations of one another gives two permutations of one another. */
  lemma {:induction false} MapPermutation<A, B>(f: A --> B, s: seq<A>, t: seq<A>)
    requires forall x :: x in s ==> f.requires(x)
    requires forall x :: x in t ==> f.requires(x)
    requires multiset(s) == multiset(t)
    ensures multiset(Map(f, s)) == multiset(Map(f, t))
  {
    if s == [] {
      assert |t| == |multiset(t)| == 0;
    } else {
      assert s[0] in multiset(t);
      var j :| 0 <= j < |t| && t[j] == s[0];
      var rest := RemoveAt(t, j);
      RemovedPermutation(s, t, j);
      MapPermutation(f, RemoveAt(s, 0), rest);
      MapRemoveAt(f, s, 0);
      MapRemoveAt(f, t, j);
    }
  }

  /** Taking one equal element out of two permutations leaves two permutations. */
  lemma RemovedPermutation<A>(s: seq<A>, t: seq<A>, j: nat)
    requires s != [] && j < |t| && t[j] == s[0]
    requires multiset(s) == multiset(t)
    ensures multiset(RemoveAt(s, 0)) == multiset(RemoveAt(t, j))
  {
    assert multiset(RemoveAt(s, 0)) == multiset(s) - multiset{s[0]};
    assert multiset(RemoveAt(t, j)) == multiset(t) - multiset{t[j]};
  }
}
