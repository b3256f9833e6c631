/** The road and its cities, as the loader builds them. */
module Cities {
  import opened Seqs

  /** A city: its integer offset along the road and its name. */
  datatype City = City(position: int, name: string)

  /** A road of length `length` holding `cities` in the order they were read. */
  datatype Road = Road(length: int, cities: seq<City>)

  /**
   * The comparator handed to the sort: its sign is the sign of
   * `a.position - b.position` (integers here are unbounded).
   */
  function Compare(a: City, b: City): (r: int)
    ensures r < 0 <==> a.position < b.position
    ensures r == 0 <==> a.position == b.position
    ensures r > 0 <==> a.position > b.position
  {
    a.position - b.position
  }

  function PositionOf(c: City): int {
    c.position
  }

  /** The positions of `cs`, in the same order. */
  function Positions(cs: seq<City>): (ps: seq<int>)
    ensures |ps| == |cs|
    ensures forall i :: 0 <= i < |cs| ==> ps[i] == cs[i].position
  {
    Map(PositionOf, cs)
  }

  /** The numbers `ps` never decrease from left to right. */
  predicate Sorted(ps: seq<int>) {
    forall j, k :: 0 <= j < k < |ps| ==> ps[j] <= ps[k]
  }

  /** Positions never decrease from left to right. */
  predicate SortedByPosition(cs: seq<City>) {
    Sorted(Positions(cs))
  }

  /** Permuting the cities permutes their positions. */
  lemma PositionsPermutation(cs: seq<City>, ds: seq<City>)
    requires multiset(cs) == multiset(ds)
    ensures multiset(Positions(cs)) == multiset(Positions(ds))
  {
    MapPermutation(PositionOf, cs, ds);
  }
}
