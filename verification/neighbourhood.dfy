/**
 * Query A: the size of the smallest neighbourhood on the road. The
 * cities are sorted by position; city i owns the stretch from the
 * midpoint with its left neighbour (0 for the first city) to the
 * midpoint with its right neighbour (T for the last city).
 */
module Neighbourhood {
  import opened Wrappers
  import opened Cities
  import opened Records
  import opened Loader
  import opened Sorting

  /** Where the neighbourhood of the i-th of the sorted positions `ps` begins. */
  function Start(ps: seq<int>, i: nat): real
    requires i < |ps|
  {
    if i == 0 then 0.0 else (ps[i] + ps[i - 1]) as real / 2.0
  }

  /** Where the neighbourhood of the i-th of the sorted positions `ps` ends. */
  function End(t: int, ps: seq<int>, i: nat): real
    requires i < |ps|
  {
    if i == |ps| - 1 then t as real else (ps[i] + ps[i + 1]) as real / 2.0
  }

  /** The size of the i-th neighbourhood. */
  function Width(t: int, ps: seq<int>, i: nat): real
    requires i < |ps|
  {
    End(t, ps, i) - Start(ps, i)
  }

  /** The running minimum after the first k neighbourhoods, started at T. */
  function MinWidth(t: int, ps: seq<int>, k: nat): real
    requires k <= |ps|
  {
    if k == 0 then t as real
    else
      var width := Width(t, ps, k - 1);
      var m := MinWidth(t, ps, k - 1);
      if width < m then width else m
  }

  /** The running minimum is min(T, smallest of the first k neighbourhoods). */
  lemma {:induction false} MinWidthIsMinimum(t: int, ps: seq<int>, k: nat)
    requires k <= |ps|
    ensures MinWidth(t, ps, k) <= t as real
    ensures forall i :: 0 <= i < k ==> MinWidth(t, ps, k) <= Width(t, ps, i)
    ensures MinWidth(t, ps, k) == t as real || exists i :: 0 <= i < k && MinWidth(t, ps, k) == Width(t, ps, i)
  {
    if k > 0 {
      MinWidthIsMinimum(t, ps, k - 1);
    }
  }

  /** The total size of the first k neighbourhoods. */
  function WidthSum(t: int, ps: seq<int>, k: nat): real
    requires k <= |ps|
  {
    if k == 0 then 0.0 else WidthSum(t, ps, k - 1) + Width(t, ps, k - 1)
  }

  /** The first k neighbourhoods cover [0, End(k - 1)] without gaps or overlaps. */
  lemma {:induction false} WidthsTile(t: int, ps: seq<int>, k: nat)
    requires 1 <= k <= |ps|
    ensures WidthSum(t, ps, k) == End(t, ps, k - 1)
  {
    if k > 1 {
      WidthsTile(t, ps, k - 1);
      assert Start(ps, k - 1) == End(t, ps, k - 2);
    }
  }

  /** Together the neighbourhoods cover the whole road [0, T]. */
  lemma NeighbourhoodsCoverRoad(t: int, ps: seq<int>)
    requires |ps| >= 1
    ensures WidthSum(t, ps, |ps|) == t as real
  {
    WidthsTile(t, ps, |ps|);
  }

  lemma {:induction false} WidthSumNonNegative(t: int, ps: seq<int>, k: nat)
    requires k <= |ps|
    requires forall i :: 0 <= i < k ==> Width(t, ps, i) >= 0.0
    ensures WidthSum(t, ps, k) >= 0.0
  {
    if k > 0 {
      WidthSumNonNegative(t, ps, k - 1);
    }
  }

  /**
   * With at least two cities on a road of positive length some
   * neighbourhood is smaller than T, so the running minimum always ends
   * on an actual neighbourhood.
   */
  lemma MinWidthBelowLength(t: int, ps: seq<int>)
    requires t > 0 && |ps| >= 2
    ensures MinWidth(t, ps, |ps|) < t as real
    ensures exists i :: 0 <= i < |ps| && MinWidth(t, ps, |ps|) == Width(t, ps, i)
  {
    var n := |ps|;
    MinWidthIsMinimum(t, ps, n);
    NeighbourhoodsCoverRoad(t, ps);
    if MinWidth(t, ps, n) == t as real {
      WidthSumNonNegative(t, ps, n - 2);
      assert false;
    }
  }

  /** Query A on a loaded road: neighbourhoods are taken over the sorted positions. */
  function SmallestOf(road: Road): real {
    var ps := SortInts(Positions(road.cities));
    MinWidth(road.length, ps, |ps|)
  }

  /** Query A on a file: -1.0 when the road cannot be loaded. */
  function SmallestNeighbourhoodResult(f: RoadFile): real {
    match Load(f)
    case None => -1.0
    case Some(road) => SmallestOf(road)
  }

  /**
   * The scan of Query A over the sorted city array: the running minimum
   * starts at T and takes every neighbourhood that is strictly smaller.
   */
  method ScanWidths(t: int, a: array<City>) returns (r: real)
    ensures r == MinWidth(t, Positions(a[..]), a.Length)
  {
    ghost var ps := Positions(a[..]);
    var n := a.Length;
    r := t as real;
    for i := 0 to n
      invariant r == MinWidth(t, ps, i)
    {
      var start := if i == 0 then 0.0 else (a[i].position + a[i - 1].position) as real / 2.0;
      var end := if i == n - 1 then t as real else (a[i].position + a[i + 1].position) as real / 2.0;
      var width := end - start;
      if width < r {
        r := width;
      }
    }
  }

  /**
   * Query A as the program runs it: load, sort the city array in place,
   * then scan it.
   */
  method SmallestNeighbourhood(f: RoadFile) returns (r: real)
    ensures r == SmallestNeighbourhoodResult(f)
  {
    var road := GetRoad(f);
    if road.None? {
      return -1.0;
    }
    var t, cities := road.value.length, road.value.cities;
    var a := new City[|cities|](i requires 0 <= i < |cities| => cities[i]);
    assert a[..] == cities;
    SortByPosition(a);
    SortedCitiesPositions(cities, a[..]);
    r := ScanWidths(t, a);
  }

  /** With sorted positions inside [0, T], no neighbourhood is negative. */
  lemma WidthNonNegative(t: int, ps: seq<int>, i: nat)
    requires Sorted(ps) && i < |ps|
    requires forall j :: 0 <= j < |ps| ==> 0 <= ps[j] <= t
    ensures Width(t, ps, i) >= 0.0
  {
    if i > 0 {
      assert ps[i - 1] <= ps[i] <= t;
    }
    if i < |ps| - 1 {
      assert 0 <= ps[i] <= ps[i + 1];
      if i > 0 {
        assert ps[i - 1] <= ps[i + 1];
      }
    }
  }

  /** Every position of the sorted sequence is the position of some city. */
  lemma SortedPositionsAreCityPositions(cs: seq<City>, j: nat)
    requires j < |SortInts(Positions(cs))|
    ensures exists k :: 0 <= k < |cs| && cs[k].position == SortInts(Positions(cs))[j]
  {
    var ps := SortInts(Positions(cs));
    assert ps[j] in multiset(Positions(cs));
    var k :| 0 <= k < |cs| && Positions(cs)[k] == ps[j];
  }

  /**
   * A successful Query A is below T, and when every city lies on the road
   * it is not negative either, so it cannot be mistaken for the failure
   * value -1.0.
   */
  lemma SmallestInRange(f: RoadFile)
    requires Load(f).Some?
    ensures SmallestNeighbourhoodResult(f) < Load(f).value.length as real
    ensures (forall c :: c in Load(f).value.cities ==> 0 <= c.position <= Load(f).value.length)
            ==> 0.0 <= SmallestNeighbourhoodResult(f) && SmallestNeighbourhoodResult(f) != -1.0
  {
    SmallestOfInRange(Load(f).value);
  }

  lemma SmallestOfInRange(road: Road)
    requires road.length > 0 && |road.cities| >= 2
    ensures SmallestOf(road) < road.length as real
    ensures (forall c :: c in road.cities ==> 0 <= c.position <= road.length) ==> 0.0 <= SmallestOf(road)
  {
    var ps := SortInts(Positions(road.cities));
    MinWidthBelowLength(road.length, ps);
    if forall c :: c in road.cities ==> 0 <= c.position <= road.length {
      forall j | 0 <= j < |ps| ensures 0 <= ps[j] <= road.length {
        SortedPositionsAreCityPositions(road.cities, j);
      }
      forall i | 0 <= i < |ps| ensures Width(road.length, ps, i) >= 0.0 {
        WidthNonNegative(road.length, ps, i);
      }
    }
  }

  /** Query A depends only on T and the multiset of city positions. */
  lemma SmallestIgnoresCityOrder(r1: Road, r2: Road)
    requires r1.length == r2.length
    requires multiset(Positions(r1.cities)) == multiset(Positions(r2.cities))
    ensures SmallestOf(r1) == SmallestOf(r2)
  {
    SortedPermutationsAgree(SortInts(Positions(r1.cities)), SortInts(Positions(r2.cities)));
  }

  /**
   * Reordering the first N record lines of a file, or changing the lines
   * after them, does not change Query A.
   */
  lemma SmallestIgnoresRecordOrder(f: RoadFile, g: RoadFile)
    requires f.length == g.length && f.count == g.count
    requires f.count.Some? && f.count.value <= |f.records| && f.count.value <= |g.records|
    requires 0 <= f.count.value ==> multiset(f.records[..f.count.value]) == multiset(g.records[..f.count.value])
    ensures SmallestNeighbourhoodResult(f) == SmallestNeighbourhoodResult(g)
  {
    LoadPermutation(f, g);
    if Load(f).Some? {
      PositionsPermutation(Load(f).value.cities, Load(g).value.cities);
      SmallestIgnoresCityOrder(Load(f).value, Load(g).value);
    }
  }

  /** Two cities at the two ends of the road split it in half. */
  lemma CitiesAtBothEnds(t: int, a: string, b: string)
    requires MIN_LENGTH <= t <= MAX_LENGTH
    requires ValidName(a) && ValidName(b)
    ensures SmallestNeighbourhoodResult(FileOf(Road(t, [City(0, a), City(t, b)]))) == t as real / 2.0
  {
    var road := Road(t, [City(0, a), City(t, b)]);
    LoadFileOf(road);
    assert Positions(road.cities) == [0, t];
    SortTwo(0, t);
    HalvesOfTheRoad(t);
  }

  lemma SortTwo(x: int, y: int)
    requires x <= y
    ensures SortInts([x, y]) == [x, y]
  {
    assert [x, y][1..] == [y];
  }

  lemma HalvesOfTheRoad(t: int)
    requires t > 0
    ensures MinWidth(t, [0, t], 2) == t as real / 2.0
  {
    var ps := [0, t];
    assert Width(t, ps, 0) == t as real / 2.0 && Width(t, ps, 1) == t as real / 2.0;
    assert MinWidth(t, ps, 1) == t as real / 2.0;
  }

  lemma TwoCitiesSmallest()
    ensures SmallestOf(Road(10, [City(2, "A"), City(8, "B")])) == 5.0
  {
    assert Positions([City(2, "A"), City(8, "B")]) == [2, 8];
    SortTwo(2, 8);
    var ps := [2, 8];
    assert Width(10, ps, 0) == 5.0 && Width(10, ps, 1) == 5.0;
    assert MinWidth(10, ps, 1) == 5.0;
  }

  /** T = 10 with cities at 2 and 8: both neighbourhoods are 5. */
  lemma ExampleTwoCities()
    ensures SmallestNeighbourhoodResult(FileOf(Road(10, [City(2, "A"), City(8, "B")]))) == 5.0
  {
    LoadFileOf(Road(10, [City(2, "A"), City(8, "B")]));
    TwoCitiesSmallest();
  }

  lemma SortThree(x: int, y: int, z: int)
    requires x <= y <= z
    ensures SortInts([x, y, z]) == [x, y, z]
  {
    assert [x, y, z][1..] == [y, z];
    SortTwo(y, z);
  }

  lemma ThreeCitiesWidths()
    ensures MinWidth(100, [10, 20, 90], 3) == 15.0
  {
    var ps := [10, 20, 90];
    assert Width(100, ps, 0) == 15.0 && Width(100, ps, 1) == 40.0 && Width(100, ps, 2) == 45.0;
    assert MinWidth(100, ps, 1) == 15.0;
    assert MinWidth(100, ps, 2) == 15.0;
  }

  lemma ThreeCitiesSmallest()
    ensures SmallestOf(Road(100, [City(10, "A"), City(20, "B"), City(90, "C")])) == 15.0
  {
    assert Positions([City(10, "A"), City(20, "B"), City(90, "C")]) == [10, 20, 90];
    SortThree(10, 20, 90);
    ThreeCitiesWidths();
  }

  /** T = 100 with cities at 10, 20 and 90: neighbourhoods 15, 40 and 45. */
  lemma ExampleThreeCities()
    ensures SmallestNeighbourhoodResult(FileOf(Road(100, [City(10, "A"), City(20, "B"), City(90, "C")]))) == 15.0
  {
    LoadFileOf(Road(100, [City(10, "A"), City(20, "B"), City(90, "C")]));
    ThreeCitiesSmallest();
  }

  /**
   * A city beyond the end of the road loads without complaint, and can
   * make Query A return exactly the failure value: T = 3 with cities at 0
   * and 8 gives neighbourhoods 4 and 3 - 4 = -1.
   */
  lemma OffRoadCityMimicsFailure()
    ensures Load(FileOf(Road(3, [City(0, "A"), City(8, "B")]))).Some?
    ensures SmallestNeighbourhoodResult(FileOf(Road(3, [City(0, "A"), City(8, "B")]))) == -1.0
  {
    LoadFileOf(Road(3, [City(0, "A"), City(8, "B")]));
    OffRoadSmallest();
  }

  lemma OffRoadSmallest()
    ensures SmallestOf(Road(3, [City(0, "A"), City(8, "B")])) == -1.0
  {
    assert Positions([City(0, "A"), City(8, "B")]) == [0, 8];
    SortTwo(0, 8);
    var ps := [0, 8];
    assert Width(3, ps, 0) == 4.0 && Width(3, ps, 1) == -1.0;
    assert MinWidth(3, ps, 1) == 3.0;
  }
}
