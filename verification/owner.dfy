/**
 * Query B: the name of the city said to own the smallest neighbourhood.
 * This rule is not Query A's: it keeps the cities in file order, charges
 * half the gap to the next city to the left city of each pair, and then
 * compares the first city's raw position and the last city's distance to
 * T against the running minimum.
 */
module Owner {
  import opened Wrappers
  import opened Cities
  import opened Loader

  /** Half the gap between the i-th city of `ps` and the next one, charged to city i. */
  function HalfGap(ps: seq<int>, i: nat): real
    requires i + 1 < |ps|
  {
    (ps[i + 1] - ps[i]) as real / 2.0
  }

  /**
   * The pair (running minimum, index) after the first k iterations of the
   * loop over adjacent pairs; it starts at (T, -1) and moves only on a
   * strictly smaller half gap.
   */
  function ScanGaps(t: int, ps: seq<int>, k: nat): (real, int)
    requires k < |ps|
  {
    if k == 0 then (t as real, -1)
    else
      var (m, index) := ScanGaps(t, ps, k - 1);
      var gap := HalfGap(ps, k - 1);
      if gap < m then (gap, k - 1) else (m, index)
  }

  /**
   * After k iterations the index is -1 exactly when no half gap is below
   * T; otherwise it is the first pair whose half gap is the smallest, and
   * the running minimum is that half gap.
   */
  lemma {:induction false} ScanGapsFindsFirstMinimum(t: int, ps: seq<int>, k: nat)
    requires k < |ps|
    ensures -1 <= ScanGaps(t, ps, k).1 < k
    ensures ScanGaps(t, ps, k).1 == -1 <==> forall j :: 0 <= j < k ==> HalfGap(ps, j) >= t as real
    ensures ScanGaps(t, ps, k).1 == -1 ==> ScanGaps(t, ps, k).0 == t as real
    ensures ScanGaps(t, ps, k).1 >= 0 ==>
              && ScanGaps(t, ps, k).0 == HalfGap(ps, ScanGaps(t, ps, k).1) < t as real
              && (forall j :: 0 <= j < k ==> ScanGaps(t, ps, k).0 <= HalfGap(ps, j))
              && (forall j :: 0 <= j < ScanGaps(t, ps, k).1 ==> ScanGaps(t, ps, k).0 < HalfGap(ps, j))
  {
    if k > 0 {
      ScanGapsFindsFirstMinimum(t, ps, k - 1);
    }
  }

  /**
   * The final (minimum, index) of Query B: the loop's result, overridden
   * by the first city when its position is strictly smaller, then by the
   * last city when its distance to T is strictly smaller.
   */
  function Selection(t: int, ps: seq<int>): (real, int)
    requires |ps| >= 2
  {
    var (m, index) := ScanGaps(t, ps, |ps| - 1);
    var first := ps[0] as real;
    var (m1, index1) := if first < m then (first, 0) else (m, index);
    var last := (t - ps[|ps| - 1]) as real;
    if last < m1 then (last, |ps| - 1) else (m1, index1)
  }

  /**
   * What Query B selects: a value no larger than T, the first position,
   * the last distance or any half gap; the last city exactly when its
   * distance to T beats every other candidate strictly; the first city
   * when its position beats T and every half gap strictly and the last
   * city does not win; and the loop's choice whenever neither boundary
   * value is strictly below the loop's minimum.
   */
  lemma SelectionProperties(t: int, ps: seq<int>)
    requires |ps| >= 2
    ensures Selection(t, ps).0 <= t as real
    ensures Selection(t, ps).0 <= ps[0] as real
    ensures Selection(t, ps).0 <= (t - ps[|ps| - 1]) as real
    ensures forall j :: 0 <= j < |ps| - 1 ==> Selection(t, ps).0 <= HalfGap(ps, j)
    ensures Selection(t, ps).1 == |ps| - 1 <==>
              && (t - ps[|ps| - 1]) as real < t as real
              && (t - ps[|ps| - 1]) as real < ps[0] as real
              && forall j :: 0 <= j < |ps| - 1 ==> (t - ps[|ps| - 1]) as real < HalfGap(ps, j)
    ensures Selection(t, ps).1 == |ps| - 1 ==> Selection(t, ps).0 == (t - ps[|ps| - 1]) as real
    ensures && ps[0] as real < t as real
            && (forall j :: 0 <= j < |ps| - 1 ==> ps[0] as real < HalfGap(ps, j))
            && Selection(t, ps).1 != |ps| - 1
            ==> Selection(t, ps) == (ps[0] as real, 0)
    ensures && ps[0] as real >= ScanGaps(t, ps, |ps| - 1).0
            && (t - ps[|ps| - 1]) as real >= ScanGaps(t, ps, |ps| - 1).0
            ==> Selection(t, ps) == ScanGaps(t, ps, |ps| - 1)
  {
    ScanGapsFindsFirstMinimum(t, ps, |ps| - 1);
  }

  /** With every half gap at least T > 0, positions never decrease. */
  lemma {:induction false} RisingPositions(t: int, ps: seq<int>, k: nat)
    requires t > 0 && k < |ps|
    requires forall j :: 0 <= j < |ps| - 1 ==> HalfGap(ps, j) >= t as real
    ensures ps[0] <= ps[k]
  {
    if k > 0 {
      RisingPositions(t, ps, k - 1);
      assert HalfGap(ps, k - 1) >= t as real;
    }
  }

  /**
   * On a road of positive length with at least two cities, Query B always
   * names one of them: the index never stays at -1.
   */
  lemma SelectionInRange(t: int, ps: seq<int>)
    requires t > 0 && |ps| >= 2
    ensures 0 <= Selection(t, ps).1 < |ps|
  {
    ScanGapsFindsFirstMinimum(t, ps, |ps| - 1);
    if ScanGaps(t, ps, |ps| - 1).1 == -1 {
      RisingPositions(t, ps, |ps| - 1);
    }
  }

  /** Query B on a file: `None` when the road cannot be loaded. */
  function OwnerName(f: RoadFile): (r: Option<string>)
    ensures r.Some? <==> Load(f).Some?
  {
    match Load(f)
    case None => None
    case Some(road) =>
      var ps := Positions(road.cities);
      SelectionInRange(road.length, ps);
      Some(road.cities[Selection(road.length, ps).1].name)
  }

  /** The loop and the two boundary overrides of Query B, over the cities in file order. */
  method SelectOwner(t: int, cities: seq<City>) returns (index: int)
    requires |cities| >= 2
    ensures index == Selection(t, Positions(cities)).1
  {
    ghost var ps := Positions(cities);
    var n := |cities|;
    var smallest := t as real;
    index := -1;
    for i := 0 to n - 1
      invariant (smallest, index) == ScanGaps(t, ps, i)
    {
      var gap := (cities[i + 1].position - cities[i].position) as real / 2.0;
      if gap < smallest {
        smallest, index := gap, i;
      }
    }
    if (cities[0].position as real) < smallest {
      smallest, index := cities[0].position as real, 0;
    }
    if ((t - cities[n - 1].position) as real) < smallest {
      smallest, index := (t - cities[n - 1].position) as real, n - 1;
    }
  }

  /** Query B as the program runs it: load, select, copy the selected city's name. */
  method CityWithSmallestNeighbourhood(f: RoadFile) returns (name: Option<string>)
    ensures name == OwnerName(f)
  {
    var road := GetRoad(f);
    if road.None? {
      return None;
    }
    var t, cities := road.value.length, road.value.cities;
    var index := SelectOwner(t, cities);
    SelectionInRange(t, Positions(cities));
    name := Some(cities[index].name);
  }
}
