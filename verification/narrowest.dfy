/**
 * The city that owns the smallest neighbourhood in Query A's sense, and
 * a road on which Query B names a different city.
 */
module Narrowest {
  import opened Wrappers
  import opened Cities
  import opened Loader
  import opened Sorting
  import opened Neighbourhood
  import opened Owner

  /**
   * `name` belongs to a city sitting at a place of the sorted order whose
   * neighbourhood has Query A's size.
   */
  ghost predicate OwnsSmallest(road: Road, name: string) {
    var ps := SortInts(Positions(road.cities));
    exists k :: 0 <= k < |ps| && Width(road.length, ps, k) == SmallestOf(road) &&
      exists c :: c in road.cities && c.position == ps[k] && c.name == name
  }

  /** The scan of Query A that also remembers where its minimum was found. */
  method NarrowestIndex(t: int, a: array<City>) returns (k: nat)
    requires t > 0 && a.Length >= 2
    ensures k < a.Length
    ensures Width(t, Positions(a[..]), k) == MinWidth(t, Positions(a[..]), a.Length)
  {
    ghost var ps := Positions(a[..]);
    var n := a.Length;
    var smallest := t as real;
    var index := -1;
    for i := 0 to n
      invariant smallest == MinWidth(t, ps, i)
      invariant -1 <= index < i
      invariant index == -1 ==> smallest == t as real
      invariant index >= 0 ==> smallest == Width(t, ps, index)
    {
      var start := if i == 0 then 0.0 else (a[i].position + a[i - 1].position) as real / 2.0;
      var end := if i == n - 1 then t as real else (a[i].position + a[i + 1].position) as real / 2.0;
      var width := end - start;
      if width < smallest {
        smallest, index := width, i;
      }
    }
    MinWidthBelowLength(t, ps);
    k := index;
  }

  /** Sorts a copy of the cities and names the owner of the narrowest neighbourhood. */
  method NarrowestCity(t: int, cities: seq<City>) returns (name: string)
    requires t > 0 && |cities| >= 2
    ensures OwnsSmallest(Road(t, cities), name)
  {
    var a := new City[|cities|](i requires 0 <= i < |cities| => cities[i]);
    assert a[..] == cities;
    SortByPosition(a);
    SortedCitiesPositions(cities, a[..]);
    var k := NarrowestIndex(t, a);
    ghost var ps := SortInts(Positions(cities));
    assert a[k] in multiset(a[..]);
    assert a[k] in cities && a[k].position == ps[k];
    assert Width(t, ps, k) == SmallestOf(Road(t, cities));
    name := a[k].name;
  }

  /**
   * Query B as evidently intended: sort as Query A does and name the city
   * whose neighbourhood is the smallest.
   */
  method CorrectedCityWithSmallestNeighbourhood(f: RoadFile) returns (name: Option<string>)
    ensures name.Some? <==> Load(f).Some?
    ensures name.Some? ==> OwnsSmallest(Load(f).value, name.value)
  {
    var road := GetRoad(f);
    if road.None? {
      return None;
    }
    var owner := NarrowestCity(road.value.length, road.value.cities);
    name := Some(owner);
  }

  /** T = 100 with cities at 20 (A), 30 (B) and 100 (C), in this order. */
  function DisagreementRoad(): Road {
    Road(100, [City(20, "A"), City(30, "B"), City(100, "C")])
  }

  lemma DisagreementWidths()
    ensures MinWidth(100, [20, 30, 100], 3) == 25.0
    ensures Width(100, [20, 30, 100], 2) == 35.0
  {
    var ps := [20, 30, 100];
    assert Width(100, ps, 0) == 25.0 && Width(100, ps, 1) == 40.0 && Width(100, ps, 2) == 35.0;
    assert MinWidth(100, ps, 1) == 25.0;
    assert MinWidth(100, ps, 2) == 25.0;
  }

  lemma DisagreementSelection()
    ensures Selection(100, [20, 30, 100]) == (0.0, 2)
  {
    var ps := [20, 30, 100];
    assert HalfGap(ps, 0) == 5.0 && HalfGap(ps, 1) == 35.0;
    assert ScanGaps(100, ps, 1) == (5.0, 0);
    assert ScanGaps(100, ps, 2) == (5.0, 0);
  }

  lemma DisagreementPositions()
    ensures Positions(DisagreementRoad().cities) == [20, 30, 100]
    ensures SortInts(Positions(DisagreementRoad().cities)) == [20, 30, 100]
  {
    assert Positions(DisagreementRoad().cities) == [20, 30, 100];
    SortThree(20, 30, 100);
  }

  lemma OnlyCityNamedC()
    ensures forall c :: c in DisagreementRoad().cities && c.name == "C" ==> c.position == 100
  {
    forall c | c in DisagreementRoad().cities && c.name == "C" ensures c.position == 100 {
      assert c.name[0] == 'C';
    }
  }

  /** No city named "C" owns a neighbourhood of Query A's size on this road. */
  lemma ThirdCityIsNotNarrowest()
    ensures SmallestOf(DisagreementRoad()) == 25.0
    ensures !OwnsSmallest(DisagreementRoad(), "C")
  {
    DisagreementPositions();
    DisagreementWidths();
    OnlyCityNamedC();
    var ps := [20, 30, 100];
    assert forall k :: 0 <= k < 3 && ps[k] == 100 ==> k == 2;
  }

  /**
   * On this road Query A finds 25 (the first city's neighbourhood), while
   * Query B names the third city, whose neighbourhood is 35: the raw
   * distance 100 - 100 = 0 is below the smallest half gap 5.
   */
  lemma ModesDisagree()
    ensures SmallestNeighbourhoodResult(FileOf(DisagreementRoad())) == 25.0
    ensures OwnerName(FileOf(DisagreementRoad())) == Some("C")
    ensures !OwnsSmallest(DisagreementRoad(), "C")
  {
    LoadFileOf(DisagreementRoad());
    DisagreementPositions();
    DisagreementSelection();
    ThirdCityIsNotNarrowest();
  }
}
