/**
 * Loading a road file: the header values T (road length) and N (number
 * of cities), then N record lines.
 */
module Loader {
  import opened Wrappers
  import opened Seqs
  import opened Cities
  import opened Records

  const MIN_LENGTH := 3
  const MAX_LENGTH := 1000000
  const MIN_COUNT := 2
  const MAX_COUNT := 10000

  /**
   * The contents of a road file. `length` and `count` are `None` when the
   * "%d" conversion for T or for N fails; `records` are the lines after
   * the header, in file order.
   */
  datatype RoadFile = RoadFile(length: Option<int>, count: Option<int>, records: seq<string>)

  /** Both header values were read and lie within their bounds. */
  predicate HeaderInBounds(f: RoadFile) {
    && f.length.Some? && MIN_LENGTH <= f.length.value <= MAX_LENGTH
    && f.count.Some? && MIN_COUNT <= f.count.value <= MAX_COUNT
  }

  /** Each of the first N lines exists and scans as a record. */
  predicate RecordsComplete(f: RoadFile) {
    && f.count.Some?
    && f.count.value <= |f.records|
    && forall i :: 0 <= i < f.count.value ==> ParseRecord(f.records[i]).Some?
  }

  /** A road that a successful load can produce. */
  predicate WellFormed(road: Road) {
    && MIN_LENGTH <= road.length <= MAX_LENGTH
    && MIN_COUNT <= |road.cities| <= MAX_COUNT
    && forall i :: 0 <= i < |road.cities| ==> ValidName(road.cities[i].name)
  }

  function ParsedCity(line: string): City
    requires ParseRecord(line).Some?
  {
    ParseRecord(line).value
  }

  /**
   * The road a file describes, or `None` as soon as anything is wrong: a
   * header value missing or out of bounds, a record line missing or not
   * scanning. No partially filled road is ever returned.
   */
  function Load(f: RoadFile): (r: Option<Road>)
    ensures r.Some? <==> HeaderInBounds(f) && RecordsComplete(f)
    ensures r.Some? ==> WellFormed(r.value)
    ensures r.Some? ==> r.value.length == f.length.value && |r.value.cities| == f.count.value
    ensures r.Some? ==> forall i :: 0 <= i < |r.value.cities| ==> ParseRecord(f.records[i]) == Some(r.value.cities[i])
  {
    if !HeaderInBounds(f) || !RecordsComplete(f) then None
    else Some(Road(f.length.value, Map(ParsedCity, f.records[..f.count.value])))
  }

  /**
   * The loader as the program runs it: checks the header, then fills an
   * array of N cities one record line at a time, giving up on the first
   * line that is missing or does not scan.
   */
  method GetRoad(f: RoadFile) returns (road: Option<Road>)
    ensures road == Load(f)
  {
    if f.length.None? || f.count.None? {
      return None;
    }
    var t, n := f.length.value, f.count.value;
    if t < MIN_LENGTH || t > MAX_LENGTH || n < MIN_COUNT || n > MAX_COUNT {
      return None;
    }
    var cities := new City[n];
    for i := 0 to n
      invariant i <= |f.records|
      invariant forall j :: 0 <= j < i ==> ParseRecord(f.records[j]) == Some(cities[j])
    {
      if i >= |f.records| {
        return None;
      }
      var record := ParseRecord(f.records[i]);
      if record.None? {
        return None;
      }
      cities[i] := record.value;
    }
    assert cities[..] == Map(ParsedCity, f.records[..n]);
    road := Some(Road(t, cities[..]));
  }

  /** The file made of a well-formed road's header and formatted records. */
  function FileOf(road: Road): RoadFile {
    RoadFile(Some(road.length), Some(|road.cities|), Map(FormatRecord, road.cities))
  }

  /** Writing a well-formed road out and loading it back gives the same road. */
  lemma LoadFileOf(road: Road)
    requires WellFormed(road)
    ensures Load(FileOf(road)) == Some(road)
  {
    var f := FileOf(road);
    forall i | 0 <= i < |road.cities|
      ensures ParseRecord(f.records[i]) == Some(road.cities[i])
    {
      ParseFormatRecord(road.cities[i]);
    }
    assert f.records[..|road.cities|] == f.records;
    assert Map(ParsedCity, f.records) == road.cities;
  }

  /** If every line of one file scans, so does every line of any permutation of it. */
  lemma {:induction false} RecordsCompletePermutation(f: RoadFile, g: RoadFile)
    requires f.count == g.count
    requires f.count == Some(|f.records|) && |g.records| == |f.records|
    requires multiset(f.records) == multiset(g.records)
    requires RecordsComplete(f)
    ensures RecordsComplete(g)
  {
    forall i | 0 <= i < |g.records| ensures ParseRecord(g.records[i]).Some? {
      assert g.records[i] in multiset(f.records);
      var j :| 0 <= j < |f.records| && f.records[j] == g.records[i];
    }
  }

  /** The file cut after its first N record lines, which is all the loader reads. */
  function Truncated(f: RoadFile): RoadFile
    requires f.count.Some? && 0 <= f.count.value <= |f.records|
  {
    RoadFile(f.length, f.count, f.records[..f.count.value])
  }

  /** Lines after the N-th do not change what is loaded. */
  lemma LoadTruncated(f: RoadFile)
    requires f.count.Some? && 0 <= f.count.value <= |f.records|
    ensures Load(Truncated(f)) == Load(f)
  {
    var n := f.count.value;
    assert f.records[..n][..n] == f.records[..n];
    assert forall i :: 0 <= i < n ==> f.records[..n][i] == f.records[i];
  }

  /**
   * Two files whose first N record lines are permutations of each other
   * load either both or neither, and into cities that are permutations of
   * each other; lines after the N-th may differ in any way.
   */
  lemma LoadPermutation(f: RoadFile, g: RoadFile)
    requires f.length == g.length && f.count == g.count
    requires f.count.Some? && f.count.value <= |f.records| && f.count.value <= |g.records|
    requires 0 <= f.count.value ==> multiset(f.records[..f.count.value]) == multiset(g.records[..f.count.value])
    ensures Load(f).Some? <==> Load(g).Some?
    ensures Load(f).Some? ==> multiset(Load(f).value.cities) == multiset(Load(g).value.cities)
  {
    if 0 <= f.count.value {
      LoadTruncated(f);
      LoadTruncated(g);
      LoadPermutationExact(Truncated(f), Truncated(g));
    }
  }

  /** `LoadPermutation` for files that hold exactly N record lines. */
  lemma LoadPermutationExact(f: RoadFile, g: RoadFile)
    requires f.length == g.length && f.count == g.count
    requires f.count == Some(|f.records|)
    requires multiset(f.records) == multiset(g.records)
    ensures Load(f).Some? <==> Load(g).Some?
    ensures Load(f).Some? ==> multiset(Load(f).value.cities) == multiset(Load(g).value.cities)
  {
    assert |g.records| == |multiset(g.records)| == |f.records|;
    if RecordsComplete(f) {
      RecordsCompletePermutation(f, g);
    }
    if RecordsComplete(g) {
      RecordsCompletePermutation(g, f);
    }
    if Load(f).Some? {
      LoadedCitiesPermutation(f, g);
    }
  }

  lemma LoadedCitiesPermutation(f: RoadFile, g: RoadFile)
    requires HeaderInBounds(f) && f.length == g.length && f.count == g.count
    requires f.count == Some(|f.records|) && |g.records| == |f.records|
    requires RecordsComplete(f) && RecordsComplete(g)
    requires multiset(f.records) == multiset(g.records)
    ensures Load(f).Some? && Load(g).Some?
    ensures multiset(Load(f).value.cities) == multiset(Load(g).value.cities)
  {
    assert f.records[..|f.records|] == f.records && g.records[..|g.records|] == g.records;
    MapPermutation(ParsedCity, f.records, g.records);
  }
}
