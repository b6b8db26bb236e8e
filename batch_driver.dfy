/**
 * The bookkeeping of the batch driver: the city slug, the file names, the
 * slices of at most 100 grid points and the Distance Matrix calls that
 * `save_inputs` issues for them, and the files `save_outputs` reads back.
 */
module BatchDriver {
  import opened Wrappers
  import opened Text
  import DistanceMatrixClient

  type LatLng = DistanceMatrixClient.LatLng

  const DriverModes: seq<string> := ["driving", "walking", "bicycling", "transit"]
  const Directions: seq<string> := ["arrival", "departure"]
  /** The number of grid points per request. */
  const SliceSize := 100

  /** A city of the configuration table; its time zone only feeds the timestamps, which are inputs here. */
  datatype City = City(name: string, relationId: nat, cityHall: LatLng, timezone: string)

  const NewYorkCity := City("New York City", 175905, DistanceMatrixClient.LatLng("40.7128", "-74.006"), "US/Eastern")

  // ---------------------------------------------------------------------------
  // City slug and file names
  // ---------------------------------------------------------------------------

  /** `city.lower().replace(' ', '-')`. */
  function Slug(city: string): string
  {
    seq(|city|, k requires 0 <= k < |city| => if city[k] == ' ' then '-' else LowerChar(city[k]))
  }

  /**
   * The slug keeps the length of the name, holds no space and no upper-case
   * letter, turns every space into `-`, keeps every other character up to
   * case, and is its own slug.
   */
  lemma SlugShape(city: string)
    ensures |Slug(city)| == |city|
    ensures ' ' !in Slug(city)
    ensures forall k :: 0 <= k < |city| ==> !IsUpper(Slug(city)[k])
    ensures forall k :: 0 <= k < |city| ==> (city[k] == ' ' <==> Slug(city)[k] == '-' && city[k] != '-')
    ensures Slug(Slug(city)) == Slug(city)
  {
    var s := Slug(city);
    forall k | 0 <= k < |city| ensures !IsUpper(s[k]) && s[k] != ' ' {
      if IsUpper(city[k]) {
        assert s[k] as int == city[k] as int + 32;
      }
    }
  }

  lemma NewYorkCitySlug()
    ensures Slug(NewYorkCity.name) == "new-york-city"
  {
  }

  function ResultsFile(slug: string): string
  {
    "data/results-" + slug + ".csv"
  }

  /** `'{}-{}.json'.format(i, i_end-1)`: the last part of a distances file name. */
  function SliceBounds(i: nat, iEnd: nat): string
  {
    IntToDecimal(i) + "-" + IntToDecimal(iEnd - 1) + ".json"
  }

  /** `'data/distances-{}-{}-{}-{}-{}.json'.format(city_slug, mode, direction, i, i_end-1)`. */
  function DistancesFile(slug: string, mode: string, direction: string, i: nat, iEnd: nat): string
  {
    "data/distances-" + slug + "-" + DistancesKey(mode, direction, i, iEnd)
  }

  /** What follows the city slug in a distances file name. */
  function DistancesKey(mode: string, direction: string, i: nat, iEnd: nat): string
  {
    mode + "-" + direction + "-" + SliceBounds(i, iEnd)
  }

  /** The first of `words` that `s` starts with, followed by `-`, and what follows the `-`. */
  function ParseWord(s: string, words: seq<string>): Option<(string, string)>
  {
    if |words| == 0 then None
    else if words[0] + "-" <= s then Some((words[0], s[|words[0]| + 1..]))
    else ParseWord(s, words[1..])
  }

  /** Reads `i` and `i_end` back out of the last part of a distances file name. */
  function ParseSliceBounds(s: string): Option<(nat, nat)>
  {
    if |s| < 5 || s[|s| - 5..] != ".json" then None
    else
      var parts := Split(s[..|s| - 5], '-');
      if |parts| != 2 then None
      else
        match (ParseNat(parts[0]), ParseNat(parts[1]))
        case (Some(i), Some(last)) => Some((i, last + 1))
        case _ => None
  }

  /** Reads the mode, direction and slice bounds back out of what follows the city slug. */
  function ParseKey(key: string): Option<(string, string, nat, nat)>
  {
    match ParseWord(key, DriverModes)
    case None => None
    case Some((mode, afterMode)) =>
      match ParseWord(afterMode, Directions)
      case None => None
      case Some((direction, bounds)) =>
        match ParseSliceBounds(bounds)
        case None => None
        case Some((i, iEnd)) => Some((mode, direction, i, iEnd))
  }

  /** Reads the mode, direction and slice bounds back out of a distances file name. */
  function ParseDistancesFile(slug: string, name: string): Option<(string, string, nat, nat)>
  {
    var prefix := "data/distances-" + slug + "-";
    if !(prefix <= name) then None else ParseKey(name[|prefix|..])
  }

  lemma {:induction false} ParseWordFinds(words: seq<string>, w: nat, tail: string)
    requires w < |words|
    requires forall j :: 0 <= j < |words| ==> |words[j]| > 0
    requires forall j :: 0 <= j < w ==> words[j][0] != words[w][0]
    ensures ParseWord(words[w] + "-" + tail, words) == Some((words[w], tail))
  {
    var s := words[w] + "-" + tail;
    if w == 0 {
      assert words[0] + "-" <= s;
      assert s[|words[0]| + 1..] == tail;
    } else {
      assert s[0] == words[w][0];
      assert !(words[0] + "-" <= s) by {
        assert (words[0] + "-")[0] == words[0][0];
      }
      ParseWordFinds(words[1..], w - 1, tail);
    }
  }

  lemma SliceBoundsRoundTrip(i: nat, iEnd: nat)
    requires 0 < iEnd
    ensures ParseSliceBounds(SliceBounds(i, iEnd)) == Some((i, iEnd))
  {
    var first, last := NatToDecimal(i), NatToDecimal(iEnd - 1);
    var s := SliceBounds(i, iEnd);
    assert s == first + ['-'] + last + ".json";
    assert s[|s| - 5..] == ".json";
    assert s[..|s| - 5] == first + ['-'] + last;
    assert '-' !in first && '-' !in last;
    SplitWithoutSeparator(last, '-');
    SplitAtFirstSeparator(first, last, '-');
    ParseNatDecimal(i);
    ParseNatDecimal(iEnd - 1);
  }

  lemma ModeWordFinds(mode: string, tail: string)
    requires mode in DriverModes
    ensures ParseWord(mode + "-" + tail, DriverModes) == Some((mode, tail))
  {
    var m :| 0 <= m < |DriverModes| && DriverModes[m] == mode;
    ParseWordFinds(DriverModes, m, tail);
  }

  lemma DirectionWordFinds(direction: string, tail: string)
    requires direction in Directions
    ensures ParseWord(direction + "-" + tail, Directions) == Some((direction, tail))
  {
    var d :| 0 <= d < |Directions| && Directions[d] == direction;
    ParseWordFinds(Directions, d, tail);
  }

  lemma KeyRoundTrip(mode: string, direction: string, i: nat, iEnd: nat)
    requires mode in DriverModes && direction in Directions && 0 < iEnd
    ensures ParseKey(DistancesKey(mode, direction, i, iEnd)) == Some((mode, direction, i, iEnd))
  {
    var bounds := SliceBounds(i, iEnd);
    assert DistancesKey(mode, direction, i, iEnd) == mode + "-" + (direction + "-" + bounds);
    ModeWordFinds(mode, direction + "-" + bounds);
    DirectionWordFinds(direction, bounds);
    SliceBoundsRoundTrip(i, iEnd);
  }

  /** A distances file name gives back its mode, direction and slice bounds. */
  lemma DistancesFileRoundTrip(slug: string, mode: string, direction: string, i: nat, iEnd: nat)
    requires mode in DriverModes && direction in Directions && 0 < iEnd
    ensures ParseDistancesFile(slug, DistancesFile(slug, mode, direction, i, iEnd)) == Some((mode, direction, i, iEnd))
  {
    var prefix := "data/distances-" + slug + "-";
    var key := DistancesKey(mode, direction, i, iEnd);
    assert DistancesFile(slug, mode, direction, i, iEnd)[|prefix|..] == key;
    KeyRoundTrip(mode, direction, i, iEnd);
  }

  /** Two distances files of one city have the same name only for the same mode, direction and slice. */
  lemma DistancesFileInjective(slug: string, m1: string, d1: string, i1: nat, e1: nat,
                               m2: string, d2: string, i2: nat, e2: nat)
    requires m1 in DriverModes && d1 in Directions && 0 < e1
    requires m2 in DriverModes && d2 in Directions && 0 < e2
    requires DistancesFile(slug, m1, d1, i1, e1) == DistancesFile(slug, m2, d2, i2, e2)
    ensures m1 == m2 && d1 == d2 && i1 == i2 && e1 == e2
  {
    DistancesFileRoundTrip(slug, m1, d1, i1, e1);
    DistancesFileRoundTrip(slug, m2, d2, i2, e2);
  }

  // ---------------------------------------------------------------------------
  // Slices
  // ---------------------------------------------------------------------------

  /** The end of the slice starting at `i`, for `n` points. */
  function SliceEnd(i: nat, n: nat): nat
  {
    if i + SliceSize <= n then i + SliceSize else n
  }

  /**
   * `[(i, i_end) for i in range(start, n, 100)]`: every slice is non-empty,
   * at most 100 long and inside `[start, n)`, each ends where the next
   * begins, the first begins at `start` and the last ends at `n`.
   */
  function SlicesFrom(start: nat, n: nat): (s: seq<(nat, nat)>)
    ensures forall k :: 0 <= k < |s| ==> start <= s[k].0 < s[k].1 <= n && s[k].1 - s[k].0 <= SliceSize
    ensures forall k :: 0 <= k < |s| - 1 ==> s[k].1 == s[k + 1].0
    ensures start < n ==> |s| > 0 && s[0].0 == start && s[|s| - 1].1 == n
    ensures start >= n ==> s == []
    decreases n - start
  {
    if start >= n then []
    else
      var rest := SlicesFrom(start + SliceSize, n);
      var s := [(start, SliceEnd(start, n))] + rest;
      assert forall k :: 0 < k < |s| ==> s[k] == rest[k - 1];
      s
  }

  function Slices(n: nat): seq<(nat, nat)>
  {
    SlicesFrom(0, n)
  }

  predicate InSlice(slice: (nat, nat), r: nat)
  {
    slice.0 <= r < slice.1
  }

  /** Some slice of `s` holds the point `r`. */
  predicate Covered(s: seq<(nat, nat)>, r: nat)
  {
    exists k :: 0 <= k < |s| && InSlice(s[k], r)
  }

  /** Slices whose bounds chain are ordered: an earlier one ends before a later one begins. */
  lemma {:induction false} ChainedSlicesOrdered(s: seq<(nat, nat)>, k1: nat, k2: nat)
    requires forall k :: 0 <= k < |s| ==> s[k].0 < s[k].1
    requires forall k :: 0 <= k < |s| - 1 ==> s[k].1 == s[k + 1].0
    requires k1 < k2 < |s|
    ensures s[k1].1 <= s[k2].0
    decreases k2 - k1
  {
    if k1 + 1 < k2 {
      ChainedSlicesOrdered(s, k1 + 1, k2);
    }
  }

  /** Chained slices cover every point between the first start and the last end. */
  lemma {:induction false} ChainedSlicesCover(s: seq<(nat, nat)>, r: nat)
    requires |s| > 0
    requires forall k :: 0 <= k < |s| - 1 ==> s[k].1 == s[k + 1].0
    requires s[0].0 <= r < s[|s| - 1].1
    ensures Covered(s, r)
  {
    if r < s[0].1 {
      assert InSlice(s[0], r);
    } else {
      ChainedSlicesCover(s[1..], r);
      var k :| 0 <= k < |s[1..]| && InSlice(s[1..][k], r);
      assert InSlice(s[k + 1], r);
    }
  }

  /**
   * The slices of `n` points are disjoint, cover `0..n-1`, and each holds 1
   * to 100 points.
   */
  lemma SlicesPartition(n: nat)
    ensures var s := Slices(n);
      && (forall k :: 0 <= k < |s| ==> 0 < s[k].1 - s[k].0 <= SliceSize && s[k].1 <= n)
      && (forall k1, k2 :: 0 <= k1 < k2 < |s| ==> s[k1].1 <= s[k2].0)
      && (forall r :: 0 <= r < n ==> Covered(s, r))
  {
    var s := Slices(n);
    forall k1, k2 | 0 <= k1 < k2 < |s| ensures s[k1].1 <= s[k2].0 {
      ChainedSlicesOrdered(s, k1, k2);
    }
    forall r | 0 <= r < n ensures Covered(s, r) {
      ChainedSlicesCover(s, r);
    }
  }

  // ---------------------------------------------------------------------------
  // The calls issued by save_inputs
  // ---------------------------------------------------------------------------

  /** One `get_distance` call of `save_inputs` and the file its result is saved to. */
  datatype PlannedCall = PlannedCall(
    origins: seq<LatLng>, destinations: seq<LatLng>, mode: string,
    arrivalTime: Option<real>, departureTime: Option<real>, file: string)

  /**
   * The call for one slice and direction: arriving, the slice's points go to
   * city hall by the morning time; departing, city hall goes to them from the
   * evening time.
   */
  function SliceCall(slug: string, cityHall: LatLng, points: seq<LatLng>, mode: string, direction: string,
                     i: nat, iEnd: nat, arrivalTime: real, departureTime: real): (c: PlannedCall)
    requires i <= iEnd <= |points|
    ensures c.file == DistancesFile(slug, mode, direction, i, iEnd)
  {
    var file := DistancesFile(slug, mode, direction, i, iEnd);
    if direction == "arrival" then
      PlannedCall(points[i..iEnd], [cityHall], mode, Some(arrivalTime), None, file)
    else
      PlannedCall([cityHall], points[i..iEnd], mode, None, Some(departureTime), file)
  }

  predicate SlicesWithin(slices: seq<(nat, nat)>, n: nat)
  {
    forall k :: 0 <= k < |slices| ==> slices[k].0 < slices[k].1 <= n
  }

  /** For one mode, the calls over the slices, arrival before departure. */
  function SliceCalls(slug: string, cityHall: LatLng, points: seq<LatLng>, mode: string,
                      slices: seq<(nat, nat)>, arrivalTime: real, departureTime: real): seq<PlannedCall>
    requires SlicesWithin(slices, |points|)
  {
    if |slices| == 0 then []
    else
      [ SliceCall(slug, cityHall, points, mode, Directions[0], slices[0].0, slices[0].1, arrivalTime, departureTime),
        SliceCall(slug, cityHall, points, mode, Directions[1], slices[0].0, slices[0].1, arrivalTime, departureTime) ]
      + SliceCalls(slug, cityHall, points, mode, slices[1..], arrivalTime, departureTime)
  }

  function ModeCalls(slug: string, cityHall: LatLng, points: seq<LatLng>, modes: seq<string>,
                     arrivalTime: real, departureTime: real): seq<PlannedCall>
  {
    if |modes| == 0 then []
    else
      SliceCalls(slug, cityHall, points, modes[0], Slices(|points|), arrivalTime, departureTime)
      + ModeCalls(slug, cityHall, points, modes[1..], arrivalTime, departureTime)
  }

  /** The calls of `save_inputs` for one city, in the order it issues them. */
  function SaveInputsCalls(city: City, points: seq<LatLng>, arrivalTime: real, departureTime: real): seq<PlannedCall>
  {
    ModeCalls(Slug(city.name), city.cityHall, points, DriverModes, arrivalTime, departureTime)
  }

  predicate ValidCall(c: PlannedCall)
  {
    DistanceMatrixClient.Validate(c.origins, c.destinations, c.mode, c.arrivalTime, c.departureTime).None?
  }

  /**
   * A request of `save_inputs`: arriving, from 1 to 100 consecutive points go
   * to city hall by the arrival time; departing, city hall goes to them from
   * the departure time.
   */
  predicate PairsSliceWithCityHall(c: PlannedCall, cityHall: LatLng, points: seq<LatLng>,
                                   arrivalTime: real, departureTime: real)
  {
    exists i: nat, iEnd: nat :: i < iEnd <= |points| && iEnd - i <= SliceSize &&
      ((c.origins == points[i..iEnd] && c.destinations == [cityHall]
        && c.arrivalTime == Some(arrivalTime) && c.departureTime.None?)
       || (c.origins == [cityHall] && c.destinations == points[i..iEnd]
           && c.arrivalTime.None? && c.departureTime == Some(departureTime)))
  }

  /** One slice's call, in either direction, pairs the slice with city hall and passes the client's checks. */
  lemma SliceCallValid(slug: string, cityHall: LatLng, points: seq<LatLng>, mode: string, direction: string,
                       i: nat, iEnd: nat, arrivalTime: real, departureTime: real)
    requires mode in DriverModes
    requires i < iEnd <= |points| && iEnd - i <= SliceSize
    ensures var c := SliceCall(slug, cityHall, points, mode, direction, i, iEnd, arrivalTime, departureTime);
      ValidCall(c) && PairsSliceWithCityHall(c, cityHall, points, arrivalTime, departureTime)
  {
    assert mode in DistanceMatrixClient.Modes;
    var c := SliceCall(slug, cityHall, points, mode, direction, i, iEnd, arrivalTime, departureTime);
    if direction == "arrival" {
      assert c.origins == points[i..iEnd] && c.destinations == [cityHall];
    } else {
      assert c.origins == [cityHall] && c.destinations == points[i..iEnd];
    }
  }

  /** The files of one mode's calls: the first slice's arrival and departure files, then the rest. */
  lemma SliceCallsFilesStep(slug: string, cityHall: LatLng, points: seq<LatLng>, mode: string,
                            slices: seq<(nat, nat)>, arrivalTime: real, departureTime: real)
    requires SlicesWithin(slices, |points|) && |slices| > 0
    ensures Files(SliceCalls(slug, cityHall, points, mode, slices, arrivalTime, departureTime))
         == [ DistancesFile(slug, mode, Directions[0], slices[0].0, slices[0].1),
              DistancesFile(slug, mode, Directions[1], slices[0].0, slices[0].1) ]
            + Files(SliceCalls(slug, cityHall, points, mode, slices[1..], arrivalTime, departureTime))
  {
    var head := [ SliceCall(slug, cityHall, points, mode, Directions[0], slices[0].0, slices[0].1, arrivalTime, departureTime),
                  SliceCall(slug, cityHall, points, mode, Directions[1], slices[0].0, slices[0].1, arrivalTime, departureTime) ];
    var rest := SliceCalls(slug, cityHall, points, mode, slices[1..], arrivalTime, departureTime);
    assert SliceCalls(slug, cityHall, points, mode, slices, arrivalTime, departureTime) == head + rest;
    assert Files(head) == [head[0].file, head[1].file];
    FilesConcat(head, rest);
  }

  lemma {:induction false} SliceCallsValid(slug: string, cityHall: LatLng, points: seq<LatLng>, mode: string,
                                           slices: seq<(nat, nat)>, arrivalTime: real, departureTime: real)
    requires mode in DriverModes
    requires SlicesWithin(slices, |points|)
    requires forall k :: 0 <= k < |slices| ==> slices[k].1 - slices[k].0 <= SliceSize
    ensures forall c :: c in SliceCalls(slug, cityHall, points, mode, slices, arrivalTime, departureTime) ==>
      ValidCall(c) && PairsSliceWithCityHall(c, cityHall, points, arrivalTime, departureTime)
  {
    if |slices| > 0 {
      var (i, iEnd) := slices[0];
      SliceCallValid(slug, cityHall, points, mode, Directions[0], i, iEnd, arrivalTime, departureTime);
      SliceCallValid(slug, cityHall, points, mode, Directions[1], i, iEnd, arrivalTime, departureTime);
      SliceCallsValid(slug, cityHall, points, mode, slices[1..], arrivalTime, departureTime);
    }
  }

  lemma {:induction false} ModeCallsValid(slug: string, cityHall: LatLng, points: seq<LatLng>, modes: seq<string>,
                                          arrivalTime: real, departureTime: real)
    requires forall k :: 0 <= k < |modes| ==> modes[k] in DriverModes
    ensures forall c :: c in ModeCalls(slug, cityHall, points, modes, arrivalTime, departureTime) ==>
      ValidCall(c) && PairsSliceWithCityHall(c, cityHall, points, arrivalTime, departureTime)
  {
    if |modes| > 0 {
      SliceCallsValid(slug, cityHall, points, modes[0], Slices(|points|), arrivalTime, departureTime);
      ModeCallsValid(slug, cityHall, points, modes[1..], arrivalTime, departureTime);
    }
  }

  /**
   * Every request `save_inputs` issues pairs at most 100 points with city
   * hall, so it passes the client's checks.
   */
  lemma SaveInputsCallsValid(city: City, points: seq<LatLng>, arrivalTime: real, departureTime: real)
    ensures forall c :: c in SaveInputsCalls(city, points, arrivalTime, departureTime) ==>
      ValidCall(c) && PairsSliceWithCityHall(c, city.cityHall, points, arrivalTime, departureTime)
  {
    ModeCallsValid(Slug(city.name), city.cityHall, points, DriverModes, arrivalTime, departureTime);
  }

  /** The files the calls save to, in order. */
  function Files(calls: seq<PlannedCall>): (files: seq<string>)
    ensures |files| == |calls|
    ensures forall k :: 0 <= k < |calls| ==> files[k] == calls[k].file
  {
    if |calls| == 0 then [] else [calls[0].file] + Files(calls[1..])
  }

  /** No file name repeats. */
  predicate Distinct(files: seq<string>)
  {
    forall k1, k2 :: 0 <= k1 < k2 < |files| ==> files[k1] != files[k2]
  }

  lemma DistinctConcat(a: seq<string>, b: seq<string>)
    requires Distinct(a) && Distinct(b)
    requires forall x :: x in a ==> x !in b
    ensures Distinct(a + b)
  {
    forall k1, k2 | 0 <= k1 < k2 < |a + b| ensures (a + b)[k1] != (a + b)[k2] {
      if k1 < |a| && |a| <= k2 {
        assert (a + b)[k1] in a && (a + b)[k2] in b;
      }
    }
  }

  /** Files of one mode over slices starting at `lo` or later name that mode and a start of `lo` or later. */
  lemma {:induction false} SliceCallsKeys(slug: string, cityHall: LatLng, points: seq<LatLng>, mode: string,
                                          slices: seq<(nat, nat)>, arrivalTime: real, departureTime: real, lo: nat)
    requires mode in DriverModes
    requires SlicesWithin(slices, |points|)
    requires forall k :: 0 <= k < |slices| ==> lo <= slices[k].0
    ensures forall x :: x in Files(SliceCalls(slug, cityHall, points, mode, slices, arrivalTime, departureTime)) ==>
      ParseDistancesFile(slug, x).Some? && ParseDistancesFile(slug, x).value.0 == mode && lo <= ParseDistancesFile(slug, x).value.2
  {
    if |slices| > 0 {
      var (i, iEnd) := slices[0];
      SliceCallsFilesStep(slug, cityHall, points, mode, slices, arrivalTime, departureTime);
      SliceCallsKeys(slug, cityHall, points, mode, slices[1..], arrivalTime, departureTime, lo);
      DistancesFileRoundTrip(slug, mode, Directions[0], i, iEnd);
      DistancesFileRoundTrip(slug, mode, Directions[1], i, iEnd);
    }
  }

  lemma {:induction false} FilesConcat(a: seq<PlannedCall>, b: seq<PlannedCall>)
    ensures Files(a + b) == Files(a) + Files(b)
  {
    var f := Files(a + b);
    assert forall k :: 0 <= k < |f| ==> f[k] == (Files(a) + Files(b))[k];
  }

  /**
   * The first slice's two files differ from each other and from every file of
   * the later slices, which all start further on.
   */
  lemma FirstSliceFilesApart(slug: string, cityHall: LatLng, points: seq<LatLng>, mode: string,
                             slices: seq<(nat, nat)>, arrivalTime: real, departureTime: real)
    requires mode in DriverModes
    requires SlicesWithin(slices, |points|) && |slices| > 0
    requires forall k :: 0 < k < |slices| ==> slices[0].1 <= slices[k].0
    ensures var (i, iEnd) := slices[0];
      && DistancesFile(slug, mode, Directions[0], i, iEnd) != DistancesFile(slug, mode, Directions[1], i, iEnd)
      && forall x :: x in Files(SliceCalls(slug, cityHall, points, mode, slices[1..], arrivalTime, departureTime)) ==>
           x != DistancesFile(slug, mode, Directions[0], i, iEnd) && x != DistancesFile(slug, mode, Directions[1], i, iEnd)
  {
    var (i, iEnd) := slices[0];
    SliceCallsKeys(slug, cityHall, points, mode, slices[1..], arrivalTime, departureTime, i + 1);
    DistancesFileRoundTrip(slug, mode, Directions[0], i, iEnd);
    DistancesFileRoundTrip(slug, mode, Directions[1], i, iEnd);
  }

  lemma {:induction false} SliceCallsDistinct(slug: string, cityHall: LatLng, points: seq<LatLng>, mode: string,
                                              slices: seq<(nat, nat)>, arrivalTime: real, departureTime: real)
    requires mode in DriverModes
    requires SlicesWithin(slices, |points|)
    requires forall k1, k2 :: 0 <= k1 < k2 < |slices| ==> slices[k1].1 <= slices[k2].0
    ensures Distinct(Files(SliceCalls(slug, cityHall, points, mode, slices, arrivalTime, departureTime)))
  {
    if |slices| > 0 {
      var (i, iEnd) := slices[0];
      var arrival := DistancesFile(slug, mode, Directions[0], i, iEnd);
      var departure := DistancesFile(slug, mode, Directions[1], i, iEnd);
      var rest := Files(SliceCalls(slug, cityHall, points, mode, slices[1..], arrivalTime, departureTime));
      SliceCallsFilesStep(slug, cityHall, points, mode, slices, arrivalTime, departureTime);
      SliceCallsDistinct(slug, cityHall, points, mode, slices[1..], arrivalTime, departureTime);
      FirstSliceFilesApart(slug, cityHall, points, mode, slices, arrivalTime, departureTime);
      DistinctConcat([arrival, departure], rest);
    }
  }

  /** Every file of `ModeCalls(modes)` names one of `modes`. */
  lemma {:induction false} ModeCallsKeys(slug: string, cityHall: LatLng, points: seq<LatLng>, modes: seq<string>,
                                         arrivalTime: real, departureTime: real)
    requires forall k :: 0 <= k < |modes| ==> modes[k] in DriverModes
    ensures forall x :: x in Files(ModeCalls(slug, cityHall, points, modes, arrivalTime, departureTime)) ==>
      ParseDistancesFile(slug, x).Some? && ParseDistancesFile(slug, x).value.0 in modes
  {
    if |modes| > 0 {
      ModeCallsFilesStep(slug, cityHall, points, modes, arrivalTime, departureTime);
      SliceCallsKeys(slug, cityHall, points, modes[0], Slices(|points|), arrivalTime, departureTime, 0);
      ModeCallsKeys(slug, cityHall, points, modes[1..], arrivalTime, departureTime);
    }
  }

  /** The first mode's files are none of the later modes' files. */
  lemma FirstModeFilesApart(slug: string, cityHall: LatLng, points: seq<LatLng>, modes: seq<string>,
                            arrivalTime: real, departureTime: real)
    requires |modes| > 0
    requires forall k :: 0 <= k < |modes| ==> modes[k] in DriverModes
    requires modes[0] !in modes[1..]
    ensures forall x :: x in Files(SliceCalls(slug, cityHall, points, modes[0], Slices(|points|), arrivalTime, departureTime)) ==>
      x !in Files(ModeCalls(slug, cityHall, points, modes[1..], arrivalTime, departureTime))
  {
    SlicesPartition(|points|);
    SliceCallsKeys(slug, cityHall, points, modes[0], Slices(|points|), arrivalTime, departureTime, 0);
    ModeCallsKeys(slug, cityHall, points, modes[1..], arrivalTime, departureTime);
  }

  lemma {:induction false} ModeCallsDistinct(slug: string, cityHall: LatLng, points: seq<LatLng>, modes: seq<string>,
                                             arrivalTime: real, departureTime: real)
    requires forall k :: 0 <= k < |modes| ==> modes[k] in DriverModes
    requires forall k1, k2 :: 0 <= k1 < k2 < |modes| ==> modes[k1] != modes[k2]
    ensures Distinct(Files(ModeCalls(slug, cityHall, points, modes, arrivalTime, departureTime)))
  {
    if |modes| > 0 {
      SlicesPartition(|points|);
      var slices := Slices(|points|);
      var head := Files(SliceCalls(slug, cityHall, points, modes[0], slices, arrivalTime, departureTime));
      var rest := Files(ModeCalls(slug, cityHall, points, modes[1..], arrivalTime, departureTime));
      ModeCallsFilesStep(slug, cityHall, points, modes, arrivalTime, departureTime);
      SliceCallsDistinct(slug, cityHall, points, modes[0], slices, arrivalTime, departureTime);
      ModeCallsDistinct(slug, cityHall, points, modes[1..], arrivalTime, departureTime);
      assert modes[0] !in modes[1..];
      FirstModeFilesApart(slug, cityHall, points, modes, arrivalTime, departureTime);
      DistinctConcat(head, rest);
    }
  }

  /** `save_inputs` never writes two results of one city to the same file. */
  lemma SaveInputsFilesDistinct(city: City, points: seq<LatLng>, arrivalTime: real, departureTime: real)
    ensures Distinct(Files(SaveInputsCalls(city, points, arrivalTime, departureTime)))
  {
    ModeCallsDistinct(Slug(city.name), city.cityHall, points, DriverModes, arrivalTime, departureTime);
  }

  /** Both files of the first slice are among one mode's files. */
  lemma FirstSliceFiles(slug: string, cityHall: LatLng, points: seq<LatLng>, mode: string,
                        slices: seq<(nat, nat)>, arrivalTime: real, departureTime: real, direction: string)
    requires SlicesWithin(slices, |points|) && |slices| > 0
    requires direction in Directions
    ensures DistancesFile(slug, mode, direction, slices[0].0, slices[0].1)
         in Files(SliceCalls(slug, cityHall, points, mode, slices, arrivalTime, departureTime))
  {
    SliceCallsFilesStep(slug, cityHall, points, mode, slices, arrivalTime, departureTime);
    var files := Files(SliceCalls(slug, cityHall, points, mode, slices, arrivalTime, departureTime));
    var j := if direction == Directions[0] then 0 else 1;
    assert files[j] == DistancesFile(slug, mode, Directions[j], slices[0].0, slices[0].1);
  }

  lemma {:induction false} SliceCallsContain(slug: string, cityHall: LatLng, points: seq<LatLng>, mode: string,
                                             slices: seq<(nat, nat)>, arrivalTime: real, departureTime: real,
                                             k: nat, direction: string)
    requires SlicesWithin(slices, |points|)
    requires k < |slices| && direction in Directions
    ensures DistancesFile(slug, mode, direction, slices[k].0, slices[k].1)
         in Files(SliceCalls(slug, cityHall, points, mode, slices, arrivalTime, departureTime))
  {
    if k == 0 {
      FirstSliceFiles(slug, cityHall, points, mode, slices, arrivalTime, departureTime, direction);
    } else {
      SliceCallsFilesStep(slug, cityHall, points, mode, slices, arrivalTime, departureTime);
      SliceCallsContain(slug, cityHall, points, mode, slices[1..], arrivalTime, departureTime, k - 1, direction);
    }
  }

  /** The files of several modes' calls: the first mode's files, then the rest. */
  lemma ModeCallsFilesStep(slug: string, cityHall: LatLng, points: seq<LatLng>, modes: seq<string>,
                           arrivalTime: real, departureTime: real)
    requires |modes| > 0
    ensures Files(ModeCalls(slug, cityHall, points, modes, arrivalTime, departureTime))
         == Files(SliceCalls(slug, cityHall, points, modes[0], Slices(|points|), arrivalTime, departureTime))
            + Files(ModeCalls(slug, cityHall, points, modes[1..], arrivalTime, departureTime))
  {
    FilesConcat(SliceCalls(slug, cityHall, points, modes[0], Slices(|points|), arrivalTime, departureTime),
                ModeCalls(slug, cityHall, points, modes[1..], arrivalTime, departureTime));
  }

  lemma {:induction false} ModeCallsContain(slug: string, cityHall: LatLng, points: seq<LatLng>, modes: seq<string>,
                                            arrivalTime: real, departureTime: real, m: nat, file: string)
    requires m < |modes|
    requires file in Files(SliceCalls(slug, cityHall, points, modes[m], Slices(|points|), arrivalTime, departureTime))
    ensures file in Files(ModeCalls(slug, cityHall, points, modes, arrivalTime, departureTime))
  {
    ModeCallsFilesStep(slug, cityHall, points, modes, arrivalTime, departureTime);
    if m > 0 {
      ModeCallsContain(slug, cityHall, points, modes[1..], arrivalTime, departureTime, m - 1, file);
    }
  }

  /**
   * The file `save_outputs` opens for a mode, slice and direction is one that
   * `save_inputs` wrote, given the same points.
   */
  lemma SavedFileIsRead(city: City, points: seq<LatLng>, arrivalTime: real, departureTime: real,
                        mode: string, k: nat, direction: string)
    requires mode in DriverModes && direction in Directions && k < |Slices(|points|)|
    ensures DistancesFile(Slug(city.name), mode, direction, Slices(|points|)[k].0, Slices(|points|)[k].1)
         in Files(SaveInputsCalls(city, points, arrivalTime, departureTime))
  {
    var slices := Slices(|points|);
    var slug := Slug(city.name);
    var m :| 0 <= m < |DriverModes| && DriverModes[m] == mode;
    SliceCallsContain(slug, city.cityHall, points, mode, slices, arrivalTime, departureTime, k, direction);
    ModeCallsContain(slug, city.cityHall, points, DriverModes, arrivalTime, departureTime, m,
                     DistancesFile(slug, mode, direction, slices[k].0, slices[k].1));
  }
}
