/**
 * `get_sw_ne` in src/main.py: the south-west and north-east corners of the
 * box around a city's polygon file, taken over the outer ring of every
 * polygon of every geometry. GeoJSON writes a position as `[lng, lat]`; the
 * corners are `(lat, lng)` pairs.
 */
module BoundingBox {
  import opened Wrappers

  /** A GeoJSON position: longitude, latitude, possibly followed by more numbers. */
  type Position = seq<real>

  type Ring = seq<Position>

  /** The rings of a polygon; the first one is its outer boundary. */
  type Polygon = seq<Ring>

  /** One entry of `geometries`: its `coordinates`, None when the key is missing. */
  datatype Geometry = Geometry(coordinates: Option<seq<Polygon>>)

  /** The parsed polygon file: its `geometries`, None when the key is missing. */
  datatype PolygonFile = PolygonFile(geometries: Option<seq<Geometry>>)

  /** Why `get_sw_ne` raises instead of returning corners. */
  datatype BoxError =
    | MissingGeometries   // the `'geometries' in data.keys()` assertion fails
    | MissingCoordinates  // the `'coordinates' in geometry` assertion fails
    | EmptyPolygon        // the `len(coordinate) > 0` assertion fails
    | ShortPosition       // `latlng[1]` raises IndexError
    | NoPoints            // `min` of an empty list raises ValueError

  /** `(min lat, min lng), (max lat, max lng)`. */
  datatype Box = Box(sw: (real, real), ne: (real, real))

  /** Every position of the ring carries both a longitude and a latitude. */
  predicate LongEnough(ring: Ring)
  {
    forall k :: 0 <= k < |ring| ==> |ring[k]| >= 2
  }

  predicate PolygonWellFormed(polygon: Polygon)
  {
    |polygon| > 0 && LongEnough(polygon[0])
  }

  predicate GeometryWellFormed(geometry: Geometry)
  {
    && geometry.coordinates.Some?
    && forall c :: 0 <= c < |geometry.coordinates.value| ==> PolygonWellFormed(geometry.coordinates.value[c])
  }

  /** The file has every key and index `get_sw_ne` reads. */
  predicate WellFormed(geometries: seq<Geometry>)
  {
    forall g :: 0 <= g < |geometries| ==> GeometryWellFormed(geometries[g])
  }

  /** `p` is a position of the outer ring of one of the polygons. */
  predicate OnPolygonsOuterRing(polygons: seq<Polygon>, p: Position)
  {
    exists c :: 0 <= c < |polygons| && |polygons[c]| > 0 && p in polygons[c][0]
  }

  /** `p` is a position of the outer ring of one of the polygons of one of the geometries. */
  predicate OnOuterRing(geometries: seq<Geometry>, p: Position)
  {
    exists g :: 0 <= g < |geometries| && geometries[g].coordinates.Some?
                && OnPolygonsOuterRing(geometries[g].coordinates.value, p)
  }

  /**
   * The outer-ring positions of `polygons` in the order the loop visits them,
   * or the first error it meets.
   */
  function PolygonsPoints(polygons: seq<Polygon>): (r: Result<seq<Position>, BoxError>)
    ensures r.Success? ==> LongEnough(r.value)
    ensures r.Failure? ==> r.error == EmptyPolygon || r.error == ShortPosition
  {
    if |polygons| == 0 then Success([])
    else
      match PolygonsPoints(polygons[..|polygons| - 1])
      case Failure(e) => Failure(e)
      case Success(points) =>
        var last := polygons[|polygons| - 1];
        if |last| == 0 then Failure(EmptyPolygon)
        else if !LongEnough(last[0]) then Failure(ShortPosition)
        else Success(points + last[0])
  }

  /** The outer-ring positions of all geometries in visiting order, or the first error. */
  function GeometriesPoints(geometries: seq<Geometry>): (r: Result<seq<Position>, BoxError>)
    ensures r.Success? ==> LongEnough(r.value)
    ensures r.Failure? ==> r.error != MissingGeometries && r.error != NoPoints
  {
    if |geometries| == 0 then Success([])
    else
      match GeometriesPoints(geometries[..|geometries| - 1])
      case Failure(e) => Failure(e)
      case Success(points) =>
        var last := geometries[|geometries| - 1];
        if last.coordinates.None? then Failure(MissingCoordinates)
        else
          match PolygonsPoints(last.coordinates.value)
          case Failure(e) => Failure(e)
          case Success(more) => Success(points + more)
  }

  /** `[latlng[1] for latlng in ring]`. */
  function Lats(ring: Ring): (lats: seq<real>)
    requires LongEnough(ring)
    ensures |lats| == |ring| && forall k :: 0 <= k < |ring| ==> lats[k] == ring[k][1]
  {
    seq(|ring|, k requires 0 <= k < |ring| => ring[k][1])
  }

  /** `[latlng[0] for latlng in ring]`. */
  function Lngs(ring: Ring): (lngs: seq<real>)
    requires LongEnough(ring)
    ensures |lngs| == |ring| && forall k :: 0 <= k < |ring| ==> lngs[k] == ring[k][0]
  {
    seq(|ring|, k requires 0 <= k < |ring| => ring[k][0])
  }

  /** Python's `min` of a non-empty list. */
  function Min(s: seq<real>): (m: real)
    requires |s| > 0
    ensures m in s && forall k :: 0 <= k < |s| ==> m <= s[k]
  {
    if |s| == 1 then s[0]
    else
      var rest := Min(s[1..]);
      if s[0] <= rest then s[0] else rest
  }

  /** Python's `max` of a non-empty list. */
  function Max(s: seq<real>): (m: real)
    requires |s| > 0
    ensures m in s && forall k :: 0 <= k < |s| ==> s[k] <= m
  {
    if |s| == 1 then s[0]
    else
      var rest := Max(s[1..]);
      if s[0] >= rest then s[0] else rest
  }

  /** What `get_sw_ne` returns for a polygon file, or why it raises. */
  function SwNe(file: PolygonFile): Result<Box, BoxError>
  {
    if file.geometries.None? then Failure(MissingGeometries)
    else
      match GeometriesPoints(file.geometries.value)
      case Failure(e) => Failure(e)
      case Success(points) =>
        if |points| == 0 then Failure(NoPoints)
        else
          var lats, lngs := Lats(points), Lngs(points);
          Success(Box((Min(lats), Min(lngs)), (Max(lats), Max(lngs))))
  }

  lemma {:induction false} PolygonsFailurePersists(polygons: seq<Polygon>, m: nat)
    requires m <= |polygons| && PolygonsPoints(polygons[..m]).Failure?
    ensures PolygonsPoints(polygons) == PolygonsPoints(polygons[..m])
    decreases |polygons| - m
  {
    if m < |polygons| {
      var front := polygons[..|polygons| - 1];
      assert front[..m] == polygons[..m];
      PolygonsFailurePersists(front, m);
    } else {
      assert polygons[..m] == polygons;
    }
  }

  lemma {:induction false} GeometriesFailurePersists(geometries: seq<Geometry>, m: nat)
    requires m <= |geometries| && GeometriesPoints(geometries[..m]).Failure?
    ensures GeometriesPoints(geometries) == GeometriesPoints(geometries[..m])
    decreases |geometries| - m
  {
    if m < |geometries| {
      var front := geometries[..|geometries| - 1];
      assert front[..m] == geometries[..m];
      GeometriesFailurePersists(front, m);
    } else {
      assert geometries[..m] == geometries;
    }
  }

  lemma LatsConcat(a: Ring, b: Ring)
    requires LongEnough(a) && LongEnough(b)
    ensures LongEnough(a + b)
    ensures Lats(a + b) == Lats(a) + Lats(b) && Lngs(a + b) == Lngs(a) + Lngs(b)
  {
    assert forall k :: 0 <= k < |a + b| ==> (a + b)[k] == if k < |a| then a[k] else b[k - |a|];
  }

  /** A polygon without a full outer ring makes the whole call fail with its error. */
  lemma PolygonFailureEndsCall(file: PolygonFile, g: nat, points: seq<Position>, c: nat, more: seq<Position>)
    requires file.geometries.Some? && g < |file.geometries.value|
    requires GeometriesPoints(file.geometries.value[..g]) == Success(points)
    requires file.geometries.value[g].coordinates.Some?
    requires c < |file.geometries.value[g].coordinates.value|
    requires PolygonsPoints(file.geometries.value[g].coordinates.value[..c]) == Success(more)
    requires !PolygonWellFormed(file.geometries.value[g].coordinates.value[c])
    ensures SwNe(file) == if |file.geometries.value[g].coordinates.value[c]| == 0
                          then Failure(EmptyPolygon) else Failure(ShortPosition)
  {
    var geometries := file.geometries.value;
    var coordinates := geometries[g].coordinates.value;
    assert coordinates[..c + 1][..c] == coordinates[..c];
    PolygonsFailurePersists(coordinates, c + 1);
    assert geometries[..g + 1][..g] == geometries[..g];
    GeometriesFailurePersists(geometries, g + 1);
  }

  /**
   * The imperative `get_sw_ne`: grows `lats` and `lngs` over the geometries
   * and their polygons, then takes their minima and maxima.
   */
  method GetSwNe(file: PolygonFile) returns (r: Result<Box, BoxError>)
    ensures r == SwNe(file)
  {
    if file.geometries.None? {
      return Failure(MissingGeometries);
    }
    var geometries := file.geometries.value;
    var lats: seq<real> := [];
    var lngs: seq<real> := [];
    ghost var points: seq<Position> := [];
    var g := 0;
    while g < |geometries|
      invariant 0 <= g <= |geometries|
      invariant GeometriesPoints(geometries[..g]) == Success(points)
      invariant lats == Lats(points) && lngs == Lngs(points)
    {
      var geometry := geometries[g];
      assert geometries[..g + 1][..g] == geometries[..g];
      if geometry.coordinates.None? {
        GeometriesFailurePersists(geometries, g + 1);
        return Failure(MissingCoordinates);
      }
      var coordinates := geometry.coordinates.value;
      ghost var more: seq<Position> := [];
      var c := 0;
      while c < |coordinates|
        invariant 0 <= c <= |coordinates|
        invariant PolygonsPoints(coordinates[..c]) == Success(more)
        invariant LongEnough(points + more)
        invariant lats == Lats(points + more) && lngs == Lngs(points + more)
      {
        var coordinate := coordinates[c];
        assert coordinates[..c + 1][..c] == coordinates[..c];
        if |coordinate| == 0 || !LongEnough(coordinate[0]) {
          r := if |coordinate| == 0 then Failure(EmptyPolygon) else Failure(ShortPosition);
          PolygonFailureEndsCall(file, g, points, c, more);
          return;
        }
        LatsConcat(points + more, coordinate[0]);
        assert points + more + coordinate[0] == points + (more + coordinate[0]);
        lats := lats + Lats(coordinate[0]);
        lngs := lngs + Lngs(coordinate[0]);
        more := more + coordinate[0];
        c := c + 1;
      }
      assert coordinates[..c] == coordinates;
      points := points + more;
      g := g + 1;
    }
    assert geometries[..g] == geometries;
    if |lats| == 0 {
      return Failure(NoPoints);
    }
    return Success(Box((Min(lats), Min(lngs)), (Max(lats), Max(lngs))));
  }

  /** The positions collected from `polygons` are exactly their outer rings' positions. */
  lemma {:induction false} PolygonsPointsAreOuterRings(polygons: seq<Polygon>)
    requires PolygonsPoints(polygons).Success?
    ensures forall p :: p in PolygonsPoints(polygons).value <==> OnPolygonsOuterRing(polygons, p)
  {
    if |polygons| > 0 {
      var front := polygons[..|polygons| - 1];
      var last := polygons[|polygons| - 1];
      PolygonsPointsAreOuterRings(front);
      forall p ensures p in PolygonsPoints(polygons).value <==> OnPolygonsOuterRing(polygons, p) {
        if OnPolygonsOuterRing(polygons, p) {
          var c :| 0 <= c < |polygons| && |polygons[c]| > 0 && p in polygons[c][0];
          if c < |polygons| - 1 {
            assert front[c] == polygons[c];
          }
        }
        if OnPolygonsOuterRing(front, p) {
          var c :| 0 <= c < |front| && |front[c]| > 0 && p in front[c][0];
          assert polygons[c] == front[c];
        }
      }
    }
  }

  /** The positions collected from the geometries are exactly their outer rings' positions. */
  lemma {:induction false} GeometriesPointsAreOuterRings(geometries: seq<Geometry>)
    requires GeometriesPoints(geometries).Success?
    ensures forall p :: p in GeometriesPoints(geometries).value <==> OnOuterRing(geometries, p)
  {
    if |geometries| > 0 {
      var front := geometries[..|geometries| - 1];
      var last := geometries[|geometries| - 1];
      GeometriesPointsAreOuterRings(front);
      PolygonsPointsAreOuterRings(last.coordinates.value);
      forall p ensures p in GeometriesPoints(geometries).value <==> OnOuterRing(geometries, p) {
        if OnOuterRing(geometries, p) {
          var g :| 0 <= g < |geometries| && geometries[g].coordinates.Some?
                   && OnPolygonsOuterRing(geometries[g].coordinates.value, p);
          if g < |geometries| - 1 {
            assert front[g] == geometries[g];
          }
        }
        if OnOuterRing(front, p) {
          var g :| 0 <= g < |front| && front[g].coordinates.Some?
                   && OnPolygonsOuterRing(front[g].coordinates.value, p);
          assert geometries[g] == front[g];
        }
      }
    }
  }

  /** Collecting from `polygons` succeeds exactly when every polygon has an outer ring of full positions. */
  lemma {:induction false} PolygonsPointsSucceed(polygons: seq<Polygon>)
    ensures PolygonsPoints(polygons).Success? <==> forall c :: 0 <= c < |polygons| ==> PolygonWellFormed(polygons[c])
  {
    if |polygons| > 0 {
      var front := polygons[..|polygons| - 1];
      PolygonsPointsSucceed(front);
      assert forall c :: 0 <= c < |front| ==> front[c] == polygons[c];
    }
  }

  /** Collecting from the geometries succeeds exactly when the file is well formed. */
  lemma {:induction false} GeometriesPointsSucceed(geometries: seq<Geometry>)
    ensures GeometriesPoints(geometries).Success? <==> WellFormed(geometries)
  {
    if |geometries| > 0 {
      var front := geometries[..|geometries| - 1];
      var last := geometries[|geometries| - 1];
      GeometriesPointsSucceed(front);
      assert forall g :: 0 <= g < |front| ==> front[g] == geometries[g];
      if last.coordinates.Some? {
        PolygonsPointsSucceed(last.coordinates.value);
      }
    }
  }

  /**
   * `get_sw_ne` returns corners exactly when the file has its geometries,
   * every key and index it reads is there, and some outer ring has a position;
   * a well-formed file without positions is the `min` of an empty list.
   */
  lemma SwNeSucceeds(file: PolygonFile)
    ensures SwNe(file).Success? <==>
      file.geometries.Some? && WellFormed(file.geometries.value) && exists p :: OnOuterRing(file.geometries.value, p)
    ensures SwNe(file) == Failure(NoPoints) <==>
      file.geometries.Some? && WellFormed(file.geometries.value) && forall p :: !OnOuterRing(file.geometries.value, p)
  {
    if file.geometries.Some? {
      var geometries := file.geometries.value;
      GeometriesPointsSucceed(geometries);
      if GeometriesPoints(geometries).Success? {
        var points := GeometriesPoints(geometries).value;
        GeometriesPointsAreOuterRings(geometries);
        if |points| > 0 {
          assert OnOuterRing(geometries, points[0]);
        }
      }
    }
  }

  /** The latitude lies between the corners' latitudes and the longitude between their longitudes. */
  predicate InBox(box: Box, p: Position)
    requires |p| >= 2
  {
    box.sw.0 <= p[1] <= box.ne.0 && box.sw.1 <= p[0] <= box.ne.1
  }

  /**
   * The corners are ordered, every outer-ring position lies in the box, and
   * each of the four bounds is reached by some outer-ring position.
   */
  lemma SwNeIsTightBox(file: PolygonFile)
    requires SwNe(file).Success?
    ensures var box, geometries := SwNe(file).value, file.geometries.value;
      && box.sw.0 <= box.ne.0 && box.sw.1 <= box.ne.1
      && (forall p :: OnOuterRing(geometries, p) ==> |p| >= 2 && InBox(box, p))
      && (exists p :: OnOuterRing(geometries, p) && |p| >= 2 && p[1] == box.sw.0)
      && (exists p :: OnOuterRing(geometries, p) && |p| >= 2 && p[0] == box.sw.1)
      && (exists p :: OnOuterRing(geometries, p) && |p| >= 2 && p[1] == box.ne.0)
      && (exists p :: OnOuterRing(geometries, p) && |p| >= 2 && p[0] == box.ne.1)
  {
    var box, geometries := SwNe(file).value, file.geometries.value;
    var points := GeometriesPoints(geometries).value;
    var lats, lngs := Lats(points), Lngs(points);
    GeometriesPointsAreOuterRings(geometries);
    forall p | OnOuterRing(geometries, p) ensures |p| >= 2 && InBox(box, p) {
      var k :| 0 <= k < |points| && points[k] == p;
      assert lats[k] == p[1] && lngs[k] == p[0];
    }
    var k0 :| 0 <= k0 < |lats| && lats[k0] == box.sw.0;
    assert OnOuterRing(geometries, points[k0]);
    var k1 :| 0 <= k1 < |lngs| && lngs[k1] == box.sw.1;
    assert OnOuterRing(geometries, points[k1]);
    var k2 :| 0 <= k2 < |lats| && lats[k2] == box.ne.0;
    assert OnOuterRing(geometries, points[k2]);
    var k3 :| 0 <= k3 < |lngs| && lngs[k3] == box.ne.1;
    assert OnOuterRing(geometries, points[k3]);
  }
}
