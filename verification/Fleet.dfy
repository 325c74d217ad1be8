/** Several AS-DT1 drivers feeding one combiner. */
module Fleet {
  import opened Words
  import opened PointCloud
  import opened CloudTransform
  import opened CloudMerge
  import opened Combiner
  import opened CombinerFacts
  import opened DriverNode

  const SENSOR_RINGS := 24

  /** How the bytes of a point are announced: float32 is 7, uint32 is 6 and uint16 is 4. */
  const FULL_FIELDS: seq<PointField> :=
    [PointField(X, 0, 7, 1), PointField(Y, 4, 7, 1), PointField(Z, 8, 7, 1),
     PointField(Intensity, 12, 6, 1), PointField(Time, 16, 6, 1), PointField(Ring, 20, 4, 1)]

  /** Cloud `i` is a driver message whose points lie on the sensor's 24 rings. */
  ghost predicate FromDriver(c: Cloud, ps: seq<Xyzitr>) {
    && Sendable(FullPoints(ps)) && c == DriverCloud(c.stamp, c.frameId, FullPoints(ps))
    && forall j :: 0 <= j < |ps| ==> ps[j].r < SENSOR_RINGS
  }

  lemma {:induction false} MaxPointBelow(data: seq<byte>, step: nat, n: nat, g: seq<byte> -> nat, bound: nat)
    requires Span(n, step) <= |data|
    requires forall j :: 0 <= j < n ==> Span(j, step) + step <= |data| && g(Rec(data, step, j)) <= bound
    ensures MaxPoint(data, step, n, g) <= bound
  {
    hide Rec;
    if n > 0 { MaxPointBelow(data, step, n - 1, g, bound); }
  }

  lemma DriverSpan(c: Cloud, ps: seq<Xyzitr>, move: Move)
    requires FromDriver(c, ps)
    ensures WellFormed(c) && HasXyz(c.fields) && HasRing(c)
    ensures RingSpan(c, move) <= SENSOR_RINGS
  {
    DriverCloudFits(c.stamp, c.frameId, FullPoints(ps), c);
    var o := ScannedOffsets(c.fields);
    var g := RingReader(c.pointStep, o, move);
    forall j | 0 <= j < |ps|
      ensures Span(j, c.pointStep) + c.pointStep <= |c.data| && g(Rec(c.data, c.pointStep, j)) < SENSOR_RINGS
    {
      SpanWithin(j, |ps|, c.pointStep);
      DriverRing(c, ps, move, j, o);
    }
    MaxPointBelow(c.data, c.pointStep, |ps|, g, SENSOR_RINGS - 1);
  }

  lemma DriverRing(c: Cloud, ps: seq<Xyzitr>, move: Move, j: nat, o: Offsets)
    requires FromDriver(c, ps) && j < |ps| && o == ScannedOffsets(c.fields)
    requires Span(j, c.pointStep) + c.pointStep <= |c.data| && InsidePoint(o, c.pointStep) && Disjoint(o)
    ensures RingSeen(Rec(c.data, c.pointStep, j), o, move) < SENSOR_RINGS
  {
    var rec := Rec(c.data, c.pointStep, j);
    DriverRecordReadBack(c.stamp, c.frameId, ps, c, o, j, rec);
    MoveRecordFields(rec, o, move, 0);
  }

  lemma {:induction false} SumBelow(s: seq<nat>, i: nat, bound: nat)
    requires i <= |s| && forall k :: 0 <= k < |s| ==> s[k] <= bound
    ensures SumTo(s, i) <= Span(i, bound)
  {
    if i > 0 { SumBelow(s, i - 1, bound); }
  }

  /** With at most 2730 sensors the rings of a combined cloud never collide: the ring number of an output point tells
      from which sensor it comes and which ring it had there. */
  lemma FleetRingsIdentifySensor(g: Geometry, clouds: seq<Cloud>, xfs: seq<Transform>, points: seq<seq<Xyzitr>>,
                                 i: nat, j: nat, k: nat, l: nat)
    requires |clouds| == |xfs| == |points| <= 2730
    requires forall m :: 0 <= m < |clouds| ==> FromDriver(clouds[m], points[m])
    requires HasPoint(clouds, i, j) && HasPoint(clouds, k, l)
    ensures Usable(clouds) && HasRing(clouds[i]) && HasRing(clouds[k])
    ensures RingAfter(g, clouds, xfs, i, j) == RingAfter(g, clouds, xfs, k, l)
      ==> i == k && RingBefore(clouds, i, j) == RingBefore(clouds, k, l)
  {
    hide FromDriver, WellFormed, HasXyz, RingSpan, RingAfter, RingBefore, HasRing;
    forall m | 0 <= m < |clouds|
      ensures WellFormed(clouds[m]) && HasXyz(clouds[m].fields) && HasRing(clouds[m])
      ensures RingSpan(clouds[m], MoveOf(g, xfs[m])) <= SENSOR_RINGS
    {
      DriverSpan(clouds[m], points[m], MoveOf(g, xfs[m]));
    }
    SumBelow(RingSpans(g, clouds, xfs), |clouds|, SENSOR_RINGS);
    SpanIsProduct(|clouds|, 24);
    if RingAfter(g, clouds, xfs, i, j) == RingAfter(g, clouds, xfs, k, l) {
      RingsIdentifySource(g, clouds, xfs, i, j, k, l);
    }
  }

  /** The sensor saw something on each of its rings. */
  ghost predicate CoversRings(ps: seq<Xyzitr>) { forall r :: 0 <= r < SENSOR_RINGS ==> SeesRing(ps, r) }

  ghost predicate SeesRing(ps: seq<Xyzitr>, r: nat) { exists j :: 0 <= j < |ps| && ps[j].r == r }

  /** The ring of a driver's point as the combiner reads it. */
  lemma DriverRingBefore(clouds: seq<Cloud>, i: nat, ps: seq<Xyzitr>, j: nat)
    requires Usable(clouds) && i < |clouds| && FromDriver(clouds[i], ps) && j < |ps|
    ensures HasPoint(clouds, i, j) && HasRing(clouds[i]) && RingBefore(clouds, i, j) == ps[j].r
  {
    hide XyzOf, FullRecord, Flat, RecordsOf, ScannedOffsets, U32, U16, Rec;
    DriverLayout(clouds[i], ps);
    DriverCloudFits(clouds[i].stamp, clouds[i].frameId, FullPoints(ps), clouds[i]);
    SpanWithin(j, |ps|, 22);
    ReadBack(clouds[i], ps, j, Rec(clouds[i].data, 22, j));
  }

  lemma {:induction false} SumOfEqual(s: seq<nat>, i: nat, each: nat)
    requires i <= |s| && forall k :: 0 <= k < |s| ==> s[k] == each
    ensures SumTo(s, i) == Span(i, each)
  {
    if i > 0 { SumOfEqual(s, i - 1, each); }
  }

  lemma CoversRing(ps: seq<Xyzitr>, r: nat)
    requires CoversRings(ps) && r < SENSOR_RINGS
    ensures SeesRing(ps, r)
  {
  }

  /** Sensors that saw something on all their rings reserve all 24 of them, and use them. */
  lemma FullSensorSpan(g: Geometry, clouds: seq<Cloud>, xfs: seq<Transform>, i: nat, ps: seq<Xyzitr>)
    requires Usable(clouds) && |clouds| == |xfs| && i < |clouds| && FromDriver(clouds[i], ps) && CoversRings(ps)
    ensures RingSpans(g, clouds, xfs)[i] == SENSOR_RINGS
    ensures forall r :: 0 <= r < SENSOR_RINGS ==> RingOccurs(clouds, i, r)
  {
    hide FromDriver, RingSpan, HasPoint, HasRing, RingBefore, CoversRings, Usable;
    DriverSpan(clouds[i], ps, MoveOf(g, xfs[i]));
    forall r | 0 <= r < SENSOR_RINGS
      ensures RingOccurs(clouds, i, r) && r < RingSpans(g, clouds, xfs)[i]
    {
      CoversRing(ps, r);
      var j :| 0 <= j < |ps| && ps[j].r == r;
      DriverRingBefore(clouds, i, ps, j);
      RingWithinSpan(g, clouds, xfs, i, j);
    }
    assert RingOccurs(clouds, i, 23);
  }

  /** 2730 is sharp: where every sensor saw something on all its rings, points of different sensors get the same ring
      exactly when there are more than 2730 sensors. */
  lemma FullFleetCollidesExactlyWhen(g: Geometry, clouds: seq<Cloud>, xfs: seq<Transform>, points: seq<seq<Xyzitr>>)
    requires |clouds| == |xfs| == |points|
    requires forall m :: 0 <= m < |clouds| ==> FromDriver(clouds[m], points[m]) && CoversRings(points[m])
    ensures Usable(clouds)
    ensures AllRingsOccur(g, clouds, xfs) && RingBase(g, clouds, xfs, |clouds|) == 24 * |clouds|
    ensures (exists i, j, k, l :: Collide(g, clouds, xfs, i, j, k, l)) <==> |clouds| > 2730
  {
    hide FromDriver, CoversRings, WellFormed, HasXyz, RingSpan, HasRing, HasPoint, Collide, RingOccurs;
    forall m | 0 <= m < |clouds| ensures WellFormed(clouds[m]) && HasXyz(clouds[m].fields) {
      DriverSpan(clouds[m], points[m], MoveOf(g, xfs[m]));
    }
    forall m | 0 <= m < |clouds|
      ensures RingSpans(g, clouds, xfs)[m] == SENSOR_RINGS
      ensures forall r :: 0 <= r < SENSOR_RINGS ==> RingOccurs(clouds, m, r)
    {
      FullSensorSpan(g, clouds, xfs, m, points[m]);
    }
    SumOfEqual(RingSpans(g, clouds, xfs), |clouds|, SENSOR_RINGS);
    SpanIsProduct(|clouds|, 24);
    RingsCollideExactlyWhen(g, clouds, xfs);
  }

  /** One point on every ring. */
  function PointPerRing(at: Xyz): (r: seq<Xyzitr>)
    ensures |r| == SENSOR_RINGS && forall k :: 0 <= k < SENSOR_RINGS ==> r[k].r == k
    ensures Sendable(FullPoints(r))
  {
    SpanIsProduct(24, 22);
    seq(SENSOR_RINGS, k requires 0 <= k < SENSOR_RINGS => Xyzitr(at.x, at.y, at.z, 0, 0, k))
  }

  /** The messages of `n` sensors that all saw the same. */
  ghost function SameMessages(n: nat, at: Xyz): (r: seq<Cloud>)
    ensures |r| == n && forall m :: 0 <= m < n ==> FromDriver(r[m], PointPerRing(at))
  {
    seq(n, m => DriverCloud(0, "", FullPoints(PointPerRing(at))))
  }

  /** One sensor too many: points of different sensors get the same ring. */
  lemma OneSensorTooMany(g: Geometry, at: Xyz, xfs: seq<Transform>, clouds: seq<Cloud>)
    requires |xfs| == 2731 && clouds == SameMessages(2731, at)
    ensures Usable(clouds) && exists i, j, k, l :: Collide(g, clouds, xfs, i, j, k, l)
  {
    hide FromDriver, SameMessages, PointPerRing, Collide, RingBase, AllRingsOccur, Usable;
    var ps := PointPerRing(at);
    assert CoversRings(ps) by {
      forall r | 0 <= r < SENSOR_RINGS ensures SeesRing(ps, r) { assert ps[r].r == r; }
    }
    FullFleetCollidesExactlyWhen(g, clouds, xfs, seq<seq<Xyzitr>>(2731, m => ps));
  }

  /** Driver messages have one schema and carry exactly the bytes they announce. */
  lemma FleetIsTight(clouds: seq<Cloud>, points: seq<seq<Xyzitr>>)
    requires 0 < |clouds| == |points|
    requires forall m :: 0 <= m < |clouds| ==> FromDriver(clouds[m], points[m])
    ensures Usable(clouds) && TightInputs(clouds)
    ensures forall m :: 0 <= m < |clouds| ==> SameSchema(clouds[m], clouds[0]) && clouds[m].Points() == |points[m]|
  {
    forall m | 0 <= m < |clouds|
      ensures WellFormed(clouds[m]) && HasXyz(clouds[m].fields) && SameSchema(clouds[m], clouds[0])
      ensures clouds[m].Points() == |points[m]| && |clouds[m].data| == Span(clouds[m].Points(), clouds[m].pointStep)
    {
      DriverCloudFits(clouds[m].stamp, clouds[m].frameId, FullPoints(points[m]), clouds[m]);
    }
  }

  /** A driver record after it was moved. */
  lemma MovedDriverRecord(was: seq<byte>, o: Offsets, move: Move, base: nat, rec: seq<byte>)
    requires |was| == 22 && o == Offsets(0, 4, 8, 12, 16, 20) && rec == MoveRecord(was, o, move, base)
    ensures |rec| == 22 && XyzOf(rec, o) == move(XyzOf(was, o))
    ensures U32(rec, 12) == U32(was, 12) && U32(rec, 16) == U32(was, 16) && U16(rec, 20) == Wrap16(U16(was, 20) + base)
  {
    hide MoveRecord, XyzOf, RingSeen;
    MoveRecordFields(was, o, move, base);
    forall k | 12 <= k < 20 ensures rec[k] == was[k] { MoveRecordElsewhere(was, o, move, base, k); }
  }

  lemma DriverLayout(c: Cloud, ps: seq<Xyzitr>)
    requires FromDriver(c, ps)
    ensures c.pointStep == 22 && ScannedOffsets(c.fields) == Offsets(0, 4, 8, 12, 16, 20)
    ensures !c.bigEndian && c.fields == FULL_FIELDS
    ensures InsidePoint(ScannedOffsets(c.fields), c.pointStep) && Disjoint(ScannedOffsets(c.fields))
  {
    TableOffsets(true);
  }

  lemma CombinedStep(g: Geometry, target: string, clouds: seq<Cloud>, xfs: seq<Transform>, out: Cloud)
    requires 0 < |clouds| == |xfs| && Usable(clouds) && CombinedCloud(g, target, clouds, xfs) == Some(out)
    ensures out.pointStep == clouds[0].pointStep && out.fields == clouds[0].fields
    ensures out.bigEndian == clouds[0].bigEndian && out.frameId == target && out.height == 1
  {
    hide CombinedCloud, PointsBefore;
    PublishedHeader(g, target, clouds, xfs, out);
  }

  /** From sensor to published cloud: point `j` of sensor `i` arrives with its coordinates transformed, its intensity
      and time untouched, and its ring shifted by the sensor's offset. */
  lemma FleetPointArrives(g: Geometry, target: string, clouds: seq<Cloud>, xfs: seq<Transform>,
                          points: seq<seq<Xyzitr>>, i: nat, j: nat, out: Cloud, k: nat)
    requires 0 < |clouds| == |xfs| == |points|
    requires forall m :: 0 <= m < |clouds| ==> FromDriver(clouds[m], points[m])
    requires i < |clouds| && j < |points[i]| && k == PointsBefore(clouds, i) + j
    requires Usable(clouds) && CombinedCloud(g, target, clouds, xfs) == Some(out)
    ensures Span(k, 22) + 22 <= |out.data| && out.pointStep == 22
    ensures !out.bigEndian && out.fields == FULL_FIELDS && out.frameId == target && out.height == 1
    ensures var rec, p := Rec(out.data, 22, k), points[i][j];
      && XyzOf(rec, Offsets(0, 4, 8, 12, 16, 20)) == g(xfs[i], Xyz(p.x, p.y, p.z))
      && U32(rec, 12) == p.i && U32(rec, 16) == p.t
      && U16(rec, 20) == Wrap16(p.r + RingBase(g, clouds, xfs, i))
  {
    hide FromDriver, Usable, TightInputs, CombinedCloud, WellFormed, HasXyz, MoveRecord, Rec, XyzOf, U32, U16;
    hide PointsBefore, RingBase, ScannedOffsets, InsidePoint, Disjoint;
    FleetIsTight(clouds, points);
    CombinedStep(g, target, clouds, xfs, out);
    DriverLayout(clouds[0], points[0]);
    DriverLayout(clouds[i], points[i]);
    PublishedPoint(g, target, clouds, xfs, i, j, out, k);
    var was := Rec(clouds[i].data, 22, j);
    ReadBack(clouds[i], points[i], j, was);
    MovedDriverRecord(was, Offsets(0, 4, 8, 12, 16, 20), MoveOf(g, xfs[i]), RingBase(g, clouds, xfs, i),
                      Rec(out.data, 22, k));
  }

  lemma ReadBack(c: Cloud, ps: seq<Xyzitr>, j: nat, rec: seq<byte>)
    requires FromDriver(c, ps) && j < |ps| && Span(j, 22) + 22 <= |c.data| && rec == Rec(c.data, 22, j)
    ensures |rec| == 22 && XyzOf(rec, Offsets(0, 4, 8, 12, 16, 20)) == Xyz(ps[j].x, ps[j].y, ps[j].z)
    ensures U32(rec, 12) == ps[j].i && U32(rec, 16) == ps[j].t && U16(rec, 20) == ps[j].r
  {
    DriverLayout(c, ps);
    hide Rec, XyzOf, FullRecord, Flat, RecordsOf, ScannedOffsets, U32, U16;
    DriverRecordReadBack(c.stamp, c.frameId, ps, c, ScannedOffsets(c.fields), j, rec);
  }
}
