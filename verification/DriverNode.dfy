/** The driver node: its field table and the packed records it publishes, and how the combiner reads them back. */
module DriverNode {
  import opened Words
  import opened PointCloud
  import opened CloudTransform

  /** A decoded point as the node stores it: three float32 values and three unsigned words. */
  datatype Xyzitr = Xyzitr(x: Float32, y: Float32, z: Float32, i: nat, t: nat, r: nat)

  predicate Fits(p: Xyzitr) { p.i < TWO_32 && p.t < TWO_32 && p.r < TWO_16 }

  datatype Points = PlainPoints(xyz: seq<Xyz>) | FullPoints(xyzitr: seq<Xyzitr>)

  // ---- the field table ----

  method FieldTable(full: bool) returns (fields: seq<PointField>)
    ensures ScannedOffsets(fields) == if full then Offsets(0, 4, 8, 12, 16, 20) else Offsets(0, 4, 8, -1, -1, -1)
    ensures fields == Table(full)
  {
    var offset := 0;
    fields := [PointField(X, offset, FLOAT32, 1)];
    offset := offset + 4;
    fields := fields + [PointField(Y, offset, FLOAT32, 1)];
    offset := offset + 4;
    fields := fields + [PointField(Z, offset, FLOAT32, 1)];
    offset := offset + 4;
    if full {
      fields := fields + [PointField(Intensity, offset, UINT32, 1)];
      offset := offset + 4;
      fields := fields + [PointField(Time, offset, UINT32, 1)];
      offset := offset + 4;
      fields := fields + [PointField(Ring, offset, UINT16, 1)];
    }
    assert fields == Table(full);
    TableOffsets(full);
  }

  const PLAIN := [PointField(X, 0, FLOAT32, 1), PointField(Y, 4, FLOAT32, 1), PointField(Z, 8, FLOAT32, 1)]
  const EXTRA :=
    [PointField(Intensity, 12, UINT32, 1), PointField(Time, 16, UINT32, 1), PointField(Ring, 20, UINT16, 1)]

  function Table(full: bool): seq<PointField> { if full then PLAIN + EXTRA else PLAIN }

  lemma TableOffsets(full: bool)
    ensures ScannedOffsets(Table(full)) == if full then Offsets(0, 4, 8, 12, 16, 20) else Offsets(0, 4, 8, -1, -1, -1)
  {
    var f := Table(full);
    LastOffsetIsTheLastMatch(f, X, FLOAT32, 0);
    LastOffsetIsTheLastMatch(f, Y, FLOAT32, 1);
    LastOffsetIsTheLastMatch(f, Z, FLOAT32, 2);
    LastOffsetIsTheLastMatch(f, Intensity, UINT32, if full then 3 else -1);
    LastOffsetIsTheLastMatch(f, Time, UINT32, if full then 4 else -1);
    LastOffsetIsTheLastMatch(f, Ring, UINT16, if full then 5 else -1);
  }

  // ---- the packed records ----

  function PlainRecord(p: Xyz): (r: seq<byte>)
    ensures |r| == 12
  {
    p.x + p.y + p.z
  }

  function FullRecord(p: Xyzitr): (r: seq<byte>)
    requires Fits(p)
    ensures |r| == 22
  {
    p.x + p.y + p.z + Bytes32(p.i) + Bytes32(p.t) + Bytes16(p.r)
  }

  function RecordsOf(points: Points): seq<seq<byte>>
    requires points.FullPoints? ==> forall k :: 0 <= k < |points.xyzitr| ==> Fits(points.xyzitr[k])
  {
    match points
    case PlainPoints(ps) => seq(|ps|, k requires 0 <= k < |ps| => PlainRecord(ps[k]))
    case FullPoints(ps) => seq(|ps|, k requires 0 <= k < |ps| => FullRecord(ps[k]))
  }

  ghost predicate AllLong(records: seq<seq<byte>>, step: nat) {
    forall k :: 0 <= k < |records| ==> |records[k]| == step
  }

  lemma {:induction false} FlatLength(records: seq<seq<byte>>, step: nat)
    requires AllLong(records, step)
    ensures |Flat(records)| == Span(|records|, step)
  {
    if records != [] { FlatLength(records[..|records| - 1], step); }
  }

  lemma {:induction false} FlatAt(records: seq<seq<byte>>, step: nat, j: nat)
    requires AllLong(records, step) && j < |records|
    ensures Span(j, step) + step <= |Flat(records)|
    ensures Rec(Flat(records), step, j) == records[j]
  {
    var n := |records| - 1;
    FlatLength(records[..n], step);
    if j < n { FlatAt(records[..n], step, j); }
  }

  function StepOf(points: Points): nat { if points.PlainPoints? then 12 else 22 }

  ghost predicate Sendable(points: Points) {
    && (points.FullPoints? ==> forall k :: 0 <= k < |points.xyzitr| ==> Fits(points.xyzitr[k]))
    && Span(Count(points), StepOf(points)) < TWO_32
  }

  function Count(points: Points): nat { if points.PlainPoints? then |points.xyz| else |points.xyzitr| }

  /** The message for a list of points. */
  ghost function DriverCloud(stamp: nat, frameId: string, points: Points): Cloud
    requires Sendable(points)
  {
    var data := Flat(RecordsOf(points));
    Cloud(stamp, frameId, 1, Count(points), Table(points.FullPoints?), false, StepOf(points), |data|, data, false)
  }

  method StoreRecord(data: array<byte>, pos: nat, p: Xyzitr)
    requires Fits(p) && pos + 22 <= data.Length
    modifies data
    ensures data[..] == Put(old(data[..]), pos, FullRecord(p))
  {
    hide Put, Bytes32, Bytes16;
    ghost var was := data[..];
    Memcpy(data, pos, p.x);
    Memcpy(data, pos + 4, p.y);
    PutNext(was, pos, p.x, p.y);
    Memcpy(data, pos + 8, p.z);
    PutNext(was, pos, p.x + p.y, p.z);
    Memcpy(data, pos + 12, Bytes32(p.i));
    PutNext(was, pos, p.x + p.y + p.z, Bytes32(p.i));
    Memcpy(data, pos + 16, Bytes32(p.t));
    PutNext(was, pos, p.x + p.y + p.z + Bytes32(p.i), Bytes32(p.t));
    Memcpy(data, pos + 20, Bytes16(p.r));
    PutNext(was, pos, p.x + p.y + p.z + Bytes32(p.i) + Bytes32(p.t), Bytes16(p.r));
  }

  lemma PutNext(s: seq<byte>, at: nat, u: seq<byte>, v: seq<byte>)
    requires at + |u| + |v| <= |s|
    ensures Put(Put(s, at, u), at + |u|, v) == Put(s, at, u + v)
  {
  }

  /** The loop that writes one packed record after the other through an advancing position. */
  method StoreRecords(data: array<byte>, ps: seq<Xyzitr>)
    requires Sendable(FullPoints(ps)) && data.Length == Span(|ps|, 22)
    modifies data
    ensures data[..] == Flat(RecordsOf(FullPoints(ps)))
  {
    hide FullRecord, Fits;
    ghost var records := RecordsOf(FullPoints(ps));
    var pos: nat := 0;
    for k := 0 to |ps|
      invariant pos == Span(k, 22) <= data.Length
      invariant data[..pos] == Flat(records[..k])
    {
      SpanWithin(k, |ps|, 22);
      assert records[..k + 1][..k] == records[..k];
      ghost var before := data[..];
      StoreRecord(data, pos, ps[k]);
      PutBehind(before, pos, records[k]);
      pos := pos + 22;
    }
    assert records[..|ps|] == records;
  }

  /** on_point_cloud. Plain points are already laid out as they are sent and are copied in one go. */
  method OnPointCloud(stamp: nat, frameId: string, points: Points) returns (msg: Cloud)
    requires Sendable(points)
    ensures msg == DriverCloud(stamp, frameId, points)
  {
    var fields := FieldTable(points.FullPoints?);
    var step, n := StepOf(points), Count(points);
    FlatLength(RecordsOf(points), step);
    SpanIsProduct(n, step);
    var data := new byte[n * step](_ => 0);
    match points {
      case PlainPoints(ps) =>
        Memcpy(data, 0, Flat(RecordsOf(points)));
        assert data[..] == Flat(RecordsOf(points));
      case FullPoints(ps) =>
        StoreRecords(data, ps);
    }
    msg := Cloud(stamp, frameId, 1, n, fields, false, step, n * step, data[..], false);
  }

  // ---- the combiner reads back what the driver wrote ----

  /** Every driver message meets what the combiner asks of its inputs, and is tightly packed. */
  lemma DriverCloudFits(stamp: nat, frameId: string, points: Points, c: Cloud)
    requires Sendable(points) && c == DriverCloud(stamp, frameId, points)
    ensures WellFormed(c) && HasXyz(c.fields) && Disjoint(ScannedOffsets(c.fields))
    ensures c.Points() == Count(points) && |c.data| == Span(c.Points(), c.pointStep)
    ensures ScannedOffsets(c.fields).ring == if points.FullPoints? then 20 else -1
    ensures c.stamp == stamp && c.frameId == frameId && !c.bigEndian && !c.dense
    ensures c.height == 1 && c.width == Count(points) && c.rowStep == c.width * c.pointStep
    ensures c.pointStep == if points.FullPoints? then 22 else 12
  {
    TableOffsets(points.FullPoints?);
    FlatLength(RecordsOf(points), StepOf(points));
    SpanIsProduct(c.width, c.pointStep);
    assert Span(0, c.width) == 0 && Span(1, c.width) == c.width;
  }

  /** The same for points without intensity, time and ring: three coordinates per record and no other field. */
  lemma PlainRecordReadBack(stamp: nat, frameId: string, ps: seq<Xyz>, c: Cloud, o: Offsets, j: nat, rec: seq<byte>)
    requires Sendable(PlainPoints(ps)) && c == DriverCloud(stamp, frameId, PlainPoints(ps))
    requires o == ScannedOffsets(c.fields) && j < |ps|
    requires Span(j, c.pointStep) + c.pointStep <= |c.data| && rec == Rec(c.data, c.pointStep, j)
    ensures InsidePoint(o, |rec|) && o.intensity == o.time == o.ring == -1
    ensures XyzOf(rec, o) == ps[j]
  {
    TableOffsets(false);
    FlatAt(RecordsOf(PlainPoints(ps)), 12, j);
  }

  /** At the offsets that find_offsets derives from the driver's field table, each record holds the original point. */
  lemma DriverRecordReadBack(stamp: nat, frameId: string, ps: seq<Xyzitr>, c: Cloud, o: Offsets, j: nat, rec: seq<byte>)
    requires Sendable(FullPoints(ps)) && c == DriverCloud(stamp, frameId, FullPoints(ps))
    requires o == ScannedOffsets(c.fields) && j < |ps|
    requires Span(j, c.pointStep) + c.pointStep <= |c.data| && rec == Rec(c.data, c.pointStep, j)
    ensures InsidePoint(o, |rec|) && o.intensity == 12 && o.time == 16 && o.ring == 20
    ensures XyzOf(rec, o) == Xyz(ps[j].x, ps[j].y, ps[j].z)
    ensures U32(rec, o.intensity) == ps[j].i && U32(rec, o.time) == ps[j].t && U16(rec, o.ring) == ps[j].r
  {
    TableOffsets(true);
    FlatAt(RecordsOf(FullPoints(ps)), 22, j);
    FullRecordFields(ps[j], rec);
  }

  lemma FullRecordFields(p: Xyzitr, rec: seq<byte>)
    requires Fits(p) && rec == FullRecord(p)
    ensures Get(rec, 0, 4) == p.x && Get(rec, 4, 4) == p.y && Get(rec, 8, 4) == p.z
    ensures U32(rec, 12) == p.i && U32(rec, 16) == p.t && U16(rec, 20) == p.r
  {
  }
}
