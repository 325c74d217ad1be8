/** transform_to_target_frame: moving one cloud into the target frame, in place, at byte level. */
module CloudTransform {
  import opened Words
  import opened PointCloud

  /** The four bytes of a float32. */
  type Float32 = s: seq<byte> | |s| == 4 witness [0, 0, 0, 0]

  datatype Xyz = Xyz(x: Float32, y: Float32, z: Float32)

  /** What a rigid transform does to three float32 coordinates. Nothing is assumed about it. */
  type Move = Xyz -> Xyz

  // ---- specification: one point ----

  function XyzOf(rec: seq<byte>, o: Offsets): Xyz
    requires InsidePoint(o, |rec|)
  {
    Xyz(Get(rec, o.x, 4), Get(rec, o.y, 4), Get(rec, o.z, 4))
  }

  /** The coordinates stored one after the other: where fields overlap the later one wins. */
  function PutXyz(s: seq<byte>, base: nat, o: Offsets, p: Xyz): (r: seq<byte>)
    ensures |r| == |s|
  {
    seq(|s|, k requires 0 <= k < |s| =>
      if base + o.z <= k < base + o.z + 4 then p.z[k - base - o.z]
      else if base + o.y <= k < base + o.y + 4 then p.y[k - base - o.y]
      else if base + o.x <= k < base + o.x + 4 then p.x[k - base - o.x]
      else s[k])
  }

  lemma PutXyzWithin(s: seq<byte>, base: nat, rec: seq<byte>, o: Offsets, p: Xyz)
    requires InsidePoint(o, |rec|) && base + |rec| <= |s|
    requires Get(s, base, |rec|) == rec
    ensures PutXyz(s, base, o, p) == Put(s, base, PutXyz(rec, 0, o, p))
  {
  }

  function MoveXyz(rec: seq<byte>, o: Offsets, move: Move): (r: seq<byte>)
    requires InsidePoint(o, |rec|)
    ensures |r| == |rec|
  {
    PutXyz(rec, 0, o, move(XyzOf(rec, o)))
  }

  /** The ring that the loop reads, after it has stored the coordinates; 0 without a ring field. */
  function RingSeen(rec: seq<byte>, o: Offsets, move: Move): (r: nat)
    requires InsidePoint(o, |rec|)
    ensures r < TWO_16
  {
    if o.ring < 0 then 0 else U16(MoveXyz(rec, o, move), o.ring)
  }

  function MoveRecord(rec: seq<byte>, o: Offsets, move: Move, ringOffset: nat): (r: seq<byte>)
    requires InsidePoint(o, |rec|)
    ensures |r| == |rec|
  {
    if o.ring < 0 then MoveXyz(rec, o, move)
    else Put(MoveXyz(rec, o, move), o.ring, Bytes16(Wrap16(RingSeen(rec, o, move) + ringOffset)))
  }

  /** With fields that do not overlap, a moved point has exactly the transformed coordinates and the shifted
      original ring. */
  lemma MoveRecordFields(rec: seq<byte>, o: Offsets, move: Move, ringOffset: nat)
    requires InsidePoint(o, |rec|) && Disjoint(o)
    ensures XyzOf(MoveRecord(rec, o, move, ringOffset), o) == move(XyzOf(rec, o))
    ensures o.ring >= 0 ==> RingSeen(rec, o, move) == U16(rec, o.ring)
    ensures o.ring >= 0 ==> U16(MoveRecord(rec, o, move, ringOffset), o.ring) == Wrap16(U16(rec, o.ring) + ringOffset)
  {
    var m := MoveXyz(rec, o, move);
    PutXyzFields(rec, o, move(XyzOf(rec, o)));
    if o.ring >= 0 {
      var v := Bytes16(Wrap16(RingSeen(rec, o, move) + ringOffset));
      GetPut(m, o.ring, v, o.x, 4);
      GetPut(m, o.ring, v, o.y, 4);
      GetPut(m, o.ring, v, o.z, 4);
    }
  }

  lemma PutXyzFields(rec: seq<byte>, o: Offsets, p: Xyz)
    requires InsidePoint(o, |rec|) && Disjoint(o)
    ensures XyzOf(PutXyz(rec, 0, o, p), o) == p
    ensures o.ring >= 0 ==> U16(PutXyz(rec, 0, o, p), o.ring) == U16(rec, o.ring)
  {
    var q := PutXyz(rec, 0, o, p);
    assert Get(q, o.x, 4) == p.x;
    assert Get(q, o.y, 4) == p.y;
    assert Get(q, o.z, 4) == p.z;
  }

  /** A byte of a point that belongs to no coordinate and not to the ring is the original one, whether or not the
      fields overlap. */
  lemma MoveRecordElsewhere(rec: seq<byte>, o: Offsets, move: Move, ringOffset: nat, k: nat)
    requires InsidePoint(o, |rec|) && k < |rec|
    requires !(o.x <= k < o.x + 4) && !(o.y <= k < o.y + 4) && !(o.z <= k < o.z + 4)
    requires o.ring >= 0 ==> !(o.ring <= k < o.ring + 2)
    ensures MoveRecord(rec, o, move, ringOffset)[k] == rec[k]
  {
  }

  /** MoveRecord and RingSeen as functions on every byte string, for points of `step` bytes. */
  ghost function Mover(step: nat, o: Offsets, move: Move, ringOffset: nat): (f: seq<byte> -> seq<byte>)
    requires InsidePoint(o, step)
    ensures LengthKept(f, step)
  {
    rec => if |rec| == step then MoveRecord(rec, o, move, ringOffset) else rec
  }

  ghost function RingReader(step: nat, o: Offsets, move: Move): seq<byte> -> nat
    requires InsidePoint(o, step)
  {
    rec => if |rec| == step then RingSeen(rec, o, move) else 0
  }

  lemma MoverAt(step: nat, o: Offsets, move: Move, ringOffset: nat, rec: seq<byte>)
    requires InsidePoint(o, step) && |rec| == step
    ensures Mover(step, o, move, ringOffset)(rec) == MoveRecord(rec, o, move, ringOffset)
    ensures RingReader(step, o, move)(rec) == RingSeen(rec, o, move)
  {
  }

  // ---- the loop ----

  /** The byte loop over `data`, which holds a copy of the incoming points. */
  method TransformPoints(data: array<byte>, step: nat, n: nat, o: Offsets, move: Move, ringOffset: nat)
    returns (maxRing: nat)
    requires InsidePoint(o, step) && Span(n, step) <= data.Length
    modifies data
    ensures data[..] == MapPoints(old(data[..]), step, n, Mover(step, o, move, ringOffset))
    ensures maxRing == MaxPoint(old(data[..]), step, n, RingReader(step, o, move))
  {
    ghost var f, g := Mover(step, o, move, ringOffset), RingReader(step, o, move);
    ghost var was := data[..];
    MapPointsStart(was, step, f, g);
    hide Mover, RingReader, MapPoints, MaxPoint, Span, MoveRecord, RingSeen, Rec, LengthKept;
    maxRing := 0;
    var base: nat := 0;
    for i := 0 to n
      invariant base == Span(i, step) <= Span(n, step)
      invariant data[..] == MapPoints(was, step, i, f)
      invariant maxRing == MaxPoint(was, step, i, g)
    {
      SpanWithin(i, n, step);
      MapPointsTurn(was, step, i, f, g);
      MoverAt(step, o, move, ringOffset, Rec(was, step, i));
      var ring := TransformPoint(data, base, o, move, ringOffset, Rec(was, step, i));
      if ring > maxRing { maxRing := ring; }
      base := base + step;
    }
  }

  /** One turn of the loop, on the point `rec` that starts at byte `base`. */
  method TransformPoint(data: array<byte>, base: nat, o: Offsets, move: Move, ringOffset: nat, ghost rec: seq<byte>)
    returns (ring: nat)
    requires InsidePoint(o, |rec|) && base + |rec| <= data.Length
    requires Get(data[..], base, |rec|) == rec
    modifies data
    ensures data[..] == Put(old(data[..]), base, MoveRecord(rec, o, move, ringOffset))
    ensures ring == RingSeen(rec, o, move)
  {
    ghost var was := data[..];
    ghost var moved := MoveXyz(rec, o, move);
    TransformXyz(data, base, o, move, rec);
    ring := 0;
    if o.ring >= 0 {
      GetPut(was, base, moved, base, |rec|);
      ring := ShiftRing(data, base, o.ring, ringOffset, moved);
      PutWithin(was, base, moved, o.ring, Bytes16(Wrap16(ring + ringOffset)));
    }
  }

  method ShiftRing(data: array<byte>, base: nat, at: nat, ringOffset: nat, ghost rec: seq<byte>)
    returns (ring: nat)
    requires at + 2 <= |rec| && base + |rec| <= data.Length
    requires Get(data[..], base, |rec|) == rec
    modifies data
    ensures ring == U16(rec, at)
    ensures data[..] == Put(old(data[..]), base + at, Bytes16(Wrap16(ring + ringOffset)))
  {
    GetWithin(data[..], base, |rec|, at, 2);
    ring := U16(data[base + at..base + at + 2], 0);
    Memcpy(data, base + at, Bytes16(Wrap16(ring + ringOffset)));
  }

  method TransformXyz(data: array<byte>, base: nat, o: Offsets, move: Move, ghost rec: seq<byte>)
    requires InsidePoint(o, |rec|) && base + |rec| <= data.Length
    requires Get(data[..], base, |rec|) == rec
    modifies data
    ensures data[..] == Put(old(data[..]), base, MoveXyz(rec, o, move))
  {
    var q := ReadXyz(data, base, o, rec);
    var p := move(q);
    PutXyzWithin(data[..], base, rec, o, p);
    StoreXyz(data, base, o, p);
  }

  method ReadXyz(data: array<byte>, base: nat, o: Offsets, ghost rec: seq<byte>) returns (q: Xyz)
    requires InsidePoint(o, |rec|) && base + |rec| <= data.Length
    requires Get(data[..], base, |rec|) == rec
    ensures q == XyzOf(rec, o)
  {
    var x := ReadFloat(data, base, o.x, rec);
    var y := ReadFloat(data, base, o.y, rec);
    var z := ReadFloat(data, base, o.z, rec);
    q := Xyz(x, y, z);
  }

  method ReadFloat(data: array<byte>, base: nat, at: nat, ghost rec: seq<byte>) returns (v: Float32)
    requires at + 4 <= |rec| && base + |rec| <= data.Length
    requires Get(data[..], base, |rec|) == rec
    ensures v == Get(rec, at, 4)
  {
    GetWithin(data[..], base, |rec|, at, 4);
    v := data[base + at..base + at + 4];
  }

  method StoreXyz(data: array<byte>, base: nat, o: Offsets, p: Xyz)
    requires 0 <= o.x && 0 <= o.y && 0 <= o.z
    requires base + Max(o.x, Max(o.y, o.z)) + 4 <= data.Length
    modifies data
    ensures data[..] == PutXyz(old(data[..]), base, o, p)
  {
    Memcpy(data, base + o.x, p.x);
    Memcpy(data, base + o.y, p.y);
    Memcpy(data, base + o.z, p.z);
  }

  // ---- a whole cloud ----

  ghost function Moved(c: Cloud, target: string, move: Move, ringOffset: nat): Cloud
    requires WellFormed(c) && HasXyz(c.fields)
  {
    c.(frameId := target,
       data := MapPoints(c.data, c.pointStep, c.Points(),
                         Mover(c.pointStep, ScannedOffsets(c.fields), move, ringOffset)))
  }

  /** How far a cloud pushes the ring numbers of the clouds after it. */
  ghost function RingSpan(c: Cloud, move: Move): nat
    requires WellFormed(c) && HasXyz(c.fields)
  {
    var o := ScannedOffsets(c.fields);
    if o.ring < 0 then 0 else MaxPoint(c.data, c.pointStep, c.Points(), RingReader(c.pointStep, o, move)) + 1
  }

  /** transform_to_target_frame once its transform is known. */
  method TransformCloud(c: Cloud, target: string, move: Move, ringOffset: nat)
    returns (out: Option<Cloud>, nextOffset: nat)
    requires WellFormed(c)
    ensures out == if HasXyz(c.fields) then Some(Moved(c, target, move, ringOffset)) else None
    ensures nextOffset == ringOffset + if HasXyz(c.fields) then RingSpan(c, move) else 0
  {
    var offsets := FindOffsets(c.fields);
    if offsets.None? { return None, ringOffset; }
    var o := offsets.value;
    var data := new byte[|c.data|](i requires 0 <= i < |c.data| => c.data[i]);
    assert data[..] == c.data;
    var maxRing := TransformPoints(data, c.pointStep, c.Points(), o, move, ringOffset);
    nextOffset := if o.ring >= 0 then ringOffset + maxRing + 1 else ringOffset;
    out := Some(c.(frameId := target, data := data[..]));
  }
}
