/** The point cloud message and the layout of its points (find_offsets). */
module PointCloud {
  import opened Words

  // sensor_msgs/PointField datatype codes
  const UINT16 := 4
  const UINT32 := 6
  const FLOAT32 := 7

  /** The field names the combiner knows; `Other` is any further name. */
  datatype FieldName = X | Y | Z | Intensity | Time | Ring | Other(text: string)

  datatype PointField = PointField(name: FieldName, offset: nat, kind: nat, count: nat)

  /** sensor_msgs/PointCloud2; `stamp` is the header stamp in nanoseconds. */
  datatype Cloud = Cloud(
    stamp: nat, frameId: string, height: nat, width: nat, fields: seq<PointField>,
    bigEndian: bool, pointStep: nat, rowStep: nat, data: seq<byte>, dense: bool)
  {
    /** width * height, see SpanIsProduct. */
    function Points(): nat { Span(height, width) }
  }

  /** Byte offsets inside one point; a negative offset means the field is absent. */
  datatype Offsets = Offsets(x: int, y: int, z: int, intensity: int, time: int, ring: int)

  /** A uint32 field offset stored into a C++ int. */
  function ToInt32(x: nat): int { Signed(Wrap32(x), TWO_31) }

  predicate Matches(f: PointField, name: FieldName, kind: nat) { f.name == name && f.kind == kind }

  /** The offset that a scan in field order leaves behind: the last match wins. */
  function LastOffset(fields: seq<PointField>, name: FieldName, kind: nat): int {
    if fields == [] then -1
    else
      var last := fields[|fields| - 1];
      if Matches(last, name, kind) then ToInt32(last.offset)
      else LastOffset(fields[..|fields| - 1], name, kind)
  }

  function ScannedOffsets(fields: seq<PointField>): Offsets {
    Offsets(
      LastOffset(fields, X, FLOAT32), LastOffset(fields, Y, FLOAT32), LastOffset(fields, Z, FLOAT32),
      LastOffset(fields, Intensity, UINT32), LastOffset(fields, Time, UINT32), LastOffset(fields, Ring, UINT16))
  }

  predicate HasXyz(fields: seq<PointField>) {
    var o := ScannedOffsets(fields);
    o.x >= 0 && o.y >= 0 && o.z >= 0
  }

  /** With `k` the highest index of a matching field (-1 without a match), the scan yields that field's offset. */
  lemma {:induction false} LastOffsetIsTheLastMatch(fields: seq<PointField>, name: FieldName, kind: nat, k: int)
    requires -1 <= k < |fields|
    requires k >= 0 ==> Matches(fields[k], name, kind)
    requires forall j :: k < j < |fields| ==> !Matches(fields[j], name, kind)
    ensures LastOffset(fields, name, kind) == if k < 0 then -1 else ToInt32(fields[k].offset)
  {
    if k < |fields| - 1 {
      LastOffsetIsTheLastMatch(fields[..|fields| - 1], name, kind, k);
    }
  }

  /** Field `k` is the last match; -1 when there is none. */
  predicate LastMatch(fields: seq<PointField>, name: FieldName, kind: nat, k: int) {
    && -1 <= k < |fields| && (k >= 0 ==> Matches(fields[k], name, kind))
    && forall j :: k < j < |fields| ==> !Matches(fields[j], name, kind)
  }

  /** A cloud is usable exactly when x, y and z each have a float32 field and the offset of the last such field is not
      negative as a C++ int. */
  lemma HasXyzExactlyWhen(fields: seq<PointField>, x: int, y: int, z: int)
    requires LastMatch(fields, X, 7, x) && LastMatch(fields, Y, 7, y) && LastMatch(fields, Z, 7, z)
    requires forall j :: 0 <= j < |fields| ==> fields[j].offset < TWO_32
    ensures HasXyz(fields) <==>
      && x >= 0 && fields[x].offset < 0x8000_0000
      && y >= 0 && fields[y].offset < 0x8000_0000
      && z >= 0 && fields[z].offset < 0x8000_0000
  {
    hide LastOffset;
    LastOffsetIsTheLastMatch(fields, X, 7, x);
    LastOffsetIsTheLastMatch(fields, Y, 7, y);
    LastOffsetIsTheLastMatch(fields, Z, 7, z);
  }

  method FindOffsets(fields: seq<PointField>) returns (r: Option<Offsets>)
    ensures r == if HasXyz(fields) then Some(ScannedOffsets(fields)) else None
  {
    var x, y, z, intensity, time, ring := -1, -1, -1, -1, -1, -1;
    for k := 0 to |fields|
      invariant Offsets(x, y, z, intensity, time, ring) == ScannedOffsets(fields[..k])
    {
      var f := fields[k];
      assert fields[..k + 1][..k] == fields[..k];
      if f.name == X && f.kind == FLOAT32 { x := ToInt32(f.offset); }
      if f.name == Y && f.kind == FLOAT32 { y := ToInt32(f.offset); }
      if f.name == Z && f.kind == FLOAT32 { z := ToInt32(f.offset); }
      if f.name == Intensity && f.kind == UINT32 { intensity := ToInt32(f.offset); }
      if f.name == Time && f.kind == UINT32 { time := ToInt32(f.offset); }
      if f.name == Ring && f.kind == UINT16 { ring := ToInt32(f.offset); }
    }
    assert fields[..|fields|] == fields;
    if x < 0 || y < 0 || z < 0 { return None; }
    r := Some(Offsets(x, y, z, intensity, time, ring));
  }

  /** Every field that the combiner touches lies inside a point of `step` bytes. */
  predicate InsidePoint(o: Offsets, step: nat) {
    && 0 <= o.x && o.x + 4 <= step
    && 0 <= o.y && o.y + 4 <= step
    && 0 <= o.z && o.z + 4 <= step
    && (o.ring >= 0 ==> o.ring + 2 <= step)
  }

  predicate Apart(a: int, n: nat, b: int, m: nat) { a + n <= b || b + m <= a }

  /** The touched fields do not overlap. */
  predicate Disjoint(o: Offsets) {
    && Apart(o.x, 4, o.y, 4) && Apart(o.x, 4, o.z, 4) && Apart(o.y, 4, o.z, 4)
    && (o.ring >= 0 ==> Apart(o.x, 4, o.ring, 2) && Apart(o.y, 4, o.ring, 2) && Apart(o.z, 4, o.ring, 2))
  }

  /** The bytes that `n` points take: the product `n * step`, summed up so that proofs stay linear. */
  function Span(n: nat, step: nat): nat {
    if n == 0 then 0 else Span(n - 1, step) + step
  }

  lemma {:induction false} SpanIsProduct(n: nat, step: nat)
    ensures Span(n, step) == n * step
  {
    if n > 0 { SpanIsProduct(n - 1, step); }
  }

  lemma {:induction false} SpanPlus(m: nat, n: nat, step: nat)
    ensures Span(m + n, step) == Span(m, step) + Span(n, step)
  {
    if n > 0 { SpanPlus(m, n - 1, step); }
  }

  /** Point `j` of `n` ends within the bytes of `n` points. */
  lemma SpanWithin(j: nat, n: nat, step: nat)
    requires j < n
    ensures Span(j, step) + step <= Span(n, step)
  {
  }

  /** The buffer holds every announced point and the touched fields lie inside a point. Nothing is asked
      of a cloud without x/y/z fields: the combiner never looks at its bytes. */
  predicate WellFormed(c: Cloud) {
    HasXyz(c.fields) ==> InsidePoint(ScannedOffsets(c.fields), c.pointStep) && Span(c.Points(), c.pointStep) <= |c.data|
  }

  /** The j-th point of a buffer. */
  function Rec(data: seq<byte>, step: nat, j: nat): (r: seq<byte>)
    requires Span(j, step) + step <= |data|
    ensures |r| == step
  {
    data[Span(j, step)..Span(j, step) + step]
  }

  // ---- a function applied to every point of a buffer ----

  ghost predicate LengthKept(f: seq<byte> -> seq<byte>, step: nat) {
    forall rec :: |rec| == step ==> |f(rec)| == step
  }

  /** The first `n` points mapped, the rest of the buffer untouched. */
  ghost function MapPoints(data: seq<byte>, step: nat, n: nat, f: seq<byte> -> seq<byte>): (r: seq<byte>)
    requires LengthKept(f, step) && Span(n, step) <= |data|
    ensures |r| == |data|
  {
    if n == 0 then data
    else Put(MapPoints(data, step, n - 1, f), Span(n - 1, step), f(Rec(data, step, n - 1)))
  }

  /** The largest value of `g` on the first `n` points, 0 when there is none. */
  ghost function MaxPoint(data: seq<byte>, step: nat, n: nat, g: seq<byte> -> nat): nat
    requires Span(n, step) <= |data|
  {
    if n == 0 then 0 else Max(MaxPoint(data, step, n - 1, g), g(Rec(data, step, n - 1)))
  }

  lemma MapPointsStart(data: seq<byte>, step: nat, f: seq<byte> -> seq<byte>, g: seq<byte> -> nat)
    requires LengthKept(f, step)
    ensures Span(0, step) == 0 && MapPoints(data, step, 0, f) == data && MaxPoint(data, step, 0, g) == 0
  {
  }

  lemma MapPointsTurn(data: seq<byte>, step: nat, i: nat, f: seq<byte> -> seq<byte>, g: seq<byte> -> nat)
    requires LengthKept(f, step) && Span(i, step) + step <= |data|
    ensures Span(i + 1, step) == Span(i, step) + step
    ensures Get(MapPoints(data, step, i, f), Span(i, step), step) == Rec(data, step, i)
    ensures MapPoints(data, step, i + 1, f) == Put(MapPoints(data, step, i, f), Span(i, step), f(Rec(data, step, i)))
    ensures MaxPoint(data, step, i + 1, g) == Max(MaxPoint(data, step, i, g), g(Rec(data, step, i)))
  {
    MapPointsAt(data, step, i, f, i);
  }

  /** MapPoints is the pointwise image: point `j` of the result is `f` of point `j` if `j < n`, and every byte behind
      the first `n` points is the original one. */
  lemma {:induction false} MapPointsAt(data: seq<byte>, step: nat, n: nat, f: seq<byte> -> seq<byte>, j: nat)
    requires LengthKept(f, step) && Span(n, step) <= |data|
    requires Span(j, step) + step <= |data|
    ensures Rec(MapPoints(data, step, n, f), step, j) == if j < n then f(Rec(data, step, j)) else Rec(data, step, j)
  {
    hide Put;
    if n > 0 {
      MapPointsAt(data, step, n - 1, f, j);
      if j < n - 1 { SpanWithin(j, n - 1, step); }
      if j > n - 1 { SpanWithin(n - 1, j, step); }
      GetPut(MapPoints(data, step, n - 1, f), Span(n - 1, step), f(Rec(data, step, n - 1)), Span(j, step), step);
    }
  }

  /** Bytes behind the mapped points are the original ones. */
  lemma {:induction false} MapPointsBeyond(data: seq<byte>, step: nat, n: nat, f: seq<byte> -> seq<byte>, k: nat)
    requires LengthKept(f, step) && Span(n, step) <= k < |data|
    ensures MapPoints(data, step, n, f)[k] == data[k]
  {
    if n > 0 { MapPointsBeyond(data, step, n - 1, f, k); }
  }

  lemma {:induction false} MaxPointBounds(data: seq<byte>, step: nat, n: nat, g: seq<byte> -> nat, j: nat)
    requires Span(n, step) <= |data| && j < n
    ensures Span(j, step) + step <= |data|
    ensures g(Rec(data, step, j)) <= MaxPoint(data, step, n, g)
  {
    if j < n - 1 { MaxPointBounds(data, step, n - 1, g, j); }
  }

  lemma {:induction false} MaxPointAttained(data: seq<byte>, step: nat, n: nat, g: seq<byte> -> nat) returns (j: nat)
    requires Span(n, step) <= |data| && n > 0
    ensures j < n && Span(j, step) + step <= |data| && g(Rec(data, step, j)) == MaxPoint(data, step, n, g)
  {
    j := n - 1;
    if n > 1 && MaxPoint(data, step, n - 1, g) > g(Rec(data, step, n - 1)) {
      j := MaxPointAttained(data, step, n - 1, g);
    }
  }
}
