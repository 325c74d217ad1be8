/** The CDC point decoder: the row permutation and the packed 20-bit fields. */
module CdcDecoder {
  import opened Words
  import opened Modes
  import opened SensorRings

  const LINE_ORDER: seq<nat> := [0, 2, 12, 14, 4, 6, 16, 18, 8, 10, 20, 22, 1, 3, 13, 15, 5, 7, 17, 19, 9, 11, 21, 23]

  const SLOT_BYTES := 15

  datatype OutOfRange = OutOfRange

  /** A decoded point in quarter millimetres; a peak at the origin means that nothing was seen. */
  datatype Point = Nothing | Hit(x: int, y: int, z: int)

  // ---- the slot that a point is taken from ----

  function OffsetFullRes(p: nat): nat
    requires p < 576
  {
    15 * (24 * LINE_ORDER[p / 24] + p % 24)
  }

  function OffsetHalfRes(p: nat): nat
    requires p < 288
  {
    15 * (24 * LINE_ORDER[p / 24] / 2 + p % 24)
  }

  function OffsetOf(mode: Mode, p: nat): nat
    requires p < PointCount(mode)
  {
    TableIsConsistent(mode);
    if mode == MODE_30M30F then OffsetHalfRes(p) else OffsetFullRes(p)
  }

  /** The two decoders agree: point 48 * bank + mp comes from the row that bank_to_ring gives to (bank, mp). */
  lemma RowsAgree(mode: Mode, bank: nat, mp: nat)
    requires bank < PointBanks(mode) && mp < POINTS_PER_BANK
    ensures 48 * bank + mp < PointCount(mode)
    ensures OffsetOf(mode, 48 * bank + mp) == 15 * (24 * BankToRing(bank, mp, mode) + mp % 24)
  {
    TableIsConsistent(mode);
    var r := 2 * bank + mp / 24;
    assert (48 * bank + mp) / 24 == r && (48 * bank + mp) % 24 == mp % 24;
    OffsetByRow(mode, 48 * bank + mp, r, mp % 24);
    assert RowFrom(mode, r) == BankToRing(bank, mp, mode) by {
      RowTable(r);
      assert r / 2 == bank && r % 2 == mp / 24;
    }
  }

  /** The two tables, row by row. */
  lemma RowTable(r: nat)
    requires r < 24
    ensures LINE_ORDER[r] == BANK_TO_RING_FULL[r / 2] + 2 * (r % 2)
    ensures r < 12 ==> LINE_ORDER[r] / 2 == BANK_TO_RING_HALF[r / 2] + r % 2 && LINE_ORDER[r] % 2 == 0
  {
    assert LINE_ORDER == [0, 2] + [12, 14] + [4, 6] + [16, 18] + [8, 10] + [20, 22]
                       + [1, 3] + [13, 15] + [5, 7] + [17, 19] + [9, 11] + [21, 23];
    if
    case r < 4 => if { case r == 0 => case r == 1 => case r == 2 => case r == 3 => }
    case 4 <= r < 8 => if { case r == 4 => case r == 5 => case r == 6 => case r == 7 => }
    case 8 <= r < 12 => if { case r == 8 => case r == 9 => case r == 10 => case r == 11 => }
    case 12 <= r < 16 => if { case r == 12 => case r == 13 => case r == 14 => case r == 15 => }
    case 16 <= r < 20 => if { case r == 16 => case r == 17 => case r == 18 => case r == 19 => }
    case 20 <= r => if { case r == 20 => case r == 21 => case r == 22 => case r == 23 => }
  }

  // ---- both maps are bijections onto the slots ----

  /** The cloud row that sensor row `s` ends up in. */
  const ROW_FULL: seq<nat> := [0, 12, 1, 13, 4, 16, 5, 17, 8, 20, 9, 21, 2, 14, 3, 15, 6, 18, 7, 19, 10, 22, 11, 23]
  const ROW_HALF: seq<nat> := [0, 1, 4, 5, 8, 9, 2, 3, 6, 7, 10, 11]

  lemma RowsInvert(r: nat)
    requires r < 24
    ensures LINE_ORDER[r] < 24 && ROW_FULL[LINE_ORDER[r]] == r
    ensures ROW_FULL[r] < 24 && LINE_ORDER[ROW_FULL[r]] == r
    ensures r < 12 ==> LINE_ORDER[r] / 2 < 12 && ROW_HALF[LINE_ORDER[r] / 2] == r
    ensures r < 12 ==> ROW_HALF[r] < 12 && LINE_ORDER[ROW_HALF[r]] == 2 * r
  {
    if
    case r < 4 => if { case r == 0 => case r == 1 => case r == 2 => case r == 3 => }
    case 4 <= r < 8 => if { case r == 4 => case r == 5 => case r == 6 => case r == 7 => }
    case 8 <= r < 12 => if { case r == 8 => case r == 9 => case r == 10 => case r == 11 => }
    case 12 <= r < 16 => if { case r == 12 => case r == 13 => case r == 14 => case r == 15 => }
    case 16 <= r < 20 => if { case r == 16 => case r == 17 => case r == 18 => case r == 19 => }
    case 20 <= r => if { case r == 20 => case r == 21 => case r == 22 => case r == 23 => }
  }

  /** The sensor row of a cloud row, and back. */
  function RowFrom(mode: Mode, r: nat): nat
    requires r < MODES[mode].pointsY
  {
    TableIsConsistent(mode);
    if mode == MODE_30M30F then LINE_ORDER[r] / 2 else LINE_ORDER[r]
  }

  function RowTo(mode: Mode, s: nat): nat
    requires s < MODES[mode].pointsY
  {
    TableIsConsistent(mode);
    if mode == MODE_30M30F then ROW_HALF[s] else ROW_FULL[s]
  }

  lemma RowsAreInverse(mode: Mode, r: nat)
    requires r < MODES[mode].pointsY
    ensures RowFrom(mode, r) < MODES[mode].pointsY && RowTo(mode, RowFrom(mode, r)) == r
    ensures RowTo(mode, r) < MODES[mode].pointsY && RowFrom(mode, RowTo(mode, r)) == r
  {
    TableIsConsistent(mode);
    RowsInvert(r);
  }

  lemma OffsetByRow(mode: Mode, k: nat, q: nat, m: nat)
    requires k < PointCount(mode) && q == k / 24 && m == k % 24
    ensures q < MODES[mode].pointsY && OffsetOf(mode, k) == 15 * (24 * RowFrom(mode, q) + m)
  {
  }

  /** The point that slot `s` is decoded into. */
  function PointOf(mode: Mode, s: nat): nat
    requires s < PointCount(mode)
  {
    TableIsConsistent(mode);
    24 * RowTo(mode, s / 24) + s % 24
  }

  /** The offsets of the points are exactly the 15-byte slots of the buffer, each taken once. */
  lemma OffsetsAreSlots(mode: Mode, k: nat)
    requires k < PointCount(mode)
    ensures OffsetOf(mode, k) % SLOT_BYTES == 0 && OffsetOf(mode, k) + SLOT_BYTES <= PointCount(mode) * SLOT_BYTES
    ensures OffsetOf(mode, k) / SLOT_BYTES < PointCount(mode) && PointOf(mode, OffsetOf(mode, k) / SLOT_BYTES) == k
    ensures PointOf(mode, k) < PointCount(mode) && OffsetOf(mode, PointOf(mode, k)) == SLOT_BYTES * k
  {
    hide RowFrom, RowTo, OffsetOf;
    TableIsConsistent(mode);
    var q, m := k / 24, k % 24;
    OffsetByRow(mode, k, q, m);
    RowsAreInverse(mode, q);
    SlotArithmetic(RowFrom(mode, q), m);
    SlotArithmetic(RowTo(mode, q), m);
    OffsetByRow(mode, PointOf(mode, k), RowTo(mode, q), m);
  }

  lemma SlotArithmetic(row: nat, m: nat)
    requires m < 24
    ensures (24 * row + m) / 24 == row && (24 * row + m) % 24 == m
    ensures 15 * (24 * row + m) % 15 == 0 && 15 * (24 * row + m) / 15 == 24 * row + m
  {
  }

  // ---- one slot ----

  /** A 20-bit two's-complement field, as the code decides its sign. */
  function Signed20(u: nat): int
    requires u < 0x10_0000
  {
    if u >= 0x8_0000 then 0 - (0x10_0000 - u) else u
  }

  function Unsigned20(v: int): (u: nat)
    requires -0x8_0000 <= v < 0x8_0000
    ensures u < 0x10_0000 && Signed20(u) == v && (u == v || u == v + 0x10_0000)
  {
    if v < 0 then v + 0x10_0000 else v
  }

  function PointFrom(x1: int, y1: int, z1: int): Point {
    if x1 == 0 && y1 == 0 && z1 == 0 then Nothing else Hit(-y1, x1, z1)
  }

  /** What the first eight bytes of a slot say. */
  function Decoded(s: seq<byte>, at: nat): Point
    requires at + SLOT_BYTES <= |s|
  {
    PointFrom(Signed20(4096 * s[at] as int + 16 * s[at + 1] as int + s[at + 2] as int / 16),
              Signed20(65536 * (s[at + 2] as int % 16) + 256 * s[at + 3] as int + s[at + 4] as int),
              Signed20(4096 * s[at + 5] as int + 16 * s[at + 6] as int + s[at + 7] as int / 16))
  }

  method ExtractFirstPeak(data: seq<byte>, offset: nat) returns (r: Result<Point, OutOfRange>)
    ensures r == if offset + SLOT_BYTES <= |data| then Ok(Decoded(data, offset)) else Err(OutOfRange)
  {
    if offset + 15 > |data| { return Err(OutOfRange); }
    var x1: int := 4096 * data[offset] as int + 16 * data[offset + 1] as int + data[offset + 2] as int / 16;
    var y1: int := 65536 * (data[offset + 2] as int % 16) + 256 * data[offset + 3] as int + data[offset + 4] as int;
    var z1: int := 4096 * data[offset + 5] as int + 16 * data[offset + 6] as int + data[offset + 7] as int / 16;
    if x1 >= 0x8_0000 { x1 := 0 - (0x10_0000 - x1); }
    if y1 >= 0x8_0000 { y1 := 0 - (0x10_0000 - y1); }
    if z1 >= 0x8_0000 { z1 := 0 - (0x10_0000 - z1); }
    r := Ok(PointFrom(x1, y1, z1));
  }

  /** What the firmware packs: the first peak, then data that the driver does not use. */
  datatype Peak = Peak(x: int, y: int, z: int, nibble: nat, rest: seq<byte>)

  predicate Packable(p: Peak) {
    && -0x8_0000 <= p.x < 0x8_0000 && -0x8_0000 <= p.y < 0x8_0000 && -0x8_0000 <= p.z < 0x8_0000
    && p.nibble < 16 && |p.rest| == 7
  }

  function Packed(p: Peak): (s: seq<byte>)
    requires Packable(p)
    ensures |s| == SLOT_BYTES
  {
    var x, y, z := Unsigned20(p.x), Unsigned20(p.y), Unsigned20(p.z);
    [x / 4096, x / 16 % 256, x % 16 * 16 + y / 65536, y / 256 % 256, y % 256,
     z / 4096, z / 16 % 256, z % 16 * 16 + p.nibble]
    + p.rest
  }

  /** Decoding inverts packing. */
  lemma DecodedPacked(p: Peak, s: seq<byte>)
    requires Packable(p) && s == Packed(p)
    ensures Decoded(s, 0) == if p.x == 0 && p.y == 0 && p.z == 0 then Nothing else Hit(-p.y, p.x, p.z)
  {
    var x, y, z := Unsigned20(p.x), Unsigned20(p.y), Unsigned20(p.z);
    Digits20(x);
    Digits20(z);
    assert s[2] as int / 16 == x % 16 && s[2] as int % 16 == y / 65536;
    assert 65536 * (y / 65536) + 256 * (y / 256 % 256) + y % 256 == y;
    assert s[7] as int / 16 == z % 16;
  }

  lemma Digits20(u: nat)
    requires u < 0x10_0000
    ensures 4096 * (u / 4096) + 16 * (u / 16 % 256) + u % 16 == u
  {
  }

  // ---- the whole cloud ----

  /** The cloud that a full receive buffer decodes into. */
  function CloudOf(mode: Mode, buf: seq<byte>): (r: seq<Point>)
    requires |buf| == PointCount(mode) * SLOT_BYTES
    ensures |r| == PointCount(mode)
  {
    seq(PointCount(mode), i requires 0 <= i < PointCount(mode) =>
      OffsetsAreSlots(mode, i); Decoded(buf, OffsetOf(mode, i)))
  }

  /** The unpacking loop of process_serial_data. On a buffer of the mode's size the range check never throws. */
  method UnpackPointCloud(mode: Mode, buf: seq<byte>, cloud: array<Point>) returns (r: Result<(), OutOfRange>)
    requires cloud.Length == PointCount(mode)
    modifies cloud
    ensures |buf| == PointCount(mode) * SLOT_BYTES ==> r.Ok? && cloud[..] == CloudOf(mode, buf)
  {
    var n := MODES[mode].pointsX * MODES[mode].pointsY;
    var fullRes := MODES[mode].pointsY == 24;
    TableIsConsistent(mode);
    assert n == PointCount(mode) && (fullRes <==> mode != MODE_30M30F);
    hide Decoded, CloudOf, PointCount;
    for i := 0 to n
      invariant |buf| == n * SLOT_BYTES ==> forall k :: 0 <= k < i ==> cloud[k] == CloudOf(mode, buf)[k]
    {
      ghost var offset := OffsetOf(mode, i);
      if |buf| == n * SLOT_BYTES { CloudAt(mode, buf, i); }
      var p := ExtractFirstPeak(buf, if fullRes then OffsetFullRes(i) else OffsetHalfRes(i));
      if p.Err? { return Err(OutOfRange); }
      cloud[i] := p.value;
    }
    r := Ok(());
  }

  lemma CloudAt(mode: Mode, buf: seq<byte>, i: nat)
    requires |buf| == PointCount(mode) * SLOT_BYTES && i < PointCount(mode)
    ensures OffsetOf(mode, i) + SLOT_BYTES <= |buf|
    ensures CloudOf(mode, buf)[i] == Decoded(buf, OffsetOf(mode, i))
  {
  }

  /** The cloud is a permutation of the decoded slots: PointOf says where slot `s` goes, and it is a bijection. */
  lemma CloudPermutesSlots(mode: Mode, buf: seq<byte>, s: nat)
    requires |buf| == PointCount(mode) * SLOT_BYTES && s < PointCount(mode)
    ensures SLOT_BYTES * s + SLOT_BYTES <= |buf| && PointOf(mode, s) < PointCount(mode)
    ensures CloudOf(mode, buf)[PointOf(mode, s)] == Decoded(buf, SLOT_BYTES * s)
  {
    hide Decoded, OffsetOf, PointOf;
    OffsetsAreSlots(mode, s);
    OffsetsAreSlots(mode, PointOf(mode, s));
  }

  // ---- what the firmware sent comes back ----

  /** The payload that holds the peaks in buffer order. */
  function PackedAll(peaks: seq<Peak>): (s: seq<byte>)
    requires forall i :: 0 <= i < |peaks| ==> Packable(peaks[i])
    ensures |s| == |peaks| * SLOT_BYTES
  {
    if peaks == [] then [] else PackedAll(peaks[..|peaks| - 1]) + Packed(peaks[|peaks| - 1])
  }

  lemma {:induction false} PackedAt(peaks: seq<Peak>, i: nat)
    requires forall i :: 0 <= i < |peaks| ==> Packable(peaks[i])
    requires i < |peaks|
    ensures PackedAll(peaks)[15 * i..15 * i + 15] == Packed(peaks[i])
  {
    hide Packed, Packable;
    var n := |peaks| - 1;
    var init := PackedAll(peaks[..n]);
    assert |init| == 15 * n;
    if i < n {
      PackedAt(peaks[..n], i);
      assert PackedAll(peaks)[15 * i..15 * i + 15] == init[15 * i..15 * i + 15];
    }
  }

  lemma DecodedInside(s: seq<byte>, at: nat, slot: seq<byte>)
    requires at + SLOT_BYTES <= |s| && slot == s[at..at + 15]
    ensures Decoded(s, at) == Decoded(slot, 0)
  {
  }

  /** Every peak that was packed is recovered, at the point whose row the sensor read it from. */
  lemma PeaksRecovered(mode: Mode, peaks: seq<Peak>, slot: nat)
    requires |peaks| == PointCount(mode) && slot < |peaks|
    requires forall i :: 0 <= i < |peaks| ==> Packable(peaks[i])
    ensures PointOf(mode, slot) < PointCount(mode)
    ensures CloudOf(mode, PackedAll(peaks))[PointOf(mode, slot)] ==
      if peaks[slot].x == 0 && peaks[slot].y == 0 && peaks[slot].z == 0 then Nothing
      else Hit(-peaks[slot].y, peaks[slot].x, peaks[slot].z)
  {
    hide Decoded, Packed, Packable, PointOf, CloudOf, PackedAll, PointFrom, PointCount;
    var buf := PackedAll(peaks);
    CloudPermutesSlots(mode, buf, slot);
    PackedAt(peaks, slot);
    DecodedInside(buf, 15 * slot, Packed(peaks[slot]));
    DecodedPacked(peaks[slot], Packed(peaks[slot]));
  }
}
