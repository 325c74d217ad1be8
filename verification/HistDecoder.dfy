/** The histogram decoder: banks of packed peaks, filtered into a point cloud. */
module HistDecoder {
  import opened Words
  import opened Modes
  import opened SensorRings

  // ---- the packed layout of a frame ----

  /** Sizes of the members, in order: embedded data, one point of a bank, one peak. */
  const EBD_SIZES: seq<nat> := [138, 1, 5, 1, 79, 1, 7, 8, 410, 4, 4, 4, 10]
  const MP_SIZES: seq<nat> := [4, 576, 16, 4, 24, 24, 24]
  const PEAK_SIZES: seq<nat> := [4, 4, 4, 4, 4, 4]

  /** The offset of member `k` of a packed structure. */
  function Before(sizes: seq<nat>, k: nat): nat
    requires k <= |sizes|
  {
    if k == 0 then 0 else Before(sizes, k - 1) + sizes[k - 1]
  }

  const SENSOR_TS_AT := 232
  const CPU_TS_AT := 654
  const MPS_AT := 1344
  const FIRST_PEAK_AT := 600

  /** The offsets that the decoder uses are those of the packed structures. */
  lemma LayoutIsPacked()
    ensures Before(EBD_SIZES, 7) == SENSOR_TS_AT && Before(EBD_SIZES, 10) == CPU_TS_AT && Before(EBD_SIZES, 13) == 672
    ensures Before(MP_SIZES, 4) == FIRST_PEAK_AT && Before(MP_SIZES, 7) == 672
    ensures Before(PEAK_SIZES, 1) == 4 && Before(PEAK_SIZES, 5) == 20 && Before(PEAK_SIZES, 6) == 24
    ensures 672 + 672 == MPS_AT && MPS_AT + POINTS_PER_BANK * 672 == BANK_BYTES
  {
  }

  predicate HasBank(frame: seq<byte>, bank: nat) { 33600 * bank + 33600 <= |frame| }

  /** A frame of the size that the capture loop checked holds every bank that the decoder reads. */
  lemma BanksInside(mode: Mode, frame: seq<byte>, bank: nat)
    requires |frame| == FrameBytes(mode) && bank < PointBanks(mode)
    ensures HasBank(frame, bank) && HasBank(frame, 0)
    ensures mode == MODE_20M ==> HasBank(frame, bank + 12)
  {
  }

  // ---- reading a frame ----

  datatype RawPeak = RawPeak(x: nat, y: nat, z: nat, height: nat, err: nat)

  /** The first peak of point `mp` of a bank: three of the four bytes of each field are used. */
  function PeakOf(frame: seq<byte>, bank: nat, mp: nat): (p: RawPeak)
    requires HasBank(frame, bank) && mp < POINTS_PER_BANK
    ensures p.x < 0x100_0000 && p.y < 0x100_0000
  {
    var at := 33600 * bank + 1344 + 672 * mp + 600;
    RawPeak(U24(frame, at + 4), U24(frame, at + 8), U24(frame, at + 12), U24(frame, at + 16), U32(frame, at + 20))
  }

  /** The tick counter of a bank, every second byte, most significant first. */
  function SensorTicks(frame: seq<byte>, bank: nat): (r: nat)
    requires HasBank(frame, bank)
    ensures r < TWO_32
  {
    var at := 33600 * bank + 232;
    0x100_0000 * frame[at] as int + 0x1_0000 * frame[at + 2] as int + 256 * frame[at + 4] as int + frame[at + 6] as int
  }

  function CpuTs(frame: seq<byte>): nat
    requires HasBank(frame, 0)
  {
    U32(frame, 654)
  }

  /** The time of a bank since the first bank, in nanoseconds; a tick is 500 of them. */
  function BankTime(frame: seq<byte>, bank: nat): nat
    requires HasBank(frame, bank) && HasBank(frame, 0)
  {
    Wrap32(SensorTicks(frame, bank) - SensorTicks(frame, 0)) * 500
  }

  /** The time stays right when the counter wraps between the banks: `t0` and `t` are the unbounded tick counts. */
  lemma BankTimeAcrossWrap(frame: seq<byte>, bank: nat, t0: nat, t: nat)
    requires HasBank(frame, bank) && HasBank(frame, 0)
    requires SensorTicks(frame, 0) == Wrap32(t0) && SensorTicks(frame, bank) == Wrap32(t)
    ensures t0 <= t < t0 + TWO_32 ==> BankTime(frame, bank) == (t - t0) * 500
  {
    hide SensorTicks;
    var q0, q := t0 / 0x1_0000_0000, t / 0x1_0000_0000;
    var d := Wrap32(t) - Wrap32(t0);
    assert t - t0 == d + 0x1_0000_0000 * (q - q0);
    if t0 <= t < t0 + TWO_32 {
      assert Wrap32(d) == t - t0;
    }
  }

  // ---- one coordinate ----

  /** A coordinate, as the code decides its sign on an unsigned 32-bit word. */
  function SignedField(u: nat): int
    requires u < 0x100_0000
  {
    if u / 0x20_0000 % 2 == 0 then u else 0 - Wrap32(0x40_0000 - u)
  }

  /** The sign rule is two's complement in 22 bits exactly when the two upper bits of the 24 are clear. */
  lemma SignedFieldIsTwosComplement(u: nat)
    requires u < 0x100_0000
    ensures SignedField(u) == Signed(u % 0x40_0000, 0x20_0000) <==> u < 0x40_0000
  {
  }

  // ---- the choice between the low- and the high-exposure peak ----

  const THR_EXPOSURE := 2000
  const SATURATED := 65536
  const MIN_RANGE := 800

  predicate UseHigh(z: nat, zHigh: nat) { THR_EXPOSURE < z && !(z != SATURATED && zHigh <= THR_EXPOSURE) }

  /** What a point is decoded from: banks 12 to 23 of the 20m mode hold the high-exposure peaks. */
  predicate TakesHigh(mode: Mode, frame: seq<byte>, bank: nat, mp: nat)
    requires |frame| == FrameBytes(mode) && bank < PointBanks(mode) && mp < POINTS_PER_BANK
  {
    BanksInside(mode, frame, bank);
    mode == MODE_20M && PeakOf(frame, bank, mp).err == 0
    && UseHigh(PeakOf(frame, bank, mp).z, PeakOf(frame, bank + 12, mp).z)
  }

  function Chosen(mode: Mode, frame: seq<byte>, bank: nat, mp: nat): RawPeak
    requires |frame| == FrameBytes(mode) && bank < PointBanks(mode) && mp < POINTS_PER_BANK
  {
    BanksInside(mode, frame, bank);
    if TakesHigh(mode, frame, bank, mp) then PeakOf(frame, bank + 12, mp) else PeakOf(frame, bank, mp)
  }

  /** A point is kept when its low peak is valid and the chosen peak is further than 20 cm; the error field of a high
      peak is not looked at. */
  predicate Accepted(mode: Mode, frame: seq<byte>, bank: nat, mp: nat)
    requires |frame| == FrameBytes(mode) && bank < PointBanks(mode) && mp < POINTS_PER_BANK
  {
    BanksInside(mode, frame, bank);
    PeakOf(frame, bank, mp).err == 0 && Chosen(mode, frame, bank, mp).z > MIN_RANGE
  }

  /** Whether one of the first `n` points of a bank took its high peak. */
  ghost predicate SwitchedWithin(mode: Mode, frame: seq<byte>, bank: nat, n: nat)
    requires |frame| == FrameBytes(mode) && bank < PointBanks(mode) && n <= POINTS_PER_BANK
  {
    exists m :: 0 <= m < n && TakesHigh(mode, frame, bank, m)
  }

  /** The time of the first `n` points of a bank: once a point has taken its high peak, the high bank's time stays for
      the rest of the bank, also for points that take their low peak. */
  ghost function StickyTime(mode: Mode, frame: seq<byte>, bank: nat, n: nat): nat
    requires |frame| == FrameBytes(mode) && bank < PointBanks(mode) && n <= POINTS_PER_BANK
  {
    BanksInside(mode, frame, bank);
    if SwitchedWithin(mode, frame, bank, n) then BankTime(frame, bank + 12) else BankTime(frame, bank)
  }

  /** In quarter millimetres, and nanoseconds since the first bank. */
  datatype HistPoint = HistPoint(x: int, y: int, z: int, height: nat, time: nat, ring: nat)

  function PointFrom(p: RawPeak, time: nat, ring: nat): HistPoint
    requires p.x < 0x100_0000 && p.y < 0x100_0000
  {
    HistPoint(-SignedField(p.y), SignedField(p.x), p.z, p.height, time, ring)
  }

  ghost function PointAt(mode: Mode, frame: seq<byte>, bank: nat, mp: nat): HistPoint
    requires |frame| == FrameBytes(mode) && bank < PointBanks(mode) && mp < POINTS_PER_BANK
  {
    PointFrom(Chosen(mode, frame, bank, mp), StickyTime(mode, frame, bank, mp + 1), BankToRing(bank, mp, mode))
  }

  // ---- what the sensor packs ----

  /** A 24-bit number, least significant byte first, and the byte behind it that is not used. */
  function Packed24(v: nat, unused: byte): (s: seq<byte>)
    requires v < 0x100_0000
    ensures |s| == 4 && U24(s, 0) == v
  {
    [v % 256, v / 256 % 256, v / 0x1_0000, unused]
  }

  predicate Is22(v: int) { -0x20_0000 <= v < 0x20_0000 }

  function Unsigned22(v: int): (u: nat)
    requires Is22(v)
    ensures u < 0x40_0000
  {
    if v < 0 then v + 0x40_0000 else v
  }

  /** A peak as it stands in a frame. */
  function PackedPeak(radial: nat, x: int, y: int, z: nat, height: nat, err: nat, unused: byte): (s: seq<byte>)
    requires radial < 0x100_0000 && Is22(x) && Is22(y) && z < 0x100_0000 && height < 0x100_0000 && err < TWO_32
    ensures |s| == 24
  {
    Packed24(radial, unused) + Packed24(Unsigned22(x), unused) + Packed24(Unsigned22(y), unused)
    + Packed24(z, unused) + Packed24(height, unused) + Bytes32(err)
  }

  lemma PeakReadBack(s: seq<byte>, radial: nat, x: int, y: int, z: nat, height: nat, err: nat, unused: byte)
    requires radial < 0x100_0000 && Is22(x) && Is22(y) && z < 0x100_0000 && height < 0x100_0000 && err < TWO_32
    requires s == PackedPeak(radial, x, y, z, height, err, unused)
    ensures U24(s, 4) == Unsigned22(x) && U24(s, 8) == Unsigned22(y) && U24(s, 12) == z && U24(s, 16) == height
    ensures U32(s, 20) == err
  {
    var pr, px, py := Packed24(radial, unused), Packed24(Unsigned22(x), unused), Packed24(Unsigned22(y), unused);
    var pz, ph, pe := Packed24(z, unused), Packed24(height, unused), Bytes32(err);
    assert s == pr + px + py + pz + ph + pe;
    hide Packed24, Bytes32, Unsigned22, PackedPeak;
    assert forall k :: 0 <= k < 4 ==>
      && s[4 + k] == px[k] && s[8 + k] == py[k] && s[12 + k] == pz[k] && s[16 + k] == ph[k] && s[20 + k] == pe[k];
  }

  /** Every peak comes back from the place where the packed structures put it, with the axes as they are published. */
  lemma PackedPeakDecoded(frame: seq<byte>, bank: nat, mp: nat, radial: nat, x: int, y: int, z: nat, height: nat,
                          err: nat, unused: byte, time: nat, ring: nat)
    requires HasBank(frame, bank) && mp < POINTS_PER_BANK
    requires radial < 0x100_0000 && Is22(x) && Is22(y) && z < 0x100_0000 && height < 0x100_0000 && err < TWO_32
    requires var at := BANK_BYTES * bank + MPS_AT + Before(MP_SIZES, 7) * mp + Before(MP_SIZES, 4);
      at + 24 <= |frame| && frame[at..at + 24] == PackedPeak(radial, x, y, z, height, err, unused)
    ensures PeakOf(frame, bank, mp).err == err
    ensures PointFrom(PeakOf(frame, bank, mp), time, ring) == HistPoint(-y, x, z, height, time, ring)
  {
    LayoutIsPacked();
    hide PackedPeak;
    var at := 33600 * bank + 1344 + 672 * mp + 600;
    var s := frame[at..at + 24];
    PeakReadBack(s, radial, x, y, z, height, err, unused);
    assert forall k :: 0 <= k < 24 ==> s[k] == frame[at + k];
    SignedFieldIsTwosComplement(Unsigned22(x));
    SignedFieldIsTwosComplement(Unsigned22(y));
  }

  /** The tick counter of a bank as it stands in a frame: every second byte is not used. */
  function PackedTicks(t: nat, unused: byte): (s: seq<byte>)
    requires t < TWO_32
    ensures |s| == 8
  {
    [t / 0x100_0000, unused, t / 0x1_0000 % 256, unused, t / 256 % 256, unused, t % 256, unused]
  }

  lemma PackedTicksDecoded(frame: seq<byte>, bank: nat, t: nat, unused: byte)
    requires HasBank(frame, bank) && t < TWO_32
    requires var at := BANK_BYTES * bank + Before(EBD_SIZES, 7);
      at + 8 <= |frame| && frame[at..at + 8] == PackedTicks(t, unused)
    ensures SensorTicks(frame, bank) == t
  {
    LayoutIsPacked();
    var at := 33600 * bank + 232;
    var s := frame[at..at + 8];
    assert forall k :: 0 <= k < 8 ==> s[k] == frame[at + k];
    assert t / 256 == t / 0x1_0000 * 256 + t / 256 % 256 && t / 0x1_0000 == t / 0x100_0000 * 256 + t / 0x1_0000 % 256;
  }

  // ---- the whole cloud: a filter over (bank, point) in order ----

  /** The points that the first `mps` points of bank `bank`, and all banks before it, give. */
  ghost function PointsUpTo(mode: Mode, frame: seq<byte>, bank: nat, mps: nat): (r: seq<HistPoint>)
    requires |frame| == FrameBytes(mode) && bank <= PointBanks(mode) && mps <= POINTS_PER_BANK
    requires bank == PointBanks(mode) ==> mps == 0
    ensures |r| <= 48 * bank + mps
    decreases bank, mps
  {
    if mps > 0 then
      PointsUpTo(mode, frame, bank, mps - 1)
      + if Accepted(mode, frame, bank, mps - 1) then [PointAt(mode, frame, bank, mps - 1)] else []
    else if bank > 0 then
      PointsUpTo(mode, frame, bank - 1, 48)
    else
      []
  }

  ghost function FramePoints(mode: Mode, frame: seq<byte>): seq<HistPoint>
    requires |frame| == FrameBytes(mode)
  {
    PointsUpTo(mode, frame, PointBanks(mode), 0)
  }

  // ---- what is in the cloud ----

  /** (bank, point) pairs in decoding order; a pair with bank == PointBanks(mode) is the end. */
  predicate IsPlace(mode: Mode, bank: nat, mps: nat) {
    bank <= PointBanks(mode) && mps <= POINTS_PER_BANK && (bank == PointBanks(mode) ==> mps == 0)
  }

  /** The cloud only grows at its end. */
  lemma {:induction false} PointsGrow(mode: Mode, frame: seq<byte>, bank: nat, mps: nat, bank': nat, mps': nat)
    requires |frame| == FrameBytes(mode) && IsPlace(mode, bank, mps) && IsPlace(mode, bank', mps')
    requires bank < bank' || (bank == bank' && mps <= mps')
    ensures PointsUpTo(mode, frame, bank, mps) <= PointsUpTo(mode, frame, bank', mps')
    decreases bank', mps'
  {
    hide Accepted, PointAt, PointBanks, FrameBytes;
    if bank == bank' && mps == mps' {
    } else if mps' > 0 {
      PointsGrow(mode, frame, bank, mps, bank', mps' - 1);
    } else {
      PointsGrow(mode, frame, bank, mps, bank' - 1, 48);
    }
  }

  /** Every accepted point is in the cloud, behind the accepted points before it. */
  lemma AcceptedIsKept(mode: Mode, frame: seq<byte>, bank: nat, mp: nat)
    requires |frame| == FrameBytes(mode) && bank < PointBanks(mode) && mp < POINTS_PER_BANK
    requires Accepted(mode, frame, bank, mp)
    ensures |PointsUpTo(mode, frame, bank, mp)| < |FramePoints(mode, frame)|
    ensures FramePoints(mode, frame)[|PointsUpTo(mode, frame, bank, mp)|] == PointAt(mode, frame, bank, mp)
  {
    hide Accepted, PointAt, PointBanks, FrameBytes;
    PointsGrow(mode, frame, bank, mp + 1, PointBanks(mode), 0);
  }

  /** Every point of the cloud is an accepted point of the frame, and stands where AcceptedIsKept says. */
  lemma {:induction false} KeptIsAccepted(mode: Mode, frame: seq<byte>, bank: nat, mps: nat, i: nat)
    returns (b: nat, mp: nat)
    requires |frame| == FrameBytes(mode) && IsPlace(mode, bank, mps) && i < |PointsUpTo(mode, frame, bank, mps)|
    ensures b < PointBanks(mode) && mp < POINTS_PER_BANK && Accepted(mode, frame, b, mp)
    ensures i == |PointsUpTo(mode, frame, b, mp)|
    ensures PointsUpTo(mode, frame, bank, mps)[i] == PointAt(mode, frame, b, mp)
    decreases bank, mps
  {
    hide Accepted, PointAt, PointBanks, FrameBytes;
    if mps == 0 {
      b, mp := KeptIsAccepted(mode, frame, bank - 1, 48, i);
    } else if i < |PointsUpTo(mode, frame, bank, mps - 1)| {
      b, mp := KeptIsAccepted(mode, frame, bank, mps - 1, i);
    } else {
      b, mp := bank, mps - 1;
    }
  }

  /** What a cloud point has for certain: it lies beyond 20 cm and on a row of the sensor. */
  lemma CloudBounds(mode: Mode, frame: seq<byte>, i: nat)
    requires |frame| == FrameBytes(mode) && i < |FramePoints(mode, frame)|
    ensures FramePoints(mode, frame)[i].z > MIN_RANGE && FramePoints(mode, frame)[i].ring < MODES[mode].pointsY
    ensures |FramePoints(mode, frame)| <= PointCount(mode)
  {
    hide PeakOf, BankTime, SignedField, StickyTime;
    var b, mp := KeptIsAccepted(mode, frame, PointBanks(mode), 0, i);
    TableIsConsistent(mode);
  }

  /** A point carries the time of the bank it was decoded from exactly when it took its high peak, or no point before
      it in the bank did, or the two banks have the same time. */
  lemma TimeIsOwnBanks(mode: Mode, frame: seq<byte>, bank: nat, mp: nat)
    requires |frame| == FrameBytes(mode) && bank < PointBanks(mode) && mp < POINTS_PER_BANK
    ensures HasBank(frame, 0) && HasBank(frame, bank)
    ensures TakesHigh(mode, frame, bank, mp) ==>
      HasBank(frame, bank + 12) && StickyTime(mode, frame, bank, mp + 1) == BankTime(frame, bank + 12)
    ensures !TakesHigh(mode, frame, bank, mp) ==>
      (StickyTime(mode, frame, bank, mp + 1) == BankTime(frame, bank)
       <==> !SwitchedWithin(mode, frame, bank, mp)
            || (HasBank(frame, bank + 12) && BankTime(frame, bank + 12) == BankTime(frame, bank)))
    ensures mode != MODE_20M ==> StickyTime(mode, frame, bank, mp + 1) == BankTime(frame, bank)
  {
  }

  /** A 20m frame: point 0 of bank 0 sees 3000 in both exposures, point 1 sees 1000, and bank 12 is one tick later. */
  function SwitchingFrame(): (frame: seq<byte>)
    ensures |frame| == 806_400
  {
    seq(806_400, k => if k == 1956 || k == 405_156 then 184 else if k == 1957 || k == 405_157 then 11
                      else if k == 2628 then 232 else if k == 2629 then 3 else if k == 403_438 then 1 else 0)
  }

  lemma PeakBytes(frame: seq<byte>, bank: nat, mp: nat, at: nat)
    requires HasBank(frame, bank) && mp < POINTS_PER_BANK
    requires at == 33600 * bank + 1344 + 672 * mp + 600
    ensures PeakOf(frame, bank, mp).z
         == frame[at + 12] as int + 256 * frame[at + 13] as int + 0x1_0000 * frame[at + 14] as int
    ensures frame[at + 20] == frame[at + 21] == frame[at + 22] == frame[at + 23] == 0 ==>
      PeakOf(frame, bank, mp).err == 0
  {
  }

  lemma SwitchingPeaks(frame: seq<byte>)
    requires frame == SwitchingFrame()
    ensures PeakOf(frame, 0, 0).z == 3000 && PeakOf(frame, 12, 0).z == 3000 && PeakOf(frame, 0, 1).z == 1000
    ensures PeakOf(frame, 0, 0).err == 0 && PeakOf(frame, 0, 1).err == 0
    ensures SensorTicks(frame, 0) == 0 && SensorTicks(frame, 12) == 1
  {
    hide PeakOf;
    PeakBytes(frame, 0, 0, 1944);
    PeakBytes(frame, 12, 0, 405_144);
    PeakBytes(frame, 0, 1, 2616);
  }

  /** There, point 1 is decoded from its low peak in bank 0 and yet carries the time of bank 12. */
  lemma TimeOfAnotherBank(frame: seq<byte>)
    requires frame == SwitchingFrame()
    ensures |frame| == FrameBytes(MODE_20M) && HasBank(frame, 0) && BankTime(frame, 0) == 0
    ensures Accepted(MODE_20M, frame, 0, 1) && !TakesHigh(MODE_20M, frame, 0, 1)
    ensures PointAt(MODE_20M, frame, 0, 1).time == 500
  {
    hide SwitchingFrame, PeakOf, SensorTicks, SignedField, BankToRing;
    SwitchingPeaks(frame);
    assert TakesHigh(MODE_20M, frame, 0, 0);
    assert SwitchedWithin(MODE_20M, frame, 0, 2);
  }

  // ---- from packed peaks to the cloud ----

  /** What the sensor measured for one point in one exposure, in quarter millimetres. */
  datatype Measured = Measured(radial: nat, x: int, y: int, z: nat, height: nat, err: nat, unused: byte)

  predicate Packable(p: Measured) {
    p.radial < 0x100_0000 && Is22(p.x) && Is22(p.y) && p.z < 0x100_0000 && p.height < 0x100_0000 && p.err < TWO_32
  }

  /** The measurement stands in the frame where the packed structures put it. */
  predicate StandsAt(frame: seq<byte>, bank: nat, mp: nat, p: Measured) {
    var at := 33600 * bank + 1344 + 672 * mp + 600;
    && Packable(p) && HasBank(frame, bank) && mp < 48 && at + 24 <= |frame|
    && frame[at..at + 24] == PackedPeak(p.radial, p.x, p.y, p.z, p.height, p.err, p.unused)
  }

  lemma StandingPeak(frame: seq<byte>, bank: nat, mp: nat, p: Measured, time: nat, ring: nat)
    requires StandsAt(frame, bank, mp, p)
    ensures PeakOf(frame, bank, mp).err == p.err && PeakOf(frame, bank, mp).z == p.z
    ensures PointFrom(PeakOf(frame, bank, mp), time, ring) == HistPoint(-p.y, p.x, p.z, p.height, time, ring)
  {
    hide PackedPeak, PeakOf, SignedField;
    LayoutIsPacked();
    PackedPeakDecoded(frame, bank, mp, p.radial, p.x, p.y, p.z, p.height, p.err, p.unused, time, ring);
  }

  /** Measurement `p` becomes the next point of the cloud exactly when it lies beyond 20 cm. */
  ghost predicate Becomes(mode: Mode, frame: seq<byte>, bank: nat, mp: nat, p: Measured, time: nat)
    requires |frame| == FrameBytes(mode) && bank < PointBanks(mode) && mp < 48
  {
    var before := |PointsUpTo(mode, frame, bank, mp)|;
    if p.z > 800 then
      before < |FramePoints(mode, frame)|
      && FramePoints(mode, frame)[before] == HistPoint(-p.y, p.x, p.z, p.height, time, BankToRing(bank, mp, mode))
    else
      PointsUpTo(mode, frame, bank, mp + 1) == PointsUpTo(mode, frame, bank, mp)
  }

  lemma ChosenBecomes(mode: Mode, frame: seq<byte>, bank: nat, mp: nat, p: Measured, time: nat)
    requires |frame| == FrameBytes(mode) && bank < PointBanks(mode) && mp < 48
    requires Accepted(mode, frame, bank, mp) <==> p.z > 800
    requires p.z > 800 ==>
      PointAt(mode, frame, bank, mp) == HistPoint(-p.y, p.x, p.z, p.height, time, BankToRing(bank, mp, mode))
    ensures Becomes(mode, frame, bank, mp, p, time)
  {
    hide Accepted, PointAt, PointBanks, FrameBytes, FramePoints, BankToRing;
    if p.z > 800 { AcceptedIsKept(mode, frame, bank, mp); }
  }

  /** The 20m mode, for every valid low measurement and every high one: the low one is taken up to half a metre, and
      also beyond it if it is not saturated while the high one is within half a metre; else the high one is taken. */
  lemma LowOrHigh(frame: seq<byte>, bank: nat, mp: nat, low: Measured, high: Measured)
    requires |frame| == 806_400 && bank < 12 && mp < 48
    requires StandsAt(frame, bank, mp, low) && low.err == 0 && StandsAt(frame, bank + 12, mp, high)
    ensures |frame| == FrameBytes(MODE_20M) && bank < PointBanks(MODE_20M) && HasBank(frame, bank + 12)
    ensures low.z <= 2000 || (low.z != 65536 && high.z <= 2000) ==>
      Becomes(MODE_20M, frame, bank, mp, low, StickyTime(MODE_20M, frame, bank, mp))
    ensures low.z > 2000 && (low.z == 65536 || high.z > 2000) ==>
      Becomes(MODE_20M, frame, bank, mp, high, BankTime(frame, bank + 12))
  {
    hide PeakOf, BankTime, SignedField, BankToRing, Becomes, StandsAt, StickyTime, SwitchedWithin, PointsUpTo;
    PeaksStand(frame, bank, mp, low, high);
    PointTurn(MODE_20M, frame, bank, mp);
    var time, ring := StickyTime(MODE_20M, frame, bank, mp + 1), BankToRing(bank, mp, MODE_20M);
    StandingPeak(frame, bank, mp, low, time, ring);
    StandingPeak(frame, bank + 12, mp, high, time, ring);
    if low.z <= 2000 || (low.z != 65536 && high.z <= 2000) {
      ChosenBecomes(MODE_20M, frame, bank, mp, low, time);
    } else {
      ChosenBecomes(MODE_20M, frame, bank, mp, high, time);
    }
  }

  lemma PeaksStand(frame: seq<byte>, bank: nat, mp: nat, low: Measured, high: Measured)
    requires StandsAt(frame, bank, mp, low) && StandsAt(frame, bank + 12, mp, high)
    ensures HasBank(frame, bank) && HasBank(frame, bank + 12)
  {
  }

  /** All other modes have one measurement per point. */
  lemma OnlyMeasured(mode: Mode, frame: seq<byte>, bank: nat, mp: nat, p: Measured)
    requires mode != MODE_20M && |frame| == FrameBytes(mode) && bank < PointBanks(mode) && mp < 48
    requires StandsAt(frame, bank, mp, p) && p.err == 0
    ensures HasBank(frame, bank) && HasBank(frame, 0)
    ensures Becomes(mode, frame, bank, mp, p, BankTime(frame, bank))
  {
    hide PeakOf, BankTime, SignedField, BankToRing, Becomes, PointsUpTo, FrameBytes, PointBanks;
    BanksInside(mode, frame, bank);
    TimeIsOwnBanks(mode, frame, bank, mp);
    hide StickyTime, SwitchedWithin;
    StandingPeak(frame, bank, mp, p, BankTime(frame, bank), BankToRing(bank, mp, mode));
    ChosenBecomes(mode, frame, bank, mp, p, BankTime(frame, bank));
  }

  /** An invalid measurement, in any mode, gives no point, whatever the high exposure saw. */
  lemma InvalidIsDropped(mode: Mode, frame: seq<byte>, bank: nat, mp: nat, p: Measured)
    requires |frame| == FrameBytes(mode) && bank < PointBanks(mode) && mp < 48
    requires StandsAt(frame, bank, mp, p) && p.err != 0
    ensures PointsUpTo(mode, frame, bank, mp + 1) == PointsUpTo(mode, frame, bank, mp)
  {
    hide PeakOf, BankTime, SignedField, BankToRing, FrameBytes, PointBanks, PointAt;
    StandingPeak(frame, bank, mp, p, 0, 0);
  }

  // ---- the error field of a high peak ----

  /** Two frames that differ at most in the error fields of high-exposure peaks and in bytes that are never read. */
  ghost predicate SameButHighErrors(mode: Mode, f: seq<byte>, g: seq<byte>)
    requires |f| == |g| == FrameBytes(mode)
  {
    forall bank :: 0 <= bank < PointBanks(mode) ==> SameBank(mode, f, g, bank)
  }

  ghost predicate SameBank(mode: Mode, f: seq<byte>, g: seq<byte>, bank: nat)
    requires |f| == |g| == FrameBytes(mode) && bank < PointBanks(mode)
  {
    BanksInside(mode, f, bank);
    BanksInside(mode, g, bank);
    && BankTime(f, bank) == BankTime(g, bank)
    && (mode == MODE_20M ==> BankTime(f, bank + 12) == BankTime(g, bank + 12))
    && forall mp :: 0 <= mp < POINTS_PER_BANK ==>
         && PeakOf(f, bank, mp) == PeakOf(g, bank, mp)
         && (mode == MODE_20M ==> PeakOf(f, bank + 12, mp).(err := 0) == PeakOf(g, bank + 12, mp).(err := 0))
  }

  lemma SamePoint(mode: Mode, f: seq<byte>, g: seq<byte>, bank: nat, mp: nat)
    requires |f| == |g| == FrameBytes(mode) && bank < PointBanks(mode) && SameBank(mode, f, g, bank)
    requires mp < POINTS_PER_BANK
    ensures Accepted(mode, f, bank, mp) <==> Accepted(mode, g, bank, mp)
    ensures PointAt(mode, f, bank, mp) == PointAt(mode, g, bank, mp)
  {
    hide PeakOf, BankTime, UseHigh, PointBanks, FrameBytes, SignedField, BankToRing;
    forall m | 0 <= m <= mp ensures TakesHigh(mode, f, bank, m) <==> TakesHigh(mode, g, bank, m) {
    }
    assert SwitchedWithin(mode, f, bank, mp + 1) <==> SwitchedWithin(mode, g, bank, mp + 1);
  }

  /** The error fields of the high peaks have no influence on the cloud. */
  lemma {:induction false} HighErrorsAreIgnored(mode: Mode, f: seq<byte>, g: seq<byte>, bank: nat, mps: nat)
    requires |f| == |g| == FrameBytes(mode) && SameButHighErrors(mode, f, g) && IsPlace(mode, bank, mps)
    ensures PointsUpTo(mode, f, bank, mps) == PointsUpTo(mode, g, bank, mps)
    decreases bank, mps
  {
    hide Accepted, PointAt, PointBanks, FrameBytes, SameBank;
    if mps > 0 {
      SamePoint(mode, f, g, bank, mps - 1);
      HighErrorsAreIgnored(mode, f, g, bank, mps - 1);
    } else if bank > 0 {
      HighErrorsAreIgnored(mode, f, g, bank - 1, 48);
    }
  }

  /** What the callback receives. */
  datatype HistDelivery = HistDelivery(stamp: nat, points: seq<HistPoint>)

  /** What a frame makes the device deliver: nothing once stopped, or before the clocks were synchronised. `offset` and
      `offsetUsed` are the clock offset at its two loads; the serial thread may change it in between. */
  ghost function HistDeliveries(mode: Mode, frame: seq<byte>, running: bool, offset: nat, offsetUsed: nat)
    : seq<HistDelivery>
    requires |frame| == FrameBytes(mode)
  {
    BanksInside(mode, frame, 0);
    if running && offset > 0 then
      [HistDelivery(Wrap64(CpuTs(frame) * 1_000_000 + offsetUsed), FramePoints(mode, frame))]
    else []
  }

  /** The CPU's time, in milliseconds with the least significant byte first, becomes the stamp on the host clock;
      without a synchronised clock, or when the device was stopped, the frame is dropped. */
  lemma StampIsCpuTime(mode: Mode, frame: seq<byte>, t: nat, running: bool, offset: nat, offsetUsed: nat)
    requires |frame| == FrameBytes(mode) && t < TWO_32 && |frame| >= 658
    requires frame[654..658] == [t % 256, t / 256 % 256, t / 0x1_0000 % 256, t / 0x100_0000]
    ensures !running || offset == 0 ==> HistDeliveries(mode, frame, running, offset, offsetUsed) == []
    ensures running && offset > 0 && t * 1_000_000 + offsetUsed < TWO_64 ==>
      HistDeliveries(mode, frame, running, offset, offsetUsed)
        == [HistDelivery(t * 1_000_000 + offsetUsed, FramePoints(mode, frame))]
  {
    hide FramePoints, FrameBytes;
    BanksInside(mode, frame, 0);
    var s := frame[654..658];
    assert s[0] == frame[654] && s[1] == frame[655] && s[2] == frame[656] && s[3] == frame[657];
    assert t / 256 == t / 0x1_0000 * 256 + t / 256 % 256 && t / 0x1_0000 == t / 0x100_0000 * 256 + t / 0x1_0000 % 256;
  }

  lemma NothingYet(mode: Mode, frame: seq<byte>)
    requires |frame| == FrameBytes(mode)
    ensures PointsUpTo(mode, frame, 0, 0) == []
    ensures forall bank :: 0 <= bank < PointBanks(mode) ==>
      PointsUpTo(mode, frame, bank + 1, 0) == PointsUpTo(mode, frame, bank, 48)
  {
  }

  /** One more point of a bank: the time switches or stays, and the cloud grows or stays. */
  lemma PointTurn(mode: Mode, frame: seq<byte>, bank: nat, mp: nat)
    requires |frame| == FrameBytes(mode) && bank < PointBanks(mode) && mp < POINTS_PER_BANK
    ensures HasBank(frame, bank) && HasBank(frame, 0) && (mode == MODE_20M ==> HasBank(frame, bank + 12))
    ensures StickyTime(mode, frame, bank, mp + 1) ==
      if TakesHigh(mode, frame, bank, mp) then BankTime(frame, bank + 12) else StickyTime(mode, frame, bank, mp)
    ensures PointsUpTo(mode, frame, bank, mp + 1) == PointsUpTo(mode, frame, bank, mp)
      + if Accepted(mode, frame, bank, mp) then [PointAt(mode, frame, bank, mp)] else []
  {
    hide PeakOf, BankTime, UseHigh, PointBanks, FrameBytes, Accepted, PointAt;
    BanksInside(mode, frame, bank);
    if SwitchedWithin(mode, frame, bank, mp) {
      var m :| 0 <= m < mp && TakesHigh(mode, frame, bank, m);
      assert SwitchedWithin(mode, frame, bank, mp + 1);
    }
  }

  lemma StickyStart(mode: Mode, frame: seq<byte>, bank: nat)
    requires |frame| == FrameBytes(mode) && bank < PointBanks(mode)
    ensures HasBank(frame, bank) && HasBank(frame, 0) && StickyTime(mode, frame, bank, 0) == BankTime(frame, bank)
  {
  }

  class DeviceHist {
    const mode: Mode
    var points: seq<HistPoint>
    var delivered: seq<HistDelivery>

    constructor (mode: Mode)
      ensures this.mode == mode && delivered == []
    {
      this.mode, points, delivered := mode, [], [];
    }

    /** vector::resize. */
    method Resize(n: nat)
      modifies this`points
      ensures |points| == n
      ensures n <= |old(points)| ==> points == old(points)[..n]
      ensures n > |old(points)| ==> points[..|old(points)|] == old(points)
    {
      points := if n <= |points| then points[..n] else points + seq(n - |points|, _ => HistPoint(0, 0, 0, 0, 0, 0));
    }

    /** The inner loop of unpack_hist_frame, over the points of one bank. */
    method UnpackBank(frame: seq<byte>, bank: nat, dest: nat) returns (next: nat)
      requires |frame| == FrameBytes(mode) && bank < PointBanks(mode) && |points| == PointCount(mode)
      requires dest <= 48 * bank && points[..dest] == PointsUpTo(mode, frame, bank, 0)
      modifies this`points
      ensures |points| == PointCount(mode) && next <= 48 * bank + 48
      ensures next <= |points| && points[..next] == PointsUpTo(mode, frame, bank, 48)
    {
      hide PeakOf, BankTime, SignedField, BankToRing, FrameBytes, PointCount, PointBanks, UseHigh;
      TableIsConsistent(mode);
      BanksInside(mode, frame, bank);
      StickyStart(mode, frame, bank);
      hide StickyTime, SwitchedWithin, PointsUpTo;
      var ts := BankTime(frame, bank);
      next := dest;
      for mp := 0 to 48
        invariant |points| == PointCount(mode) && next <= 48 * bank + mp && next <= |points|
        invariant points[..next] == PointsUpTo(mode, frame, bank, mp)
        invariant ts == StickyTime(mode, frame, bank, mp)
      {
        PointTurn(mode, frame, bank, mp);
        var peak := PeakOf(frame, bank, mp);
        var ring := BankToRing(bank, mp, mode);
        if peak.err == 0 {
          if mode == MODE_20M {
            var high := PeakOf(frame, bank + 12, mp);
            if UseHigh(peak.z, high.z) {
              peak := high;
              ts := BankTime(frame, bank + 12);
            }
          }
          if peak.z > MIN_RANGE {
            points := points[next := PointFrom(peak, ts, ring)];
            next := next + 1;
          }
        }
      }
    }

    /** unpack_hist_frame: the cloud is the filtered frame, every write stays inside the cloud, and every read inside
        the frame. */
    method UnpackHistFrame(frame: seq<byte>, running: bool, offset: nat, offsetUsed: nat)
      requires |frame| == FrameBytes(mode)
      modifies this`points, this`delivered
      ensures delivered == old(delivered) + HistDeliveries(mode, frame, running, offset, offsetUsed)
    {
      Resize(MODES[mode].pointsX * MODES[mode].pointsY);
      var nbrBanks := Min(MODES[mode].banks, 12);
      assert |points| == PointCount(mode) && nbrBanks == PointBanks(mode);
      TableIsConsistent(mode);
      hide PointCount, PointBanks, FrameBytes, CpuTs, PointsUpTo;
      NothingYet(mode, frame);
      var dest: nat := 0;
      assert points[..0] == [];
      for bank := 0 to nbrBanks
        invariant delivered == old(delivered)
        invariant |points| == PointCount(mode) && dest <= 48 * bank && dest <= |points|
        invariant points[..dest] == PointsUpTo(mode, frame, bank, 0)
      {
        dest := UnpackBank(frame, bank, dest);
      }
      BanksInside(mode, frame, 0);
      if running && offset > 0 {
        Resize(dest);
        delivered := delivered + [HistDelivery(Wrap64(CpuTs(frame) * 1_000_000 + offsetUsed), points)];
      }
    }
  }
}
