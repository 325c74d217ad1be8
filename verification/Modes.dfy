/** The mode table that the decoders, the frame-size check and the negotiation share. */
module Modes {
  datatype ModeInfo = ModeInfo(text: string, pointsX: nat, pointsY: nat, frameWidth: nat, frameHeight: nat,
                               banks: nat, totExposure: nat)

  const MODE_20M := 0
  const MODE_30M30F := 3

  const MODES := [
    ModeInfo("20m", 24, 24, 800, 504, 24, 32),
    ModeInfo("30mstd", 24, 24, 800, 252, 12, 32),
    ModeInfo("30m15f", 24, 24, 800, 252, 12, 65),
    ModeInfo("30m30f", 24, 12, 800, 126, 6, 32),
    ModeInfo("40m", 24, 24, 800, 252, 12, 65)]

  /** An index into the table. */
  type Mode = m: nat | m < 5

  function PointCount(mode: Mode): nat { MODES[mode].pointsX * MODES[mode].pointsY }

  function FrameBytes(mode: Mode): nat { MODES[mode].frameWidth * MODES[mode].frameHeight * 2 }

  /** The banks that carry points of their own; the 20m mode keeps twelve more with the high-exposure peaks. */
  function PointBanks(mode: Mode): nat { if MODES[mode].banks < 12 then MODES[mode].banks else 12 }

  const BANK_BYTES := 33600
  const POINTS_PER_BANK := 48

  /** The table is consistent: banks fill the frame, and 48 points per bank make up the cloud. */
  lemma TableIsConsistent(mode: Mode)
    ensures FrameBytes(mode) == MODES[mode].banks * BANK_BYTES
    ensures PointCount(mode) == PointBanks(mode) * POINTS_PER_BANK
    ensures MODES[mode].pointsX == 24 && (MODES[mode].pointsY == 24 || MODES[mode].pointsY == 12)
    ensures MODES[mode].pointsY == 12 <==> mode == MODE_30M30F
    ensures mode == MODE_20M ==> PointBanks(mode) + 12 == MODES[mode].banks
    ensures PointBanks(mode) <= MODES[mode].banks
  {
  }
}
