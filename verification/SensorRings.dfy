/** bank_to_ring: which sensor row a point of a bank lies on. */
module SensorRings {
  import opened Modes

  const BANK_TO_RING_FULL: seq<nat> := [0, 12, 4, 16, 8, 20, 1, 13, 5, 17, 9, 21]
  const BANK_TO_RING_HALF: seq<nat> := [0, 6, 2, 8, 4, 10]

  function BankToRing(bank: nat, mp: nat, mode: Mode): (r: nat)
    requires bank < PointBanks(mode) && mp < POINTS_PER_BANK
    ensures r < MODES[mode].pointsY
  {
    TableIsConsistent(mode);
    if mode == MODE_30M30F then BANK_TO_RING_HALF[bank] + mp / 24
    else BANK_TO_RING_FULL[bank] + 2 * (mp / 24)
  }
}
