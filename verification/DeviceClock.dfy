/** The offset between the device clock and the host clock, in 64-bit words. */
module DeviceClock {
  import opened Words

  /** Milliseconds on the device clock as 64-bit nanoseconds. */
  function DeviceNs(tm: nat): nat { Wrap64(tm * 1_000_000) }

  function ClockOffset(receiveTs: nat, endTm: nat): nat { Wrap64(receiveTs - DeviceNs(endTm)) }

  /** The two clocks cancel: a device time plus the offset is the receive time minus the age, modulo 2^64, whatever
      the device's epoch. */
  lemma ClocksCancel(receiveTs: nat, endTm: nat, t: int)
    ensures Wrap64(Wrap64(t) + ClockOffset(receiveTs, endTm)) == Wrap64(receiveTs - (endTm * 1_000_000 - t))
  {
    var b := endTm * 1_000_000;
    WrapCongruent(t);
    WrapCongruent(b);
    WrapCongruent(receiveTs - DeviceNs(endTm));
    var ka :| Wrap64(t) == t + 0x1_0000_0000_0000_0000 * ka;
    var kb :| DeviceNs(endTm) == b + 0x1_0000_0000_0000_0000 * kb;
    var kc :| ClockOffset(receiveTs, endTm) == receiveTs - DeviceNs(endTm) + 0x1_0000_0000_0000_0000 * kc;
    WrapShift(receiveTs - (b - t), ka - kb + kc, Wrap64(t) + ClockOffset(receiveTs, endTm));
  }

  /** The stamp of a frame is in the past exactly when its start is not after its end, as long as the frame took less
      time than the host clock has run and the 64 bits suffice. */
  lemma StampIsReceiveTimeMinusAge(receiveTs: nat, startTm: nat, endTm: nat)
    requires -TWO_64 < receiveTs - (endTm - startTm) * 1_000_000 < TWO_64 && receiveTs < TWO_64
    ensures 0 <= receiveTs - (endTm - startTm) * 1_000_000 ==>
      Wrap64(DeviceNs(startTm) + ClockOffset(receiveTs, endTm)) == receiveTs - (endTm - startTm) * 1_000_000
    ensures 0 <= receiveTs - (endTm - startTm) * 1_000_000 ==>
      (Wrap64(DeviceNs(startTm) + ClockOffset(receiveTs, endTm)) <= receiveTs <==> startTm <= endTm)
  {
    ClocksCancel(receiveTs, endTm, startTm * 1_000_000);
  }

  lemma WrapCongruent(x: int)
    ensures exists k :: Wrap64(x) == x + 0x1_0000_0000_0000_0000 * k
  {
    var k := -(x / 0x1_0000_0000_0000_0000);
    assert Wrap64(x) == x + 0x1_0000_0000_0000_0000 * k;
  }

  lemma WrapShift(x: int, k: int, y: int)
    requires y == x + 0x1_0000_0000_0000_0000 * k
    ensures Wrap64(y) == Wrap64(x)
  {
  }
}
