/** The byte layer of the serial port: timed read and write over a non-blocking descriptor. */
module SerialImpl {
  import opened Words
  import opened Timer

  datatype SerialError = PortNotOpened | IoError | Disconnected

  /** inter-byte timeout, and constant and per-byte part of the read and write timeouts, in milliseconds. */
  datatype Timeout = Timeout(interByte: nat, readConstant: nat, readMultiplier: nat,
                             writeConstant: nat, writeMultiplier: nat)

  /** The timer's total: a 64-bit sum handed over as a 32-bit number of milliseconds. */
  function TotalMs(constant: nat, multiplier: nat, size: nat): (r: nat)
    ensures r < TWO_32
  {
    Wrap32(constant + multiplier * size)
  }

  /** As long as it fits, the total is the constant part and one multiplier per byte. */
  lemma TotalFits(constant: nat, multiplier: nat, size: nat)
    ensures constant + multiplier * size < TWO_32 ==>
      TotalMs(constant, multiplier, size) == constant + multiplier * size
  {
  }

  /** The operating system's side of the descriptor. Its methods choose their outcome freely within what the system
      calls promise. */
  class Descriptor {
    var clock: nat           // CLOCK_MONOTONIC, in nanoseconds
    var incoming: seq<byte>  // what the device will still deliver
    var outgoing: seq<byte>  // what the driver has passed on
    ghost var interruptions: nat

    constructor (clock: nat, incoming: seq<byte>)
      ensures this.clock == clock && this.incoming == incoming && outgoing == [] && interruptions == 0
    {
      this.clock, this.incoming, outgoing, interruptions := clock, incoming, [], 0;
    }

    /** Reading the clock; time has passed since any earlier reading. */
    method ClockNow() returns (t: Timespec)
      modifies this`clock
      ensures Normalised(t) && Nanos(t) == clock > old(clock)
    {
      var later: nat :| later > clock;
      clock := later;
      t := Timespec(clock / 1_000_000_000, clock % 1_000_000_000);
    }

    /** ::read: an error, or some of the next bytes. */
    method Read(size: nat) returns (got: Option<seq<byte>>)
      modifies this`incoming
      ensures got.Some? ==> |got.value| <= size && old(incoming) == got.value + incoming
      ensures got.None? ==> incoming == old(incoming)
    {
      if * { return None; }
      var n: nat :| n <= size && n <= |incoming|;
      got := Some(incoming[..n]);
      incoming := incoming[n..];
    }

    /** ::write: None is an interrupted call; otherwise some prefix of the data is taken, possibly nothing. */
    method Write(data: seq<byte>) returns (n: Option<nat>)
      modifies this`outgoing
      ensures n.None? ==> outgoing == old(outgoing)
      ensures n.Some? ==> n.value <= |data| && outgoing == old(outgoing) + data[..n.value]
    {
      if * { return None; }
      var k: nat :| k <= |data|;
      outgoing := outgoing + data[..k];
      n := Some(k);
    }

    /** pselect: an error, perhaps only an interruption, or whether the descriptor is ready; not ready means that the
        timeout has passed. */
    method Select(timeout: Timespec) returns (ready: Option<bool>, interrupted: bool)
      modifies this`clock, this`interruptions
      ensures clock >= old(clock) && interruptions == old(interruptions) + if interrupted then 1 else 0
      ensures interrupted ==> ready.None?
      ensures ready == Some(false) ==> clock >= old(clock) + Nanos(timeout)
    {
      var later: nat :| later >= clock && later >= clock + Nanos(timeout);
      if
      case true => ready, interrupted := None, false;
      case true => ready, interrupted, interruptions := None, true, interruptions + 1;
      case true => ready, interrupted := Some(true), false;
      case true => clock, ready, interrupted := later, Some(false), false;
    }
  }

  class SerialPort {
    const fd: Descriptor
    var isOpen: bool
    var timeout: Timeout

    constructor (fd: Descriptor, timeout: Timeout)
      ensures this.fd == fd && isOpen && this.timeout == timeout
    {
      this.fd, isOpen, this.timeout := fd, true, timeout;
    }

    /** waitReadable: false on a timeout and on an interruption. */
    method WaitReadable(millis: nat) returns (r: Result<bool, SerialError>)
      requires millis < TWO_32
      modifies fd`clock, fd`interruptions
      ensures fd.clock >= old(fd.clock) && fd.interruptions >= old(fd.interruptions)
      ensures r == Ok(false) ==>
        fd.interruptions > old(fd.interruptions) || fd.clock >= old(fd.clock) + millis * 1_000_000
    {
      var t := TimespecFromMs(millis);
      var ready, interrupted := fd.Select(t);
      if interrupted { return Ok(false); }
      if ready.None? { return Err(IoError); }
      r := Ok(ready.value);
    }

    /** One attempt of read: waits until `wait` milliseconds have passed or bytes have come, and stores those. */
    method ReadSome(buf: array<byte>, at: nat, size: nat, wait: nat) returns (r: Result<nat, SerialError>)
      requires at + size <= buf.Length && wait < TWO_32
      modifies buf, fd`clock, fd`incoming, fd`interruptions
      ensures fd.clock >= old(fd.clock) && fd.interruptions >= old(fd.interruptions)
      ensures r == Ok(0) ==>
        fd.interruptions > old(fd.interruptions) || fd.clock >= old(fd.clock) + wait * 1_000_000
      ensures r.Err? ==> fd.incoming == old(fd.incoming) && buf[..] == old(buf[..])
      ensures r.Ok? ==> r.value <= size && r.value <= |old(fd.incoming)|
      ensures r.Ok? ==> fd.incoming == old(fd.incoming)[r.value..]
      ensures r.Ok? ==> buf[..] == Put(old(buf[..]), at, old(fd.incoming)[..r.value])
    {
      hide Put;
      assert buf[..] == Put(buf[..], at, []) by { PutNothing(buf[..], at); }
      var readable := WaitReadable(wait);
      if readable.Err? { return Err(readable.error); }
      if !readable.value { return Ok(0); }
      var got := fd.Read(size);
      if got.None? || |got.value| < 1 {
        return Err(Disconnected);
      }
      Memcpy(buf, at, got.value);
      r := Ok(|got.value|);
    }

    /** Stores exactly the next `taken` bytes of the stream, in order, and nothing else; returns fewer than `size` only
        when less than a millisecond of the total timeout is left. */
    method Read(buf: array<byte>, size: nat) returns (r: Result<nat, SerialError>, ghost taken: nat)
      requires size <= buf.Length && timeout.interByte < TWO_32
      modifies buf, fd`clock, fd`incoming, fd`interruptions
      ensures !isOpen ==> r == Err(PortNotOpened)
      ensures taken <= size && taken <= |old(fd.incoming)| && fd.incoming == old(fd.incoming)[taken..]
      ensures buf[..] == Put(old(buf[..]), 0, old(fd.incoming)[..taken])
      ensures r.Ok? ==> r.value == taken
      ensures r.Ok? && r.value < size ==>
        fd.clock > old(fd.clock) + (TotalMs(timeout.readConstant, timeout.readMultiplier, size) - 1) * 1_000_000
      ensures r.Ok? && r.value < size && timeout.readConstant + timeout.readMultiplier * size < TWO_32 ==>
        fd.clock > old(fd.clock) + (timeout.readConstant + timeout.readMultiplier * size - 1) * 1_000_000
    {
      hide Put, TotalMs, TruncDiv, Nanos;
      ghost var was, stream := buf[..], fd.incoming;
      taken := 0;
      PutNothing(was, 0);
      if !isOpen { return Err(PortNotOpened), 0; }
      var totalMs := TotalMs(timeout.readConstant, timeout.readMultiplier, size);
      var start := fd.ClockNow();
      var timer := new MillisecondTimer(start, totalMs);
      var got := fd.Read(size);
      var bytesRead := 0;
      if got.Some? {
        Memcpy(buf, 0, got.value);
        bytesRead, taken := |got.value|, |got.value|;
        assert stream[..taken] == got.value && stream[taken..] == fd.incoming;
      }
      while bytesRead < size
        invariant bytesRead == taken <= size && taken <= |stream| && fd.incoming == stream[taken..]
        invariant buf[..] == Put(was, 0, stream[..taken])
        invariant fd.clock >= Nanos(start) > old(fd.clock)
        invariant Nanos(timer.expiry) == Nanos(start) + totalMs * 1_000_000
        decreases Nanos(timer.expiry) - fd.clock
      {
        var now := fd.ClockNow();
        var left := timer.Remaining(now);
        NothingLeft(Nanos(timer.expiry) - Nanos(now));
        if left <= 0 { break; }
        r := ReadSome(buf, bytesRead, size - bytesRead, Min(Wrap32(left), timeout.interByte));
        if r.Err? { return r, taken; }
        TakeMore(was, stream, taken, stream[taken..][..r.value], fd.incoming);
        bytesRead, taken := bytesRead + r.value, taken + r.value;
      }
      r := Ok(bytesRead);
      TotalFits(timeout.readConstant, timeout.readMultiplier, size);
    }

    /** Passes on exactly the first `sent` bytes of `data`, in order; returns fewer than all only when less than a
        millisecond of the total timeout is left. */
    method Write(data: seq<byte>) returns (r: Result<nat, SerialError>, ghost sent: nat)
      modifies fd`clock, fd`outgoing, fd`interruptions
      ensures !isOpen ==> r == Err(PortNotOpened) && sent == 0
      ensures sent <= |data| && fd.outgoing == old(fd.outgoing) + data[..sent]
      ensures r.Ok? ==> r.value == sent
      ensures r.Ok? && r.value < |data| ==>
        fd.clock > old(fd.clock) + (TotalMs(timeout.writeConstant, timeout.writeMultiplier, |data|) - 1) * 1_000_000
      ensures r.Ok? && r.value < |data| && timeout.writeConstant + timeout.writeMultiplier * |data| < TWO_32 ==>
        fd.clock > old(fd.clock) + (timeout.writeConstant + timeout.writeMultiplier * |data| - 1) * 1_000_000
    {
      hide TotalMs, TruncDiv, Nanos;
      sent := 0;
      if !isOpen { return Err(PortNotOpened), 0; }
      var bytesWritten := 0;
      var totalMs := TotalMs(timeout.writeConstant, timeout.writeMultiplier, |data|);
      var start := fd.ClockNow();
      var timer := new MillisecondTimer(start, totalMs);
      var firstIteration := true;
      while bytesWritten < |data|
        invariant bytesWritten == sent <= |data| && fd.outgoing == old(fd.outgoing) + data[..sent]
        invariant fd.clock >= Nanos(start) > old(fd.clock)
        invariant Nanos(timer.expiry) == Nanos(start) + totalMs * 1_000_000
        decreases firstIteration, Nanos(timer.expiry) - fd.clock
      {
        var now := fd.ClockNow();
        var left := timer.Remaining(now);
        NothingLeft(Nanos(timer.expiry) - Nanos(now));
        if !firstIteration && left <= 0 { break; }
        firstIteration := false;
        var t := TimespecFromMs(Wrap32(left));
        var ready, interrupted := fd.Select(t);
        if interrupted { continue; }
        if ready.None? { return Err(IoError), sent; }
        if !ready.value {
          // the whole of what was left has passed
          LeftHasPassed(Nanos(timer.expiry) - Nanos(now), left, Wrap32(left), totalMs);
          break;
        }
        var n := fd.Write(data[bytesWritten..]);
        if n.None? { continue; }
        if n.value < 1 { return Err(Disconnected), sent; }
        assert data[..sent] + data[sent..][..n.value] == data[..sent + n.value];
        bytesWritten, sent := bytesWritten + n.value, sent + n.value;
        if bytesWritten == |data| { break; }
      }
      r := Ok(bytesWritten);
      TotalFits(timeout.writeConstant, timeout.writeMultiplier, |data|);
    }
  }

  lemma LeftHasPassed(nanos: int, left: int, waited: nat, totalMs: nat)
    requires left == TruncDiv(nanos, 1_000_000) && waited == Wrap32(left)
    requires nanos < totalMs * 1_000_000 && totalMs < TWO_32
    ensures waited * 1_000_000 > nanos - 1_000_000
  {
  }

  lemma PutNothing(s: seq<byte>, at: nat)
    requires at <= |s|
    ensures Put(s, at, []) == s
  {
  }

  /** Storing the next chunk behind what was stored before. */
  lemma TakeMore(was: seq<byte>, stream: seq<byte>, taken: nat, chunk: seq<byte>, rest: seq<byte>)
    requires taken <= |stream| && stream[taken..] == chunk + rest && taken + |chunk| <= |was|
    ensures taken + |chunk| <= |stream| && rest == stream[taken + |chunk|..]
    ensures Put(Put(was, 0, stream[..taken]), taken, chunk) == Put(was, 0, stream[..taken + |chunk|])
  {
  }
}
