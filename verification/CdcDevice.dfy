/** The CDC device: one frame after the other from the serial stream to the callbacks. */
module CdcDevice {
  import opened Words
  import opened Modes
  import opened SerialLine
  import opened ImuTimeline
  import opened DeviceLink
  import opened CdcDecoder
  import opened DeviceClock
  import opened CdcEncoding
  import opened CdcDelivery

  datatype Failure = PortGone | BadBuffer

  class DeviceCdc {
    const mode: Mode
    const link: Link
    const receiveBuf: array<byte>
    const pointCloud: array<Point>
    var delivered: seq<Delivery>

    /** start_impl: the buffers have the mode's size. */
    constructor (mode: Mode, link: Link)
      ensures this.mode == mode && this.link == link && delivered == []
      ensures fresh(receiveBuf) && fresh(pointCloud)
      ensures receiveBuf.Length == PointCount(mode) * SLOT_BYTES && pointCloud.Length == PointCount(mode)
    {
      this.mode, this.link, delivered := mode, link, [];
      receiveBuf := new byte[PointCount(mode) * SLOT_BYTES];
      pointCloud := new Point[PointCount(mode)](_ => Nothing);
    }

    ghost predicate Valid()
      reads this, link, link.serial
    {
      && receiveBuf.Length == PointCount(mode) * SLOT_BYTES && pointCloud.Length == PointCount(mode)
      && link.serial.Valid()
    }

    /** The byte loop of read_serial_point_cloud. */
    method FillBuffer() returns (r: Result<(), Unplugged>)
      requires Valid()
      modifies receiveBuf, link`stopIn, link.serial
      ensures Valid() && old(link.serial.pos) <= link.serial.pos && link.stopIn <= old(link.stopIn)
      ensures r.Err? ==> |link.serial.bytes| < old(link.serial.pos) + receiveBuf.Length
      ensures r.Ok? && link.stopIn > 0 ==> link.serial.pos == old(link.serial.pos) + receiveBuf.Length
      ensures r.Ok? && link.stopIn > 0 ==> receiveBuf[..] == link.serial.bytes[old(link.serial.pos)..link.serial.pos]
    {
      hide PointCount;
      ghost var from, rest := link.serial.pos, link.serial.bytes[link.serial.pos..];
      var n := 0;
      while n < receiveBuf.Length
        invariant Valid() && n <= receiveBuf.Length && link.serial.pos == from + n && link.stopIn <= old(link.stopIn)
        invariant receiveBuf[..n] == rest[..n]
        decreases receiveBuf.Length - n, link.serial.stalls(link.serial.pos) - link.serial.waited
      {
        var got := link.serial.Read(receiveBuf.Length - n);
        if got.Err? { return Err(Unplugged); }
        ghost var before := receiveBuf[..];
        Memcpy(receiveBuf, n, got.value);
        PutBehind(before, n, got.value);
        assert rest[..n] + got.value == rest[..n + |got.value|];
        n := n + |got.value|;
        var running := link.LoadRunning();
        if !running { return Ok(()); }
      }
      assert receiveBuf[..] == receiveBuf[..n];
      assert link.serial.bytes[from..from + n] == rest[..n];
      r := Ok(());
    }

    /** read_serial_point_cloud: fills the receive buffer, however the bytes arrive. */
    method ReadSerialPointCloud(ghost payload: nat) returns (r: Result<(), Unplugged>)
      requires Valid()
      modifies receiveBuf, link`stopIn, link.serial
      ensures Valid() && old(link.serial.pos) <= link.serial.pos && link.stopIn <= old(link.stopIn)
      ensures PayloadComing(old(link.serial.pos), payload) && link.stopIn > 0 ==>
        && r.Ok? && link.serial.pos == payload + receiveBuf.Length
        && receiveBuf[..] == link.serial.bytes[payload..link.serial.pos]
      ensures NoPayloadLeft(old(link.serial.pos)) && link.stopIn > 0 ==> r.Err?
    {
      hide FindLine, PointCount, Contains;
      var line := link.ReadLineUntil(BEGIN_MP);
      if line.Err? { return Err(Unplugged); }
      r := FillBuffer();
    }

    /** The payload starts at `payload`, behind a `BEGIN MP` line, and is complete. */
    ghost predicate PayloadComing(from: nat, payload: nat)
    {
      LineComing(BEGIN_MP, from, payload) && payload + receiveBuf.Length <= |link.serial.bytes|
    }

    /** The first line with `needle` at or after `from` ends at `to`, and no timeout falls inside a line up to there. */
    ghost predicate LineComing(needle: seq<byte>, from: nat, to: nat)
    {
      && from <= |link.serial.bytes| && to <= |link.serial.bytes|
      && FindLine(link.serial.bytes, from, needle).Some? && FindLine(link.serial.bytes, from, needle).value.1 == to
      && link.QuietUpTo(from, to)
    }

    /** The bytes from `p` on are an encoded frame, and no timeout falls inside one of its lines. Timeouts between lines
        and anywhere in the binary parts are allowed. */
    ghost predicate FrameComing(p: nat, f: CdcFrame, eol: seq<byte>, m: Marks)
    {
      && Fitting(mode, f) && IsEol(eol) && PartsAt(link.serial.bytes, p, f, eol, m)
      && link.QuietLines(p, m.mp) && link.QuietLines(m.mp, m.payload)
      && link.QuietLines(m.imu, m.recs) && link.QuietLines(m.tail, m.end)
    }

    /** What the reader meets from `p` on, part by part, if it is to receive `f`. */
    ghost predicate Receives(p: nat, f: CdcFrame, m: Marks) {
      && Fitting(mode, f) && link.TimeComing(p, f.startTm, m.mp)
      && PayloadComing(m.mp, m.payload) && m.imu == m.payload + receiveBuf.Length
      && link.serial.bytes[m.payload..m.imu] == f.payload
      && link.ImuComing(m.imu, f.recs, m.tail)
      && link.TimeComing(m.tail, f.endTm, m.end)
    }

    /** No line can say `BEGIN MP` any more. */
    ghost predicate NoPayloadLeft(p: nat) { p <= |link.serial.bytes| && !Contains(link.serial.bytes[p..], BEGIN_MP) }

    /** An encoded frame is received as it was sent. */
    lemma FrameParts(p: nat, f: CdcFrame, eol: seq<byte>, m: Marks)
      requires Valid() && FrameComing(p, f, eol, m)
      ensures Receives(p, f, m)
    {
      hide FindLine, ParseTimestamp, OccursAt, PartsAt, Link.ImuComing, Link.TimeComing, PayloadComing, PointCount;
      FrameHead(p, f, eol, m);
      FrameTail(p, f, eol, m);
    }

    lemma FrameHead(p: nat, f: CdcFrame, eol: seq<byte>, m: Marks)
      requires Valid() && FrameComing(p, f, eol, m)
      ensures link.TimeComing(p, f.startTm, m.mp) && PayloadComing(m.mp, m.payload)
      ensures m.imu == m.payload + receiveBuf.Length <= |link.serial.bytes|
      ensures link.serial.bytes[m.payload..m.imu] == f.payload
    {
      hide FindLine, ParseTimestamp, TimeText, PointCount, FlatRecords, OccursAt, Contains;
      OccursInside(link.serial.bytes, f.payload, m.payload);
      ReaderFinds(link.serial.bytes, p, f, eol, m);
    }

    lemma FrameTail(p: nat, f: CdcFrame, eol: seq<byte>, m: Marks)
      requires Valid() && FrameComing(p, f, eol, m)
      ensures link.ImuComing(m.imu, f.recs, m.tail) && link.TimeComing(m.tail, f.endTm, m.end)
    {
      hide FindLine, ParseTimestamp, ParseRecords, TimeText, PointCount, FlatRecords, OccursAt, Contains;
      ReaderFinds(link.serial.bytes, p, f, eol, m);
      ReaderParses(link.serial.bytes, p, f, eol, m);
    }

    /** The reading half of process_serial_data: the two time stamps, or None when the device was stopped. */
    method ReadFrame(ghost f: CdcFrame, ghost m: Marks)
      returns (r: Result<Option<(nat, nat)>, Failure>)
      requires Valid()
      modifies receiveBuf, link`stopIn, link.serial, link.unpacker`imuData
      ensures Valid() && link.stopIn <= old(link.stopIn) && old(link.serial.pos) <= link.serial.pos
      ensures r.Ok? && link.stopIn > 0 ==> r.value.Some?
      ensures NoPayloadLeft(old(link.serial.pos)) && r.Ok? && r.value.Some? ==> link.stopIn == 0
      ensures Receives(old(link.serial.pos), f, m) && link.stopIn > 0 ==>
        && r == Ok(Some((f.startTm, f.endTm))) && link.serial.pos == m.end
        && receiveBuf[..] == f.payload && link.unpacker.imuData == f.recs
    {
      hide PayloadComing, NoPayloadLeft, Link.TimeComing, Link.ImuComing, PointCount, Fitting;
      var startTm := ReadHead(f.startTm, m.mp, m.payload);
      if startTm.Err? { return Err(startTm.error); }
      if startTm.value.None? { return Ok(None); }
      assert Receives(old(link.serial.pos), f, m) && link.stopIn > 0 ==> link.serial.pos == m.imu;
      var endTm := ReadTail(f.recs, m.tail, f.endTm, m.end);
      if endTm.Err? { return Err(endTm.error); }
      r := Ok(Some((startTm.value.value, endTm.value)));
    }

    method ReadHead(ghost tm: nat, ghost mp: nat, ghost payload: nat) returns (r: Result<Option<nat>, Failure>)
      requires Valid()
      modifies receiveBuf, link`stopIn, link.serial
      ensures Valid() && link.stopIn <= old(link.stopIn) && old(link.serial.pos) <= link.serial.pos
      ensures r.Ok? && link.stopIn > 0 ==> r.value.Some?
      ensures NoPayloadLeft(old(link.serial.pos)) && r.Ok? && r.value.Some? ==> link.stopIn == 0
      ensures link.TimeComing(old(link.serial.pos), tm, mp) && PayloadComing(mp, payload) && link.stopIn > 0 ==>
        && r == Ok(Some(tm)) && link.serial.pos == payload + receiveBuf.Length
        && receiveBuf[..] == link.serial.bytes[payload..link.serial.pos]
    {
      hide PayloadComing, Link.TimeComing, PointCount, Contains;
      var startTm := link.ReadTimestamp(tm, mp);
      if startTm.Err? { return Err(PortGone); }
      var running := link.LoadRunning();
      if !running { return Ok(None); }
      if Contains(link.serial.bytes[link.serial.pos..], BEGIN_MP) {
        ContainsBehind(link.serial.bytes, old(link.serial.pos), link.serial.pos, BEGIN_MP);
      }
      var read := ReadSerialPointCloud(payload);
      if read.Err? { return Err(PortGone); }
      r := Ok(Some(startTm.value));
    }

    method ReadTail(ghost recs: seq<Record>, ghost tail: nat, ghost tm: nat, ghost end: nat)
      returns (r: Result<nat, Failure>)
      requires Valid()
      modifies link`stopIn, link.serial, link.unpacker`imuData
      ensures Valid() && link.stopIn <= old(link.stopIn) && old(link.serial.pos) <= link.serial.pos
      ensures link.ImuComing(old(link.serial.pos), recs, tail) && link.TimeComing(tail, tm, end) && link.stopIn > 0 ==>
        r == Ok(tm) && link.serial.pos == end && link.unpacker.imuData == recs
    {
      hide Link.TimeComing, Link.ImuComing, PointCount;
      var imu := link.ReadImu(recs, tail);
      if imu.Err? { return Err(PortGone); }
      var endTm := link.ReadTimestamp(tm, end);
      if endTm.Err? { return Err(PortGone); }
      r := Ok(endTm.value);
    }

    /** The unpacking and delivering half. */
    method Deliver(receiveTs: nat, startTm: nat, endTm: nat) returns (r: Result<(), Failure>)
      requires Valid()
      modifies this`delivered, pointCloud, link`stopIn
      modifies link.unpacker`imuSamples, link.unpacker`latestImuSampleTs, link.unpacker`clockOffset
      ensures Valid() && link.stopIn <= old(link.stopIn)
      ensures r.Ok?
      ensures var recs, latest := link.unpacker.imuData, old(link.unpacker.latestImuSampleTs);
        var all := Deliveries(mode, receiveBuf[..], recs, DeviceNs(startTm), ClockOffset(receiveTs, endTm), latest);
        && link.unpacker.latestImuSampleTs == TimeAfter(latest, FrameEntries(DeviceNs(startTm), recs))
        && old(delivered) <= delivered <= old(delivered) + all
        && (link.stopIn > 0 ==> delivered == old(delivered) + all)
        && (old(link.stopIn) == 0 ==> delivered == old(delivered))
      ensures link.stopIn > 0 ==>
        delivered == old(delivered)
          + [CloudDelivery(Wrap64(DeviceNs(startTm) + ClockOffset(receiveTs, endTm)), CloudOf(mode, receiveBuf[..]))]
          + if link.unpacker.imuSamples == [] then [] else [ImuDelivery(link.unpacker.imuSamples)]
      ensures link.unpacker.imuSamples == Samples(
        old(link.unpacker.latestImuSampleTs), FrameEntries(DeviceNs(startTm), link.unpacker.imuData),
        ClockOffset(receiveTs, endTm))
    {
      hide PointCount, FrameEntries, Samples, TimeAfter, CloudOf;
      link.unpacker.clockOffset := ClockOffset(receiveTs, endTm);
      var unpacked := UnpackPointCloud(mode, receiveBuf[..], pointCloud);
      if unpacked.Err? { return Err(BadBuffer); }
      link.unpacker.UnpackImuData(DeviceNs(startTm));
      var running := link.LoadRunning();
      if running {
        delivered := delivered + [CloudDelivery(Wrap64(DeviceNs(startTm) + link.unpacker.clockOffset), pointCloud[..])];
      }
      running := link.LoadRunning();
      if running && link.unpacker.imuSamples != [] {
        delivered := delivered + [ImuDelivery(link.unpacker.imuSamples)];
      }
      r := Ok(());
    }

    /** process_serial_data. `f` and `m` name the frame that is to be received, if one is: it is consumed exactly and
        delivered exactly, or, when the device is stopped meanwhile, only a prefix of it is delivered. */
    method ProcessSerialData(receiveTs: nat, ghost f: CdcFrame, ghost m: Marks)
      returns (r: Result<(), Failure>)
      requires Valid()
      modifies this`delivered, receiveBuf, pointCloud, link`stopIn, link.serial
      modifies link.unpacker`imuData, link.unpacker`imuSamples
      modifies link.unpacker`latestImuSampleTs, link.unpacker`clockOffset
      ensures Valid() && link.stopIn <= old(link.stopIn) && old(link.serial.pos) <= link.serial.pos
      ensures r.Err? ==> delivered == old(delivered)
      ensures NoPayloadLeft(old(link.serial.pos)) ==> delivered == old(delivered)
      ensures NoPayloadLeft(old(link.serial.pos)) && link.stopIn > 0 ==> r.Err?
      ensures Receives(old(link.serial.pos), f, m) && link.stopIn > 0 ==>
        && r.Ok? && link.serial.pos == m.end
        && link.unpacker.latestImuSampleTs == LatestAfter(f, old(link.unpacker.latestImuSampleTs))
        && delivered == old(delivered) + FrameDeliveries(mode, f, receiveTs, old(link.unpacker.latestImuSampleTs))
        && link.unpacker.imuSamples == Samples(
             old(link.unpacker.latestImuSampleTs), FrameEntries(DeviceNs(f.startTm), f.recs),
             ClockOffset(receiveTs, f.endTm))
      ensures Receives(old(link.serial.pos), f, m) && link.stopIn > 0 ==>
        delivered == old(delivered) + [CloudOfFrame(mode, f, receiveTs)]
          + if link.unpacker.imuSamples == [] then [] else [ImuDelivery(link.unpacker.imuSamples)]
      ensures Receives(old(link.serial.pos), f, m) ==>
        && old(delivered) <= delivered
        && delivered <= old(delivered) + FrameDeliveries(mode, f, receiveTs, old(link.unpacker.latestImuSampleTs))
    {
      hide PointCount, FrameEntries, TimeAfter, Deliveries, NoPayloadLeft, PayloadComing;
      hide Link.TimeComing, Link.ImuComing;
      var tms := ReadFrame(f, m);
      if tms.Err? { return Err(tms.error); }
      if tms.value.None? { return Ok(()); }
      r := Deliver(receiveTs, tms.value.value.0, tms.value.value.1);
    }

    /** The bytes from `p` to the end of the stream are the encoded frames, one after the other. */
    ghost predicate FramesComing(p: nat, frames: seq<CdcFrame>, eol: seq<byte>)
      decreases |frames|
    {
      if frames == [] then p == |link.serial.bytes|
      else
        var m := MarksOf(p, frames[0], eol);
        FrameComing(p, frames[0], eol, m) && FramesComing(m.end, frames[1..], eol)
    }

    ghost predicate QuietFrames(p: nat, frames: seq<CdcFrame>, eol: seq<byte>)
      decreases |frames|
    {
      if frames == [] then true
      else
        var m := MarksOf(p, frames[0], eol);
        && m.end <= |link.serial.bytes|
        && link.QuietLines(p, m.mp) && link.QuietLines(m.mp, m.payload)
        && link.QuietLines(m.imu, m.recs) && link.QuietLines(m.tail, m.end)
        && QuietFrames(m.end, frames[1..], eol)
    }

    /** What the encoder writes is what the reader expects, as long as no timeout falls inside a line. */
    lemma {:induction false} EncodedFramesCome(p: nat, frames: seq<CdcFrame>, eol: seq<byte>)
      requires p <= |link.serial.bytes| && link.serial.bytes[p..] == EncodedAll(frames, eol)
      requires IsEol(eol) && AllFit(mode, frames) && QuietFrames(p, frames, eol)
      ensures FramesComing(p, frames, eol)
      decreases |frames|
    {
      hide Link.QuietLines, PartsAt, MarksOf, Encoded, Fitting;
      if frames != [] {
        var f, rest := Encoded(frames[0], eol), EncodedAll(frames[1..], eol);
        var m, s := MarksOf(p, frames[0], eol), link.serial.bytes;
        assert s[p..p + |f|] == f by { assert s[p..][..|f|] == (f + rest)[..|f|] == f; }
        PartsOfFrame(s, p, frames[0], eol);
        assert s[m.end..] == rest by { assert s[p..][|f|..] == (f + rest)[|f|..] == rest; }
        EncodedFramesCome(m.end, frames[1..], eol);
      }
    }

    /** From `p` on the frames are received one after the other, each up to the `end` of its marks, and then nothing. */
    ghost predicate FramesReceived(p: nat, frames: seq<CdcFrame>, marks: seq<Marks>)
      decreases |frames|
    {
      if frames == [] then marks == [] && NoPayloadLeft(p)
      else
        && marks != [] && Receives(p, frames[0], marks[0])
        && FramesReceived(marks[0].end, frames[1..], marks[1..])
    }

    /** The main loop of run(): however the bytes are chunked and whenever the device is stopped, what the callbacks get
        is a prefix of what the frames say; while the device is not stopped, they get all of it. */
    method StreamFrames(receiveTimes: nat -> nat, ghost frames: seq<CdcFrame>, ghost marks: seq<Marks>)
      returns (r: Result<(), Failure>)
      requires Valid()
      modifies this`delivered, receiveBuf, pointCloud, link`stopIn, link.serial
      modifies link.unpacker`imuData, link.unpacker`imuSamples
      modifies link.unpacker`latestImuSampleTs, link.unpacker`clockOffset
      ensures Valid() && link.stopIn <= old(link.stopIn)
      ensures old(link.stopIn) == 0 ==> delivered == old(delivered)
      ensures FramesReceived(old(link.serial.pos), frames, marks) ==> AllFit(mode, frames)
      ensures FramesReceived(old(link.serial.pos), frames, marks) ==> old(delivered) <= delivered
      ensures FramesReceived(old(link.serial.pos), frames, marks) ==>
        delivered <= old(delivered) + Expected(mode, frames, receiveTimes, 0, old(link.unpacker.latestImuSampleTs))
      ensures FramesReceived(old(link.serial.pos), frames, marks) && link.stopIn > 0 ==> r.Err?
      ensures FramesReceived(old(link.serial.pos), frames, marks) && link.stopIn > 0 ==>
        delivered == old(delivered) + Expected(mode, frames, receiveTimes, 0, old(link.unpacker.latestImuSampleTs))
      ensures FramesReceived(old(link.serial.pos), frames, marks) && old(link.unpacker.latestImuSampleTs) == 0 ==>
        Since(mode, frames, receiveTimes, old(delivered), delivered, link.stopIn > 0)
    {
      hide Receives, FrameDeliveries, LatestAfter, PointCount, FramesReceived, Expected, StillComing, AllFit;
      hide NoPayloadLeft, Since;
      ghost var coming := FramesReceived(link.serial.pos, frames, marks);
      if coming { ReceivedFit(link.serial.pos, frames, marks); }
      ghost var latest := link.unpacker.latestImuSampleTs;
      ghost var all := if coming then delivered + Expected(mode, frames, receiveTimes, 0, latest) else [];
      if coming { ComingFirst(link.serial.pos, delivered, frames, marks, receiveTimes, latest, all); }
      ghost var rest, at := frames, marks;
      var k := 0;
      while true
        invariant Valid() && link.stopIn <= old(link.stopIn)
        invariant old(link.stopIn) == 0 ==> delivered == old(delivered)
        invariant coming ==> old(delivered) <= delivered <= all
        invariant coming && link.stopIn > 0 ==>
          StillComing(link.serial.pos, delivered, rest, at, receiveTimes, k, link.unpacker.latestImuSampleTs, all)
        decreases link.stopIn
      {
        var running := link.LoadRunning();
        if !running {
          r := Ok(());
          break;
        }
        ghost var p, before := link.serial.pos, delivered;
        latest := link.unpacker.latestImuSampleTs;
        ghost var f, m := if rest == [] then CdcFrame(0, [], [], 0) else rest[0],
                          if at == [] then Marks(0, 0, 0, 0, 0, 0, 0) else at[0];
        if coming { NextComing(p, before, rest, at, receiveTimes, k, latest, all); }
        r := ProcessSerialData(receiveTimes(k), f, m);
        if r.Err? { break; }
        if coming && rest != [] {
          AllOfIt(p, before, rest, at, receiveTimes, k, latest, all, delivered);
        }
        rest, at := if rest == [] then [] else rest[1..], if at == [] then [] else at[1..];
        k := k + 1;
      }
      if coming && old(link.unpacker.latestImuSampleTs) == 0 {
        ExpectedIsSince(mode, frames, receiveTimes, old(delivered), delivered, link.stopIn > 0);
      }
    }

    /** At `p`, with `before` delivered, the frames in `rest` come, and delivering them makes `all`. */
    ghost predicate StillComing(p: nat, before: seq<Delivery>, rest: seq<CdcFrame>, at: seq<Marks>,
                                receiveTimes: nat -> nat, k: nat, latest: int, all: seq<Delivery>)
    {
      && FramesReceived(p, rest, at) && AllFit(mode, rest)
      && all == before + Expected(mode, rest, receiveTimes, k, latest)
    }

    lemma ComingFirst(p: nat, before: seq<Delivery>, frames: seq<CdcFrame>, at: seq<Marks>,
                      receiveTimes: nat -> nat, latest: int, all: seq<Delivery>)
      requires FramesReceived(p, frames, at) && AllFit(mode, frames)
      requires all == before + Expected(mode, frames, receiveTimes, 0, latest)
      ensures StillComing(p, before, frames, at, receiveTimes, 0, latest, all)
    {
    }

    /** Everything is delivered and nothing comes any more, or the next frame comes. */
    lemma NextComing(p: nat, before: seq<Delivery>, rest: seq<CdcFrame>, at: seq<Marks>,
                     receiveTimes: nat -> nat, k: nat, latest: int, all: seq<Delivery>)
      requires StillComing(p, before, rest, at, receiveTimes, k, latest, all)
      ensures rest == [] ==> NoPayloadLeft(p) && all == before
      ensures rest != [] ==> at != [] && Fitting(mode, rest[0]) && Receives(p, rest[0], at[0])
    {
      hide PointCount, Link.TimeComing, Link.ImuComing, PayloadComing, NoPayloadLeft, Sendable;
    }

    lemma AllOfIt(p: nat, before: seq<Delivery>, rest: seq<CdcFrame>, at: seq<Marks>, receiveTimes: nat -> nat, k: nat,
                  latest: int, all: seq<Delivery>, after: seq<Delivery>)
      requires StillComing(p, before, rest, at, receiveTimes, k, latest, all) && rest != [] && Fitting(mode, rest[0])
      requires after <= before + FrameDeliveries(mode, rest[0], receiveTimes(k), latest)
      ensures at != [] && after <= all
      ensures after == before + FrameDeliveries(mode, rest[0], receiveTimes(k), latest) ==>
        StillComing(at[0].end, after, rest[1..], at[1..], receiveTimes, k + 1, LatestAfter(rest[0], latest), all)
    {
      hide Fitting, Receives, FrameDeliveries, LatestAfter;
      var now, later := FrameDeliveries(mode, rest[0], receiveTimes(k), latest),
                        Expected(mode, rest[1..], receiveTimes, k + 1, LatestAfter(rest[0], latest));
      assert all == before + (now + later) == (before + now) + later;
    }

    lemma {:induction false} ReceivedFit(p: nat, frames: seq<CdcFrame>, marks: seq<Marks>)
      requires FramesReceived(p, frames, marks)
      ensures AllFit(mode, frames)
      decreases |frames|
    {
      hide Fitting, Link.TimeComing, Link.ImuComing, PayloadComing, NoPayloadLeft;
      if frames != [] { ReceivedFit(marks[0].end, frames[1..], marks[1..]); }
    }

    // ---- a run: the first frames are skipped ----

    /** The marks of frames that are received from their beginning. */
    ghost function AllMarks(p: nat, frames: seq<CdcFrame>, eol: seq<byte>): seq<Marks>
      decreases |frames|
    {
      if frames == [] then []
      else var m := MarksOf(p, frames[0], eol); [m] + AllMarks(m.end, frames[1..], eol)
    }

    lemma {:induction false} EncodedReceived(p: nat, frames: seq<CdcFrame>, eol: seq<byte>)
      requires Valid() && FramesComing(p, frames, eol)
      ensures FramesReceived(p, frames, AllMarks(p, frames, eol))
      decreases |frames|
    {
      hide FrameComing, Receives, MarksOf, PointCount;
      if frames == [] {
        assert link.serial.bytes[p..] == [];
        WithoutFirst([], BEGIN_MP);
      } else {
        var m := MarksOf(p, frames[0], eol);
        FrameParts(p, frames[0], eol, m);
        EncodedReceived(m.end, frames[1..], eol);
      }
    }

    /** The first `n` frames can be skipped: `END` stands nowhere else in them, and no timeout falls inside one of the
        lines that their bytes are read as. */
    ghost predicate Skippable(p: nat, frames: seq<CdcFrame>, eol: seq<byte>, n: nat)
      decreases n
    {
      if n == 0 || frames == [] then true
      else
        var m := MarksOf(p, frames[0], eol);
        && m.end <= |link.serial.bytes| && OneEnd(link.serial.bytes, p, frames[0], m) && link.QuietLines(p, m.end)
        && Skippable(m.end, frames[1..], eol, n - 1)
    }

    /** Where the skip loop stops in each of them. */
    ghost function StopsOf(p: nat, frames: seq<CdcFrame>, eol: seq<byte>, n: nat): seq<nat>
      decreases n
    {
      if n == 0 || frames == [] then []
      else var m := MarksOf(p, frames[0], eol); [m.time] + StopsOf(m.end, frames[1..], eol, n - 1)
    }

    /** Whole lines without `END` lie between `from` and the frame at `p`. */
    ghost predicate Gap(from: nat, p: nat) {
      && from <= p <= |link.serial.bytes| && NoEndWithin(link.serial.bytes, from, p) && link.QuietLines(from, p)
      && (from == p || link.serial.bytes[p - 1] == LF)
    }

    lemma GapBehind(p: nat, f: CdcFrame, eol: seq<byte>, m: Marks)
      requires FrameComing(p, f, eol, m) && link.QuietLines(p, m.end)
      ensures Gap(m.time, m.end)
    {
      hide FindLine, ParseTimestamp, FlatRecords, PointCount;
      ReaderFinds(link.serial.bytes, p, f, eol, m);
      hide TimeText;
      TimeTextHasNo(f.endTm, eol, 69);
      var line := TimeText(f.endTm) + eol;
      forall k | m.time <= k < m.end ensures !OccursAt(link.serial.bytes, END, k) {
        assert link.serial.bytes[m.time..m.end][k - m.time] == line[k - m.time];
        EndBegins(link.serial.bytes, k);
      }
    }

    lemma {:induction false} SkipsCome(from: nat, p: nat, frames: seq<CdcFrame>, eol: seq<byte>, n: nat)
      requires Gap(from, p) && FramesComing(p, frames, eol) && Skippable(p, frames, eol, n)
      ensures link.StopsComing(from, StopsOf(p, frames, eol, n), n)
      decreases n
    {
      hide FindLine, PointCount, MarksOf, NoEndWithin, Fitting, PartsAt;
      if n == 0 {
      } else if frames == [] {
        NothingSkipped(from);
      } else {
        var m := MarksOf(p, frames[0], eol);
        FirstSkip(from, p, frames[0], eol, m);
        GapBehind(p, frames[0], eol, m);
        SkipsCome(m.time, m.end, frames[1..], eol, n - 1);
      }
    }

    lemma NothingSkipped(from: nat)
      requires from <= |link.serial.bytes| && NoEndWithin(link.serial.bytes, from, |link.serial.bytes|)
      ensures !Contains(link.serial.bytes[from..], END)
    {
      var s := link.serial.bytes;
      assert s[from..from + (|s| - from)] == s[from..];
      LineBeforeEnd(s, from, |s| - from, |s|);
    }

    lemma FirstSkip(from: nat, p: nat, f: CdcFrame, eol: seq<byte>, m: Marks)
      requires Gap(from, p) && FrameComing(p, f, eol, m)
      requires m.end <= |link.serial.bytes| && OneEnd(link.serial.bytes, p, f, m) && link.QuietLines(p, m.end)
      ensures m.time <= |link.serial.bytes| && FindLine(link.serial.bytes, from, END).Some?
      ensures FindLine(link.serial.bytes, from, END).value.1 == m.time && link.QuietUpTo(from, m.time)
    {
      hide FindLine, NoEndWithin, OccursAt, MarksOf;
      SkipFinds(link.serial.bytes, from, p, f, eol, m);
    }

    /** Behind the skipped frame `f` the frame `g` is received with the closing time of `f` for its own time. */
    lemma SkippedParts(p: nat, f: CdcFrame, m: Marks, g: CdcFrame, n: Marks, eol: seq<byte>)
      requires Valid() && FrameComing(p, f, eol, m) && FrameComing(m.end, g, eol, n)
      ensures Receives(m.time, g.(startTm := f.endTm), n.(mp := m.end))
    {
      hide FrameComing, PayloadComing, PointCount, Link.ImuComing, Link.TimeComing;
      SkippedHead(p, f, m, g, n, eol);
      FrameParts(m.end, g, eol, n);
    }

    lemma SkippedHead(p: nat, f: CdcFrame, m: Marks, g: CdcFrame, n: Marks, eol: seq<byte>)
      requires Valid() && FrameComing(p, f, eol, m) && FrameComing(m.end, g, eol, n)
      ensures f.endTm < TWO_64 && link.TimeComing(m.time, f.endTm, m.end)
      ensures PayloadComing(m.end, n.payload)
    {
      hide FindLine, ParseTimestamp, PointCount, OccursAt, TimeText, FlatRecords;
      ReaderFindsSkipped(link.serial.bytes, p, f, m, g, n, eol);
    }

    lemma NothingBehind(p: nat, f: CdcFrame, eol: seq<byte>, m: Marks)
      requires FrameComing(p, f, eol, m) && m.end == |link.serial.bytes|
      ensures NoPayloadLeft(m.time)
    {
      hide TimeText, FlatRecords, PointCount;
      TimeTextHasNo(f.endTm, eol, 66);
      assert link.serial.bytes[m.time..] == TimeText(f.endTm) + eol;
      WithoutFirst(TimeText(f.endTm) + eol, BEGIN_MP);
    }

    ghost function HeardMarks(p: nat, frames: seq<CdcFrame>, eol: seq<byte>, n: nat): seq<Marks>
      decreases n
    {
      if n == 0 then AllMarks(p, frames, eol)
      else if |frames| <= n then []
      else
        var m := MarksOf(p, frames[0], eol);
        if n > 1 then HeardMarks(m.end, frames[1..], eol, n - 1)
        else
          var next := MarksOf(m.end, frames[1], eol);
          [next.(mp := m.end)] + AllMarks(next.end, frames[2..], eol)
    }

    /** What is received behind the last skipped frame. */
    lemma {:induction false} HeardReceived(p: nat, frames: seq<CdcFrame>, eol: seq<byte>, n: nat)
      requires Valid() && FramesComing(p, frames, eol) && 0 < n <= |frames|
      ensures |StopsOf(p, frames, eol, n)| == n
      ensures FramesReceived(StopsOf(p, frames, eol, n)[n - 1], Heard(frames, n), HeardMarks(p, frames, eol, n))
      decreases n
    {
      hide FrameComing, Receives, MarksOf, PointCount, NoPayloadLeft, AllMarks;
      var m := MarksOf(p, frames[0], eol);
      if n > 1 {
        HeardReceived(m.end, frames[1..], eol, n - 1);
        if |frames| > n { assert frames[1..][n..] == frames[n + 1..]; }
      } else if |frames| == 1 {
        NothingBehind(p, frames[0], eol, m);
      } else {
        var next := MarksOf(m.end, frames[1], eol);
        assert frames[1..][1..] == frames[2..];
        SkippedParts(p, frames[0], m, frames[1], next, eol);
        EncodedReceived(next.end, frames[2..], eol);
      }
    }

    /** The receiving part of run(), from the first byte that the device streams: `rate` frames are skipped, and then
        everything is delivered. What is delivered first carries the closing time of the last skipped frame. */
    method SkipAndStream(rate: nat, receiveTimes: nat -> nat, ghost frames: seq<CdcFrame>, ghost eol: seq<byte>)
      returns (r: Result<(), Failure>)
      requires Valid()
      modifies this`delivered, receiveBuf, pointCloud, link`stopIn, link.serial
      modifies link.unpacker`imuData, link.unpacker`imuSamples
      modifies link.unpacker`latestImuSampleTs, link.unpacker`clockOffset
      ensures Valid()
      ensures RunComing(old(link.serial.pos), frames, eol, rate) ==> AllFit(mode, Heard(frames, rate))
      ensures RunComing(old(link.serial.pos), frames, eol, rate) ==> old(delivered) <= delivered
      ensures RunComing(old(link.serial.pos), frames, eol, rate) ==>
        delivered <= old(delivered)
                     + Expected(mode, Heard(frames, rate), receiveTimes, 0, old(link.unpacker.latestImuSampleTs))
      ensures RunComing(old(link.serial.pos), frames, eol, rate) && link.stopIn > 0 ==> r.Err?
      ensures RunComing(old(link.serial.pos), frames, eol, rate) && link.stopIn > 0 ==>
        delivered == old(delivered)
                     + Expected(mode, Heard(frames, rate), receiveTimes, 0, old(link.unpacker.latestImuSampleTs))
      ensures RunComing(old(link.serial.pos), frames, eol, rate) && old(link.unpacker.latestImuSampleTs) == 0 ==>
        Since(mode, Heard(frames, rate), receiveTimes, old(delivered), delivered, link.stopIn > 0)
    {
      hide FramesReceived, Expected, AllFit, PointCount, StopsOf, HeardMarks, Heard, RunComing, Link.StopsComing, Since;
      ghost var p, latest := link.serial.pos, link.unpacker.latestImuSampleTs;
      ghost var coming := RunComing(p, frames, eol, rate);
      ghost var stops, heard := StopsOf(p, frames, eol, rate), Heard(frames, rate);
      ghost var marks := HeardMarks(p, frames, eol, rate);
      if coming { RunReceived(p, frames, eol, rate); }
      if coming { NothingExpected(frames, rate, receiveTimes, latest); }
      var skipped := link.SkipFrames(rate, stops);
      if skipped.Ok? {
        r := StreamFrames(receiveTimes, heard, marks);
      } else {
        r := Err(PortGone);
      }
      if coming && latest == 0 {
        ExpectedIsSince(mode, heard, receiveTimes, old(delivered), delivered, link.stopIn > 0);
      }
    }

    /** The frames come, and the first `rate` of them can be skipped. */
    ghost predicate RunComing(p: nat, frames: seq<CdcFrame>, eol: seq<byte>, rate: nat) {
      p <= |link.serial.bytes| && FramesComing(p, frames, eol) && Skippable(p, frames, eol, rate)
    }

    lemma RunReceived(p: nat, frames: seq<CdcFrame>, eol: seq<byte>, rate: nat)
      requires Valid() && RunComing(p, frames, eol, rate)
      ensures link.StopsComing(p, StopsOf(p, frames, eol, rate), rate)
      ensures |StopsOf(p, frames, eol, rate)| == Min(rate, |frames|)
      ensures rate <= |frames| ==>
        FramesReceived(if rate == 0 then p else StopsOf(p, frames, eol, rate)[rate - 1], Heard(frames, rate),
                       HeardMarks(p, frames, eol, rate))
      ensures AllFit(mode, Heard(frames, rate))
    {
      hide FramesComing, Skippable, FramesReceived, PointCount, Fitting;
      SkipsCome(p, p, frames, eol, rate);
      CountStops(p, frames, eol, rate);
      if rate == 0 {
        EncodedReceived(p, frames, eol);
      } else if rate <= |frames| {
        HeardReceived(p, frames, eol, rate);
      }
      if rate <= |frames| {
        ReceivedFit(if rate == 0 then p else StopsOf(p, frames, eol, rate)[rate - 1], Heard(frames, rate),
                    HeardMarks(p, frames, eol, rate));
      }
    }

    lemma {:induction false} CountStops(p: nat, frames: seq<CdcFrame>, eol: seq<byte>, n: nat)
      ensures |StopsOf(p, frames, eol, n)| == Min(n, |frames|)
      decreases n
    {
      hide MarksOf;
      if n > 0 && frames != [] { CountStops(MarksOf(p, frames[0], eol).end, frames[1..], eol, n - 1); }
    }

    lemma NothingExpected(frames: seq<CdcFrame>, rate: nat, receiveTimes: nat -> nat, latest: int)
      requires AllFit(mode, Heard(frames, rate))
      ensures |frames| < rate ==> Expected(mode, Heard(frames, rate), receiveTimes, 0, latest) == []
    {
    }
  }

  /** The bytes of a run of frames. */
  function EncodedAll(frames: seq<CdcFrame>, eol: seq<byte>): seq<byte> {
    if frames == [] then [] else Encoded(frames[0], eol) + EncodedAll(frames[1..], eol)
  }
}
