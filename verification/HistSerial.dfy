/** The serial side of the histogram device: IMU data and clock synchronisation. */
module HistSerial {
  import opened Words
  import opened Modes
  import opened SerialLine
  import opened ImuTimeline
  import opened DeviceLink
  import opened DeviceClock

  /** The device time a frame began, reckoned back from its end by the exposure. */
  function FrameTs(mode: Mode, endTm: nat): nat { Wrap64(DeviceNs(endTm) - MODES[mode].totExposure * 1_000_000) }

  /** On the host clock this is the receive time minus the exposure. */
  lemma FrameTsOnHost(mode: Mode, receiveTs: nat, endTm: nat)
    requires MODES[mode].totExposure * 1_000_000 <= receiveTs < TWO_64
    ensures Wrap64(FrameTs(mode, endTm) + ClockOffset(receiveTs, endTm))
         == receiveTs - MODES[mode].totExposure * 1_000_000
    ensures MODES[mode].totExposure == if MODES[mode].text == "30m15f" || MODES[mode].text == "40m" then 65 else 32
  {
  }

  function ImuDeliveries(mode: Mode, recs: seq<Record>, receiveTs: nat, endTm: nat, latest: int): seq<seq<Sample>> {
    var samples := Samples(latest, FrameEntries(FrameTs(mode, endTm), recs), ClockOffset(receiveTs, endTm));
    if samples == [] then [] else [samples]
  }

  /** A block gives at most one call, with all its samples. */
  lemma BlockIsOneCall(mode: Mode, recs: seq<Record>, receiveTs: nat, endTm: nat, latest: int, calls: seq<seq<Sample>>)
    requires calls == ImuDeliveries(mode, recs, receiveTs, endTm, latest)
    ensures |calls| <= 1 && [] !in calls
    ensures calls == [] <==> forall n :: 0 < n <= |FrameEntries(FrameTs(mode, endTm), recs)| ==>
      TimeAfter(latest, FrameEntries(FrameTs(mode, endTm), recs)[..n]) <= 0
  {
    hide FrameEntries, FrameTs, ClockOffset, TimeAfter;
    NoSampleExactlyWhen(latest, FrameEntries(FrameTs(mode, endTm), recs), ClockOffset(receiveTs, endTm));
  }

  class SerialSide {
    const mode: Mode
    const link: Link
    var delivered: seq<seq<Sample>>

    constructor (mode: Mode, link: Link)
      ensures this.mode == mode && this.link == link && delivered == []
    {
      this.mode, this.link, delivered := mode, link, [];
    }

    /** process_serial_data. `recs`, `tail`, `tm` and `end` describe the IMU block and the time stamp that are coming,
        if they are: they are consumed exactly, whatever the chunking, and deliver the samples of the timeline. */
    method ProcessSerialData(receiveTs: nat, ghost recs: seq<Record>, ghost tail: nat, ghost tm: nat, ghost end: nat)
      returns (r: Result<(), Unplugged>)
      requires link.serial.Valid()
      modifies this`delivered, link`stopIn, link.serial
      modifies link.unpacker`imuData, link.unpacker`imuSamples
      modifies link.unpacker`latestImuSampleTs, link.unpacker`clockOffset
      ensures link.serial.Valid() && link.stopIn <= old(link.stopIn)
      ensures r.Err? ==> delivered == old(delivered)
      ensures link.ImuComing(old(link.serial.pos), recs, tail) && link.TimeComing(tail, tm, end) && link.stopIn > 0 ==>
        && r.Ok? && link.serial.pos == end && link.unpacker.clockOffset == ClockOffset(receiveTs, tm)
        && link.unpacker.latestImuSampleTs ==
             TimeAfter(old(link.unpacker.latestImuSampleTs), FrameEntries(FrameTs(mode, tm), recs))
        && delivered == old(delivered) + ImuDeliveries(mode, recs, receiveTs, tm, old(link.unpacker.latestImuSampleTs))
      ensures link.ImuComing(old(link.serial.pos), recs, tail) && link.TimeComing(tail, tm, end) ==>
        || delivered == old(delivered)
        || delivered == old(delivered) + ImuDeliveries(mode, recs, receiveTs, tm, old(link.unpacker.latestImuSampleTs))
      ensures NoImuLeft(old(link.serial.pos)) ==> delivered == old(delivered) && (link.stopIn > 0 ==> r.Err?)
    {
      hide Link.TimeComing, Link.ImuComing, FrameEntries, Samples, TimeAfter, Contains;
      var running := link.LoadRunning();
      if !running { return Ok(()); }
      var imu := link.ReadImu(recs, tail);
      if imu.Err? { return Err(Unplugged); }
      var endTm := link.ReadTimestamp(tm, end);
      if endTm.Err? { return Err(Unplugged); }
      link.unpacker.clockOffset := ClockOffset(receiveTs, endTm.value);
      link.unpacker.UnpackImuData(FrameTs(mode, endTm.value));
      running := link.LoadRunning();
      if running && link.unpacker.imuSamples != [] {
        delivered := delivered + [link.unpacker.imuSamples];
      }
      r := Ok(());
    }

    /** No line can say `BEGIN IMU` any more. */
    ghost predicate NoImuLeft(p: nat) { p <= |link.serial.bytes| && !Contains(link.serial.bytes[p..], BEGIN_IMU) }

    /** From `p` on the blocks come one after the other, at the given places, and then nothing. Before a block there may
        be other lines, as the rest of a block that the skip loop has cut. */
    ghost predicate BlocksComing(p: nat, blocks: seq<Block>, places: seq<Place>)
      decreases |blocks|
    {
      if blocks == [] then places == [] && NoImuLeft(p)
      else
        && places != [] && link.ImuComing(p, blocks[0].recs, places[0].tail)
        && link.TimeComing(places[0].tail, blocks[0].endTm, places[0].end)
        && BlocksComing(places[0].end, blocks[1..], places[1..])
    }

    /** The main loop of run() since start(): what is delivered are the samples of the run, in order; a prefix of them
        when the device is stopped. */
    method StreamBlocks(receiveTimes: nat -> nat, ghost blocks: seq<Block>, ghost places: seq<Place>)
      returns (r: Result<(), Unplugged>)
      requires link.serial.Valid() && delivered == [] && link.unpacker.latestImuSampleTs == 0
      modifies this`delivered, link`stopIn, link.serial
      modifies link.unpacker`imuData, link.unpacker`imuSamples
      modifies link.unpacker`latestImuSampleTs, link.unpacker`clockOffset
      ensures link.serial.Valid()
      ensures BlocksComing(old(link.serial.pos), blocks, places) ==>
        Flat(delivered) <= RunSamples(FramesOf(mode, blocks), OffsetsOf(blocks, receiveTimes))
      ensures BlocksComing(old(link.serial.pos), blocks, places) && link.stopIn > 0 ==>
        r.Err? && Flat(delivered) == RunSamples(FramesOf(mode, blocks), OffsetsOf(blocks, receiveTimes))
    {
      hide BlocksComing, RunSamples, RunTime, FrameTs, ImuDeliveries, TimeAfter, FrameEntries, NoImuLeft, Flat;
      ghost var frames, offsets := FramesOf(mode, blocks), OffsetsOf(blocks, receiveTimes);
      ghost var coming := BlocksComing(link.serial.pos, blocks, places);
      if coming { BlocksHavePlaces(link.serial.pos, blocks, places); }
      NothingRun(frames, offsets);
      assert blocks[0..] == blocks && places[0..] == places;
      var k: nat := 0;
      while true
        invariant link.serial.Valid()
        invariant coming ==> |blocks| == |places| && Flat(delivered) <= RunSamples(frames, offsets)
        invariant coming && link.stopIn > 0 ==> k <= |blocks| && BlocksComing(link.serial.pos, blocks[k..], places[k..])
        invariant coming && link.stopIn > 0 ==> Flat(delivered) == RunSamples(frames[..k], offsets[..k])
        invariant coming && link.stopIn > 0 ==> link.unpacker.latestImuSampleTs == RunTime(frames[..k])
        decreases link.stopIn
      {
        var running := link.LoadRunning();
        if !running { return Ok(()); }
        ghost var p, before, latest := link.serial.pos, delivered, link.unpacker.latestImuSampleTs;
        ghost var b := if k < |blocks| then blocks[k] else Block([], 0);
        ghost var at := if k < |places| then places[k] else Place(0, 0);
        if coming { NextBlock(p, blocks, places, k); }
        r := ProcessSerialData(receiveTimes(k), b.recs, at.tail, b.endTm, at.end);
        if coming && k < |blocks| { BlockTurn(blocks, receiveTimes, frames, offsets, k, before, latest, delivered); }
        if coming && k == |blocks| { assert frames[..k] == frames && offsets[..k] == offsets; }
        if r.Err? { return r; }
        k := k + 1;
      }
    }

    lemma {:induction false} BlocksHavePlaces(p: nat, blocks: seq<Block>, places: seq<Place>)
      requires BlocksComing(p, blocks, places)
      ensures |blocks| == |places|
      decreases |blocks|
    {
      hide Link.ImuComing, Link.TimeComing, NoImuLeft;
      if blocks != [] { BlocksHavePlaces(places[0].end, blocks[1..], places[1..]); }
    }

    lemma NextBlock(p: nat, blocks: seq<Block>, places: seq<Place>, k: nat)
      requires k <= |blocks| == |places| && BlocksComing(p, blocks[k..], places[k..])
      ensures k == |blocks| ==> NoImuLeft(p)
      ensures k < |blocks| ==> link.ImuComing(p, blocks[k].recs, places[k].tail)
      ensures k < |blocks| ==> link.TimeComing(places[k].tail, blocks[k].endTm, places[k].end)
      ensures k < |blocks| ==> BlocksComing(places[k].end, blocks[k + 1..], places[k + 1..])
    {
      hide Link.ImuComing, Link.TimeComing, NoImuLeft;
      if k < |blocks| { assert blocks[k..][1..] == blocks[k + 1..] && places[k..][1..] == places[k + 1..]; }
    }

    /** One more block in terms of the run. */
    lemma BlockTurn(blocks: seq<Block>, receiveTimes: nat -> nat, frames: seq<Frame>, offsets: seq<nat>, k: nat,
                    before: seq<seq<Sample>>, latest: int, after: seq<seq<Sample>>)
      requires k < |blocks| && frames == FramesOf(mode, blocks) && offsets == OffsetsOf(blocks, receiveTimes)
      requires Flat(before) == RunSamples(frames[..k], offsets[..k]) && latest == RunTime(frames[..k])
      ensures RunTime(frames[..k + 1])
           == TimeAfter(latest, FrameEntries(FrameTs(mode, blocks[k].endTm), blocks[k].recs))
      ensures after == before + ImuDeliveries(mode, blocks[k].recs, receiveTimes(k), blocks[k].endTm, latest) ==>
        Flat(after) == RunSamples(frames[..k + 1], offsets[..k + 1])
      ensures after == before
        || after == before + ImuDeliveries(mode, blocks[k].recs, receiveTimes(k), blocks[k].endTm, latest)
        ==> Flat(after) <= RunSamples(frames, offsets)
    {
      hide Samples, TimeAfter, FrameEntries, FrameTs, RunTime, ClockOffset;
      RunTurn(frames, offsets, k);
      var samples := Samples(latest, FrameEntries(frames[k].ts, frames[k].recs), offsets[k]);
      FlatPush(before, samples);
      RunPrefix(frames, offsets, k);
      RunPrefix(frames, offsets, k + 1);
    }
  }

  /** An IMU block and the time stamp behind it, as the device sends them once per frame. */
  datatype Block = Block(recs: seq<Record>, endTm: nat)

  /** Where the records of a block end, and where its time stamp does. */
  datatype Place = Place(tail: nat, end: nat)

  /** The blocks as frames of the IMU timeline. */
  function FramesOf(mode: Mode, blocks: seq<Block>): (r: seq<Frame>)
    ensures |r| == |blocks|
  {
    seq(|blocks|, i requires 0 <= i < |blocks| => Frame(FrameTs(mode, blocks[i].endTm), blocks[i].recs))
  }

  function OffsetsOf(blocks: seq<Block>, receiveTimes: nat -> nat): (r: seq<nat>)
    ensures |r| == |blocks|
  {
    seq<nat>(|blocks|, i requires 0 <= i < |blocks| => ClockOffset(receiveTimes(i), blocks[i].endTm))
  }

  lemma NothingRun(frames: seq<Frame>, offsets: seq<nat>)
    requires |frames| == |offsets|
    ensures RunSamples(frames[..0], offsets[..0]) == [] && RunTime(frames[..0]) == 0 && Flat<Sample>([]) == []
  {
  }

  lemma FlatPush(parts: seq<seq<Sample>>, part: seq<Sample>)
    ensures Flat(parts + [part]) == Flat(parts) + part
    ensures Flat(parts + []) == Flat(parts)
  {
    assert parts + [] == parts && (parts + [part])[..|parts|] == parts;
  }
}
