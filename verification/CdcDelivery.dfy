/** What the callbacks of the CDC device receive, frame by frame and over a run. */
module CdcDelivery {
  import opened Words
  import opened Modes
  import opened ImuTimeline
  import opened DeviceLink
  import opened CdcDecoder
  import opened DeviceClock
  import opened CdcEncoding

  /** What the callbacks receive. */
  datatype Delivery = CloudDelivery(stamp: nat, points: seq<Point>) | ImuDelivery(samples: seq<Sample>)

  predicate Fitting(mode: Mode, f: CdcFrame) { Sendable(f) && |f.payload| == PointCount(mode) * SLOT_BYTES }

  /** What a full receive buffer and a list of records make the device deliver. */
  function Deliveries(mode: Mode, buf: seq<byte>, recs: seq<Record>, frameTs: nat, offset: nat, latest: int)
    : seq<Delivery>
    requires |buf| == PointCount(mode) * SLOT_BYTES
  {
    var samples := Samples(latest, FrameEntries(frameTs, recs), offset);
    [CloudDelivery(Wrap64(frameTs + offset), CloudOf(mode, buf))] + if samples == [] then [] else [ImuDelivery(samples)]
  }

  /** What a frame, received at `receiveTs` with the IMU timeline at `latest`, makes the device deliver. */
  function FrameDeliveries(mode: Mode, f: CdcFrame, receiveTs: nat, latest: int): seq<Delivery>
    requires Fitting(mode, f)
  {
    Deliveries(mode, f.payload, f.recs, DeviceNs(f.startTm), ClockOffset(receiveTs, f.endTm), latest)
  }

  function LatestAfter(f: CdcFrame, latest: int): int {
    TimeAfter(latest, FrameEntries(DeviceNs(f.startTm), f.recs))
  }

  predicate AllFit(mode: Mode, frames: seq<CdcFrame>) { forall i :: 0 <= i < |frames| ==> Fitting(mode, frames[i]) }

  /** Every time stamp, point and IMU sample of the frames, in order. */
  function Expected(mode: Mode, frames: seq<CdcFrame>, receiveTimes: nat -> nat, k: nat, latest: int): seq<Delivery>
    requires AllFit(mode, frames)
    decreases |frames|
  {
    if frames == [] then [] else
    FrameDeliveries(mode, frames[0], receiveTimes(k), latest) +
    Expected(mode, frames[1..], receiveTimes, k + 1, LatestAfter(frames[0], latest))
  }

  // ---- what that is, apart from how it is put together ----

  /** All samples that the IMU callback received, one call after the other. */
  function SamplesIn(ds: seq<Delivery>): seq<Sample> {
    if ds == [] then [] else (if ds[0].ImuDelivery? then ds[0].samples else []) + SamplesIn(ds[1..])
  }

  /** All calls of the point cloud callback. */
  function CloudsIn(ds: seq<Delivery>): seq<Delivery> {
    if ds == [] then [] else (if ds[0].CloudDelivery? then [ds[0]] else []) + CloudsIn(ds[1..])
  }

  lemma {:induction false} BothConcat(a: seq<Delivery>, b: seq<Delivery>)
    ensures SamplesIn(a + b) == SamplesIn(a) + SamplesIn(b) && CloudsIn(a + b) == CloudsIn(a) + CloudsIn(b)
  {
    hide SamplesIn, CloudsIn;
    if a == [] {
      NoCalls();
      assert a + b == b;
    } else {
      var d, rest := a[0], a[1..];
      BothConcat(rest, b);
      First(d, rest + b);
      First(d, rest);
      assert a + b == [d] + (rest + b);
      assert a == [d] + rest;
    }
  }

  lemma NoCalls()
    ensures SamplesIn([]) == [] && CloudsIn([]) == []
  {
  }

  lemma First(d: Delivery, rest: seq<Delivery>)
    ensures SamplesIn([d] + rest) == (if d.ImuDelivery? then d.samples else []) + SamplesIn(rest)
    ensures CloudsIn([d] + rest) == (if d.CloudDelivery? then [d] else []) + CloudsIn(rest)
  {
    assert ([d] + rest)[1..] == rest;
  }

  lemma Alone(d: Delivery)
    ensures SamplesIn([d]) == if d.ImuDelivery? then d.samples else []
    ensures CloudsIn([d]) == if d.CloudDelivery? then [d] else []
  {
    assert [d][1..] == [];
  }

  lemma BothPrefix(a: seq<Delivery>, all: seq<Delivery>)
    requires a <= all
    ensures SamplesIn(a) <= SamplesIn(all) && CloudsIn(a) <= CloudsIn(all)
  {
    assert all == a + all[|a|..];
    BothConcat(a, all[|a|..]);
  }

  /** The calls since `before` are those of the frames, all of them or the first of them: the clouds one per frame, in
      order, and the samples those of the IMU timeline. */
  ghost predicate Since(mode: Mode, frames: seq<CdcFrame>, receiveTimes: nat -> nat, before: seq<Delivery>,
                        now: seq<Delivery>, complete: bool)
    requires AllFit(mode, frames)
  {
    && before <= now
    && CloudsIn(now[|before|..]) <= RunClouds(mode, frames, receiveTimes)
    && SamplesIn(now[|before|..]) <= RunSamples(TimelineOf(frames), OffsetsOf(frames, receiveTimes))
    && (complete ==> CloudsIn(now[|before|..]) == RunClouds(mode, frames, receiveTimes))
    && (complete ==> SamplesIn(now[|before|..]) == RunSamples(TimelineOf(frames), OffsetsOf(frames, receiveTimes)))
  }

  lemma ExpectedIsSince(mode: Mode, frames: seq<CdcFrame>, receiveTimes: nat -> nat, before: seq<Delivery>,
                        now: seq<Delivery>, complete: bool)
    requires AllFit(mode, frames)
    requires before <= now <= before + Expected(mode, frames, receiveTimes, 0, 0)
    requires complete ==> now == before + Expected(mode, frames, receiveTimes, 0, 0)
    ensures Since(mode, frames, receiveTimes, before, now, complete)
  {
    hide Fitting, Expected, RunClouds, RunSamples, TimelineOf, OffsetsOf, SamplesIn, CloudsIn;
    var all := Expected(mode, frames, receiveTimes, 0, 0);
    RunDelivers(mode, frames, receiveTimes, |frames|);
    assert frames[..|frames|] == frames;
    var times, offsets := TimelineOf(frames), OffsetsOf(frames, receiveTimes);
    var clouds := RunClouds(mode, frames, receiveTimes);
    assert times[..|frames|] == times && offsets[..|frames|] == offsets && clouds[..|frames|] == clouds;
    assert now[|before|..] <= all by { assert (before + all)[|before|..] == all; }
    BothPrefix(now[|before|..], all);
  }

  /** A frame gives its cloud first, and then all its samples in one call, if it gives any. */
  lemma FrameDelivers(mode: Mode, f: CdcFrame, receiveTs: nat, latest: int, all: seq<Delivery>, samples: seq<Sample>)
    requires Fitting(mode, f) && all == FrameDeliveries(mode, f, receiveTs, latest)
    requires samples == Samples(latest, FrameEntries(DeviceNs(f.startTm), f.recs), ClockOffset(receiveTs, f.endTm))
    ensures all != [] && all[0] == CloudOfFrame(mode, f, receiveTs)
    ensures |all| == (if samples == [] then 1 else 2) && (samples != [] ==> all[1] == ImuDelivery(samples))
    ensures SamplesIn(all) == samples && CloudsIn(all) == [CloudOfFrame(mode, f, receiveTs)]
  {
    hide Samples, FrameEntries, CloudOf, PointCount, ClockOffset;
    var cloud := CloudOfFrame(mode, f, receiveTs);
    Alone(cloud);
    if samples != [] {
      assert all == [cloud] + [ImuDelivery(samples)];
      Alone(ImuDelivery(samples));
      BothConcat([cloud], [ImuDelivery(samples)]);
    }
  }

  /** The cloud of a frame, with the stamp of its start on the host clock. */
  function CloudOfFrame(mode: Mode, f: CdcFrame, receiveTs: nat): Delivery
    requires Fitting(mode, f)
  {
    CloudDelivery(Wrap64(DeviceNs(f.startTm) + ClockOffset(receiveTs, f.endTm)), CloudOf(mode, f.payload))
  }

  function RunClouds(mode: Mode, frames: seq<CdcFrame>, receiveTimes: nat -> nat): (r: seq<Delivery>)
    requires AllFit(mode, frames)
    ensures |r| == |frames|
  {
    seq(|frames|, i requires 0 <= i < |frames| => CloudOfFrame(mode, frames[i], receiveTimes(i)))
  }

  /** The frames as the IMU timeline sees them. */
  function TimelineOf(frames: seq<CdcFrame>): (r: seq<Frame>)
    ensures |r| == |frames|
  {
    seq(|frames|, i requires 0 <= i < |frames| => Frame(DeviceNs(frames[i].startTm), frames[i].recs))
  }

  function OffsetsOf(frames: seq<CdcFrame>, receiveTimes: nat -> nat): (r: seq<nat>)
    ensures |r| == |frames|
  {
    seq<nat>(|frames|, i requires 0 <= i < |frames| => ClockOffset(receiveTimes(i), frames[i].endTm))
  }

  function LatestAfterAll(frames: seq<CdcFrame>, latest: int): int {
    if frames == [] then latest else LatestAfterAll(frames[1..], LatestAfter(frames[0], latest))
  }

  /** One more frame at the end. */
  lemma {:induction false} ExpectedGrows(mode: Mode, frames: seq<CdcFrame>, receiveTimes: nat -> nat, k: nat,
                                         latest: int, n: nat)
    requires AllFit(mode, frames) && n < |frames|
    ensures LatestAfterAll(frames[..n + 1], latest) == LatestAfter(frames[n], LatestAfterAll(frames[..n], latest))
    ensures Expected(mode, frames[..n + 1], receiveTimes, k, latest)
         == Expected(mode, frames[..n], receiveTimes, k, latest)
            + FrameDeliveries(mode, frames[n], receiveTimes(k + n), LatestAfterAll(frames[..n], latest))
    decreases |frames|
  {
    hide FrameDeliveries, LatestAfter, Fitting;
    if n == 0 {
      assert frames[..1][1..] == [] && frames[..0] == [];
    } else {
      assert frames[..n + 1][1..] == frames[1..][..n] && frames[..n][1..] == frames[1..][..n - 1];
      ExpectedGrows(mode, frames[1..], receiveTimes, k + 1, LatestAfter(frames[0], latest), n - 1);
    }
  }

  /** Over a run of the first `n` frames since start(): the samples are those of the IMU timeline, the clouds are one
      per frame, in order. */
  lemma {:induction false} RunDelivers(mode: Mode, frames: seq<CdcFrame>, receiveTimes: nat -> nat, n: nat)
    requires AllFit(mode, frames) && n <= |frames|
    ensures SamplesIn(Expected(mode, frames[..n], receiveTimes, 0, 0))
         == RunSamples(TimelineOf(frames)[..n], OffsetsOf(frames, receiveTimes)[..n])
    ensures CloudsIn(Expected(mode, frames[..n], receiveTimes, 0, 0)) == RunClouds(mode, frames, receiveTimes)[..n]
    ensures LatestAfterAll(frames[..n], 0) == RunTime(TimelineOf(frames)[..n])
  {
    hide Fitting, Samples, FrameEntries, TimeAfter, CloudOfFrame, ClockOffset, FrameDeliveries, Expected;
    hide SamplesIn, CloudsIn, RunSamples, RunTime, TimelineOf, OffsetsOf, RunClouds, LatestAfterAll, LatestAfter;
    var times, offsets := TimelineOf(frames), OffsetsOf(frames, receiveTimes);
    var clouds := RunClouds(mode, frames, receiveTimes);
    if n == 0 {
      NothingRunYet(mode, receiveTimes, times, offsets);
      assert frames[..0] == [] && clouds[..0] == [];
    } else {
      RunDelivers(mode, frames, receiveTimes, n - 1);
      ExpectedGrows(mode, frames, receiveTimes, 0, 0, n - 1);
      RunTurn(times, offsets, n - 1);
      FrameAt(mode, frames, receiveTimes, n - 1, LatestAfterAll(frames[..n - 1], 0));
      BothConcat(Expected(mode, frames[..n - 1], receiveTimes, 0, 0),
                 FrameDeliveries(mode, frames[n - 1], receiveTimes(n - 1), LatestAfterAll(frames[..n - 1], 0)));
      assert clouds[..n] == clouds[..n - 1] + [clouds[n - 1]];
    }
  }

  /** Frame `i` in terms of the run. */
  lemma FrameAt(mode: Mode, frames: seq<CdcFrame>, receiveTimes: nat -> nat, i: nat, latest: int)
    requires AllFit(mode, frames) && i < |frames|
    ensures var t, now := TimelineOf(frames)[i], FrameDeliveries(mode, frames[i], receiveTimes(i), latest);
      && LatestAfter(frames[i], latest) == TimeAfter(latest, FrameEntries(t.ts, t.recs))
      && SamplesIn(now) == Samples(latest, FrameEntries(t.ts, t.recs), OffsetsOf(frames, receiveTimes)[i])
      && CloudsIn(now) == [RunClouds(mode, frames, receiveTimes)[i]]
  {
    hide Fitting, Samples, FrameEntries, TimeAfter, CloudOfFrame, ClockOffset, FrameDeliveries, SamplesIn, CloudsIn;
    var f := frames[i];
    FrameDelivers(mode, f, receiveTimes(i), latest, FrameDeliveries(mode, f, receiveTimes(i), latest),
                  Samples(latest, FrameEntries(DeviceNs(f.startTm), f.recs), ClockOffset(receiveTimes(i), f.endTm)));
  }

  lemma NothingRunYet(mode: Mode, receiveTimes: nat -> nat, times: seq<Frame>, offsets: seq<nat>)
    requires |times| == |offsets|
    ensures Expected(mode, [], receiveTimes, 0, 0) == [] && SamplesIn([]) == [] && CloudsIn([]) == []
    ensures RunSamples(times[..0], offsets[..0]) == [] && RunTime(times[..0]) == 0 && LatestAfterAll([], 0) == 0
  {
  }

  lemma {:induction false} ExpectedPrefix(mode: Mode, frames: seq<CdcFrame>, receiveTimes: nat -> nat, i: nat)
    requires AllFit(mode, frames) && i <= |frames|
    ensures Expected(mode, frames[..i], receiveTimes, 0, 0) <= Expected(mode, frames, receiveTimes, 0, 0)
    decreases |frames| - i
  {
    hide Fitting, Expected, FrameDeliveries;
    if i == |frames| {
      assert frames[..i] == frames;
    } else {
      ExpectedGrows(mode, frames, receiveTimes, 0, 0, i);
      ExpectedPrefix(mode, frames, receiveTimes, i + 1);
    }
  }

  /** The deliveries of the first `i` frames, of the next one, and the rest. */
  lemma AroundFrame(mode: Mode, frames: seq<CdcFrame>, receiveTimes: nat -> nat, i: nat, before: seq<Delivery>,
                    now: seq<Delivery>, all: seq<Delivery>)
    requires AllFit(mode, frames) && i < |frames| && all == Expected(mode, frames, receiveTimes, 0, 0)
    requires before == Expected(mode, frames[..i], receiveTimes, 0, 0)
    requires now == FrameDeliveries(mode, frames[i], receiveTimes(i), RunTime(TimelineOf(frames)[..i]))
    ensures before + now <= all
    ensures i + 1 == |frames| ==> before + now == all
    ensures i + 1 < |frames| ==> |before + now| < |all| && all[|before + now|].CloudDelivery?
  {
    hide Fitting, Expected, FrameDeliveries, LatestAfterAll, RunTime, SamplesIn, CloudsIn, RunSamples, RunClouds;
    RunDelivers(mode, frames, receiveTimes, i);
    ExpectedGrows(mode, frames, receiveTimes, 0, 0, i);
    ExpectedPrefix(mode, frames, receiveTimes, i + 1);
    if i + 1 == |frames| {
      assert frames[..i + 1] == frames;
    } else {
      ExpectedGrows(mode, frames, receiveTimes, 0, 0, i + 1);
      ExpectedPrefix(mode, frames, receiveTimes, i + 2);
      CloudFirst(mode, frames[i + 1], receiveTimes(i + 1), LatestAfterAll(frames[..i + 1], 0));
    }
  }

  lemma CloudFirst(mode: Mode, f: CdcFrame, receiveTs: nat, latest: int)
    requires Fitting(mode, f)
    ensures FrameDeliveries(mode, f, receiveTs, latest) != []
    ensures FrameDeliveries(mode, f, receiveTs, latest)[0].CloudDelivery?
  {
  }

  /** Where the deliveries of frame `i` stand in a run since start(): its cloud behind those of the frames before it,
      and right behind the cloud its samples, exactly when it gives samples. */
  lemma FrameInRun(mode: Mode, frames: seq<CdcFrame>, receiveTimes: nat -> nat, i: nat, at: nat, all: seq<Delivery>,
                   samples: seq<Sample>)
    requires AllFit(mode, frames) && i < |frames| && all == Expected(mode, frames, receiveTimes, 0, 0)
    requires at == |Expected(mode, frames[..i], receiveTimes, 0, 0)|
    requires samples == Samples(RunTime(TimelineOf(frames)[..i]),
                                FrameEntries(DeviceNs(frames[i].startTm), frames[i].recs),
                                ClockOffset(receiveTimes(i), frames[i].endTm))
    ensures at < |all| && all[at] == CloudOfFrame(mode, frames[i], receiveTimes(i))
    ensures samples != [] <==> at + 1 < |all| && all[at + 1].ImuDelivery?
    ensures samples != [] ==> all[at + 1] == ImuDelivery(samples)
  {
    hide Fitting, Expected, FrameDeliveries, RunTime, Samples, FrameEntries, CloudOfFrame, ClockOffset;
    var before, latest := Expected(mode, frames[..i], receiveTimes, 0, 0), RunTime(TimelineOf(frames)[..i]);
    var now := FrameDeliveries(mode, frames[i], receiveTimes(i), latest);
    AroundFrame(mode, frames, receiveTimes, i, before, now, all);
    FrameDelivers(mode, frames[i], receiveTimes(i), latest, now, samples);
    assert all[at] == (before + now)[at];
    if samples != [] { assert all[at + 1] == (before + now)[at + 1]; }
  }

  /** A frame whose one record is a reset: its cloud and one sample, both 30 milliseconds before it was received. */
  lemma FirstSample(mode: Mode, payload: seq<byte>, f: CdcFrame, receiveTimes: nat -> nat, rec: Record)
    requires |payload| == PointCount(mode) * SLOT_BYTES && receiveTimes(0) == 2_000_000_000
    requires rec == [0x6C, 0, 0, 0, 0, 0, 0, 0, 0, 0, 0, 0, 0, 0, 0, 0] && f == CdcFrame(1000, payload, [rec], 1030)
    ensures AllFit(mode, [f])
    ensures Expected(mode, [f], receiveTimes, 0, 0)
         == [CloudDelivery(1_970_000_000, CloudOf(mode, payload)),
             ImuDelivery([Sample(1_970_000_000, (0, 0, 0), (0, 0, 0), 0)])]
  {
    hide CloudOf, Samples, FrameEntries, PointCount;
    assert rec[..3][0] == 0x6C && END[0] == 69;
    var entries := FrameEntries(1_000_000_000, [rec]);
    OneReset(rec, entries);
    FrameDelivers(mode, f, 2_000_000_000, 0, FrameDeliveries(mode, f, 2_000_000_000, 0),
                  Samples(0, entries, ClockOffset(2_000_000_000, 1030)));
    assert [f][1..] == [];
  }

  lemma OneReset(rec: Record, entries: seq<Entry>)
    requires rec == [0x6C, 0, 0, 0, 0, 0, 0, 0, 0, 0, 0, 0, 0, 0, 0, 0]
    requires entries == FrameEntries(1_000_000_000, [rec])
    ensures Samples(0, entries, ClockOffset(2_000_000_000, 1030)) == [Sample(1_970_000_000, (0, 0, 0), (0, 0, 0), 0)]
  {
    assert [rec][1..] == [];
    assert Kept([rec], false) == [rec];
    assert entries == [Entry(1_000_000_000, rec)];
    assert entries[..0] == [] && entries[..1] == entries;
    EntriesTurn(0, entries, 0, ClockOffset(2_000_000_000, 1030));
    NoEntries(0, ClockOffset(2_000_000_000, 1030));
  }

  /** The frames as run() receives them when it skips the first `n`. */
  function Heard(frames: seq<CdcFrame>, n: nat): seq<CdcFrame> {
    if n == 0 then frames
    else if |frames| <= n then []
    else [frames[n].(startTm := frames[n - 1].endTm)] + frames[n + 1..]
  }

  /** The first cloud that a run delivers is stamped as its own start time says exactly when the frame skipped before it
      ended at that time, on the 64-bit device clock. */
  lemma FirstStampExactlyWhen(mode: Mode, f: CdcFrame, g: CdcFrame, receiveTs: nat, latest: int)
    requires Fitting(mode, f) && Fitting(mode, g)
    ensures FrameDeliveries(mode, g.(startTm := f.endTm), receiveTs, latest)[0]
         == FrameDeliveries(mode, g, receiveTs, latest)[0]
       <==> DeviceNs(f.endTm) == DeviceNs(g.startTm)
    ensures f.endTm < 0x1000_0000_0000 && g.startTm < 0x1000_0000_0000 ==>
      (DeviceNs(f.endTm) == DeviceNs(g.startTm) <==> f.endTm == g.startTm)
  {
    hide Samples, FrameEntries, CloudOf, PointCount, ClockOffset;
    SumsDiffer(DeviceNs(f.endTm), DeviceNs(g.startTm), ClockOffset(receiveTs, g.endTm));
  }

  lemma SumsDiffer(a: nat, b: nat, offset: nat)
    requires a < TWO_64 && b < TWO_64
    ensures Wrap64(a + offset) == Wrap64(b + offset) <==> a == b
  {
  }

  /** A device that needs 3 milliseconds from the end of a frame to the start of the next: the first cloud of a run that
      skips one frame is stamped 3 milliseconds too early. */
  lemma FirstStampIsEarly(mode: Mode, payload: seq<byte>, f: CdcFrame, g: CdcFrame, receiveTs: nat)
    requires |payload| == PointCount(mode) * SLOT_BYTES && receiveTs == 2_000_000_000
    requires f == CdcFrame(1000, payload, [], 1030) && g == CdcFrame(1033, payload, [], 1063)
    ensures Fitting(mode, f) && Fitting(mode, g) && Heard([f, g], 1) == [g.(startTm := 1030)]
    ensures FrameDeliveries(mode, g, receiveTs, 0)[0] == CloudDelivery(1_970_000_000, CloudOf(mode, payload))
    ensures FrameDeliveries(mode, g.(startTm := 1030), receiveTs, 0)[0]
         == CloudDelivery(1_967_000_000, CloudOf(mode, payload))
  {
    hide CloudOf, Samples, FrameEntries;
    assert [f, g][2..] == [];
  }
}
