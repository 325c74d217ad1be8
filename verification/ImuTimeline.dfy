/** unpack_imu_data: the IMU records of a frame and the timeline that is kept across frames. */
module ImuTimeline {
  import opened Words

  type Record = s: seq<byte> | |s| == 16 witness [0, 0, 0, 0, 0, 0, 0, 0, 0, 0, 0, 0, 0, 0, 0, 0]

  const RESET_HEAD := 0x6C
  const SAMPLE_PERIOD_NS := 10_000_000

  /** Raw sensor words: acceleration and rotation rate as published (y, x, z), before scaling. */
  datatype Sample = Sample(timestamp: nat, accel: (int, int, int), gyro: (int, int, int), temp: nat)

  predicate IsReset(rec: Record) { rec[0] == RESET_HEAD }

  /** A big-endian word. */
  function Word(rec: Record, at: nat): (r: nat)
    requires at + 1 < 16
    ensures r < TWO_16
  {
    256 * rec[at] as int + rec[at + 1] as int
  }

  function SignedWord(rec: Record, at: nat): int
    requires at + 1 < 16
  {
    Signed(Word(rec, at), 0x8000)
  }

  function SampleOf(rec: Record, timestamp: nat): Sample {
    Sample(timestamp,
           (SignedWord(rec, 3), SignedWord(rec, 1), SignedWord(rec, 5)),
           (SignedWord(rec, 9), SignedWord(rec, 7), SignedWord(rec, 11)),
           rec[13])
  }

  /** A signed word as the sensor sends it, most significant byte first. */
  function WordBytes(v: int): (s: seq<byte>)
    requires -0x8000 <= v < 0x8000
    ensures |s| == 2 && Signed(256 * s[0] as int + s[1] as int, 0x8000) == v
  {
    var u := if v < 0 then v + 0x1_0000 else v;
    [u / 256, u % 256]
  }

  predicate IsWord(v: (int, int, int)) {
    -0x8000 <= v.0 < 0x8000 && -0x8000 <= v.1 < 0x8000 && -0x8000 <= v.2 < 0x8000
  }

  /** The record of a sensor reading (x, y, z), `time` microseconds into the frame. */
  function RecordOf(head: byte, accel: (int, int, int), gyro: (int, int, int), temp: byte, time: nat): Record
    requires IsWord(accel) && IsWord(gyro) && time < TWO_16
  {
    [head] + WordBytes(accel.0) + WordBytes(accel.1) + WordBytes(accel.2)
    + WordBytes(gyro.0) + WordBytes(gyro.1) + WordBytes(gyro.2) + [temp, time / 256, time % 256]
  }

  /** Every reading comes back, with the x and y axes exchanged. */
  lemma RecordRoundTrip(head: byte, accel: (int, int, int), gyro: (int, int, int), temp: byte, time: nat, t: nat,
                        rec: Record)
    requires IsWord(accel) && IsWord(gyro) && time < TWO_16 && rec == RecordOf(head, accel, gyro, temp, time)
    ensures IsReset(rec) <==> head == RESET_HEAD
    ensures Word(rec, 14) == time
    ensures SampleOf(rec, t) == Sample(t, (accel.1, accel.0, accel.2), (gyro.1, gyro.0, gyro.2), temp)
  {
  }

  // ---- the device time of a record ----

  /** A record together with the time stamp of its frame. */
  datatype Entry = Entry(frameTs: nat, rec: Record)

  /** A reset sets the device time, from an unsigned sum stored into an int64. */
  function ResetTime(e: Entry): int {
    Signed(Wrap64(e.frameTs + Word(e.rec, 14) * 1000), TWO_63)
  }

  function Advance(latest: int, e: Entry): int {
    if IsReset(e.rec) then ResetTime(e)
    else if latest > 0 then latest + SAMPLE_PERIOD_NS
    else latest
  }

  /** The device time after all entries. */
  function TimeAfter(latest: int, entries: seq<Entry>): int {
    if entries == [] then latest
    else Advance(TimeAfter(latest, entries[..|entries| - 1]), entries[|entries| - 1])
  }

  /** A reset record that says `time` microseconds, in a frame that began at `frameTs`, sets the device time to that
      moment, whatever it was before. */
  lemma ResetSetsTime(latest: int, frameTs: nat, accel: (int, int, int), gyro: (int, int, int), temp: byte, time: nat,
                      rec: Record)
    requires IsWord(accel) && IsWord(gyro) && time < TWO_16 && rec == RecordOf(0x6C, accel, gyro, temp, time)
    ensures frameTs + 1000 * time < TWO_63 ==> TimeAfter(latest, [Entry(frameTs, rec)]) == frameTs + 1000 * time
  {
    hide SignedWord;
    RecordRoundTrip(0x6C, accel, gyro, temp, time, 0, rec);
    assert [Entry(frameTs, rec)][..0] == [];
  }

  /** Any other record moves it on by ten milliseconds, once it is set. */
  lemma RecordAdvances(latest: int, frameTs: nat, head: byte, accel: (int, int, int), gyro: (int, int, int), temp: byte,
                       time: nat, rec: Record)
    requires IsWord(accel) && IsWord(gyro) && time < TWO_16 && rec == RecordOf(head, accel, gyro, temp, time)
    requires head != 0x6C
    ensures TimeAfter(latest, [Entry(frameTs, rec)]) == if latest > 0 then latest + 10_000_000 else latest
  {
    hide SignedWord;
    RecordRoundTrip(head, accel, gyro, temp, time, 0, rec);
    assert [Entry(frameTs, rec)][..0] == [];
  }

  // ---- one frame ----

  /** The records that are honoured: everything before a second reset. */
  function Kept(recs: seq<Record>, gotReset: bool): seq<Record> {
    if recs == [] || (IsReset(recs[0]) && gotReset) then []
    else [recs[0]] + Kept(recs[1..], gotReset || IsReset(recs[0]))
  }

  function Tagged(frameTs: nat, recs: seq<Record>): (r: seq<Entry>)
    ensures |r| == |recs|
  {
    seq(|recs|, i requires 0 <= i < |recs| => Entry(frameTs, recs[i]))
  }

  function FrameEntries(frameTs: nat, recs: seq<Record>): seq<Entry> { Tagged(frameTs, Kept(recs, false)) }

  /** The samples that entries give, starting from device time `latest`: one for every entry with a positive time. */
  function Samples(latest: int, entries: seq<Entry>, clockOffset: nat): seq<Sample> {
    if entries == [] then []
    else
      var init, last := entries[..|entries| - 1], entries[|entries| - 1];
      var t := TimeAfter(latest, entries);
      Samples(latest, init, clockOffset) + if t > 0 then [SampleOf(last.rec, Wrap64(t + clockOffset))] else []
  }

  /** Kept is the longest prefix with at most one reset. */
  lemma {:induction false} KeptIsPrefix(recs: seq<Record>, gotReset: bool, kept: seq<Record>)
    requires kept == Kept(recs, gotReset)
    ensures kept <= recs
    ensures forall i, j :: 0 <= i < j < |kept| ==> !(IsReset(kept[i]) && IsReset(kept[j]))
    ensures gotReset ==> forall i :: 0 <= i < |kept| ==> !IsReset(kept[i])
    ensures |kept| < |recs| ==>
      IsReset(recs[|kept|]) && (gotReset || exists i :: 0 <= i < |kept| && IsReset(kept[i]))
    decreases |recs|
  {
    if kept != [] {
      var got := gotReset || IsReset(recs[0]);
      var rest := Kept(recs[1..], got);
      KeptIsPrefix(recs[1..], got, rest);
      assert kept == [recs[0]] + rest;
      if |kept| < |recs| && !gotReset && !IsReset(recs[0]) {
        var i :| 0 <= i < |rest| && IsReset(rest[i]);
        assert IsReset(kept[i + 1]);
      } else if IsReset(recs[0]) {
        assert IsReset(kept[0]);
      }
    }
  }

  /** One turn of the loop over the records; `done` of them have been consumed. */
  lemma KeptTurn(recs: seq<Record>, done: nat, gotReset: bool, kept: seq<Record>)
    requires done < |recs| && kept == recs[..done] + Kept(recs[done..], gotReset)
    ensures IsReset(recs[done]) && gotReset ==> kept == recs[..done]
    ensures !(IsReset(recs[done]) && gotReset) ==>
      && done < |kept| && kept[done] == recs[done]
      && kept == recs[..done + 1] + Kept(recs[done + 1..], gotReset || IsReset(recs[done]))
  {
  }

  lemma EntriesTurn(latest: int, entries: seq<Entry>, i: nat, clockOffset: nat)
    requires i < |entries|
    ensures TimeAfter(latest, entries[..i + 1]) == Advance(TimeAfter(latest, entries[..i]), entries[i])
    ensures Samples(latest, entries[..i + 1], clockOffset) == Samples(latest, entries[..i], clockOffset) +
      (var t := TimeAfter(latest, entries[..i + 1]);
       if t > 0 then [SampleOf(entries[i].rec, Wrap64(t + clockOffset))] else [])
  {
    assert entries[..i + 1][..i] == entries[..i];
  }

  class Unpacker {
    var latestImuSampleTs: int
    var clockOffset: nat
    var imuData: seq<Record>
    var imuSamples: seq<Sample>

    /** What start() leaves: no reset seen yet. */
    constructor ()
      ensures latestImuSampleTs == 0
    {
      latestImuSampleTs, clockOffset, imuData, imuSamples := 0, 0, [], [];
    }

    method UnpackImuData(frameTs: nat)
      modifies this`latestImuSampleTs, this`imuSamples
      ensures latestImuSampleTs == TimeAfter(old(latestImuSampleTs), FrameEntries(frameTs, imuData))
      ensures imuSamples == Samples(old(latestImuSampleTs), FrameEntries(frameTs, imuData), clockOffset)
    {
      hide Kept, TimeAfter, Samples, SampleOf, IsReset;
      ghost var latest := latestImuSampleTs;
      imuSamples := [];
      var gotReset := false;
      ghost var kept, entries := Kept(imuData, false), FrameEntries(frameTs, imuData);
      assert imuData[0..] == imuData && imuData[..0] == [];
      NoEntries(latest, clockOffset);
      for i := 0 to |imuData|
        invariant i <= |kept| == |entries| && kept == imuData[..i] + Kept(imuData[i..], gotReset)
        invariant latestImuSampleTs == TimeAfter(latest, entries[..i])
        invariant imuSamples == Samples(latest, entries[..i], clockOffset)
      {
        var rec := imuData[i];
        KeptTurn(imuData, i, gotReset, kept);
        if IsReset(rec) && gotReset { break; }
        EntriesTurn(latest, entries, i, clockOffset);
        if IsReset(rec) {
          latestImuSampleTs := Signed(Wrap64(frameTs + Word(rec, 14) * 1000), TWO_63);
          gotReset := true;
        } else if latestImuSampleTs > 0 {
          latestImuSampleTs := latestImuSampleTs + SAMPLE_PERIOD_NS;
        }
        if latestImuSampleTs > 0 {
          imuSamples := imuSamples + [SampleOf(rec, Wrap64(latestImuSampleTs + clockOffset))];
        }
      }
      AllKept(imuData, kept, gotReset);
      assert entries[..|entries|] == entries;
    }
  }

  lemma NoEntries(latest: int, clockOffset: nat)
    ensures TimeAfter(latest, []) == latest && Samples(latest, [], clockOffset) == []
  {
  }

  lemma AllKept(recs: seq<Record>, kept: seq<Record>, gotReset: bool)
    ensures kept == recs[..|recs|] + Kept(recs[|recs|..], gotReset) ==> kept == recs
  {
  }

  // ---- the timeline over a whole run of frames ----

  datatype Frame = Frame(ts: nat, recs: seq<Record>)

  /** The honoured records of all frames since start(), in order. */
  function RunEntries(frames: seq<Frame>): seq<Entry> {
    if frames == [] then []
    else
      var last := frames[|frames| - 1];
      RunEntries(frames[..|frames| - 1]) + FrameEntries(last.ts, last.recs)
  }

  lemma {:induction false} TimeAfterConcat(latest: int, a: seq<Entry>, b: seq<Entry>)
    ensures TimeAfter(latest, a + b) == TimeAfter(TimeAfter(latest, a), b)
  {
    if b == [] {
      assert a + b == a;
    } else {
      assert (a + b)[..|a + b| - 1] == a + b[..|b| - 1];
      TimeAfterConcat(latest, a, b[..|b| - 1]);
    }
  }

  /** The state that the frames leave behind, one UnpackImuData after the other. */
  function RunTime(frames: seq<Frame>): int {
    if frames == [] then 0
    else
      var last := frames[|frames| - 1];
      TimeAfter(RunTime(frames[..|frames| - 1]), FrameEntries(last.ts, last.recs))
  }

  /** The timeline does not notice where one frame ends and the next begins. */
  lemma {:induction false} RunTimeIsFlat(frames: seq<Frame>)
    ensures RunTime(frames) == TimeAfter(0, RunEntries(frames))
  {
    if frames != [] {
      var n := |frames| - 1;
      RunTimeIsFlat(frames[..n]);
      TimeAfterConcat(0, RunEntries(frames[..n]), FrameEntries(frames[n].ts, frames[n].recs));
    }
  }

  /** The last reset among the first `n` entries, -1 without one. */
  function LastReset(entries: seq<Entry>, n: nat): int
    requires n <= |entries|
  {
    if n == 0 then -1 else if IsReset(entries[n - 1].rec) then n - 1 else LastReset(entries, n - 1)
  }

  ghost predicate ResetsPositive(entries: seq<Entry>) {
    forall k :: 0 <= k < |entries| && IsReset(entries[k].rec) ==> ResetTime(entries[k]) > 0
  }

  /** Closed form: the device time of an entry is the time of the last reset plus ten milliseconds for every entry
      since; before the first reset there is no time. */
  lemma {:induction false} TimeInClosedForm(entries: seq<Entry>, n: nat)
    requires n <= |entries| && ResetsPositive(entries)
    ensures -1 <= LastReset(entries, n) < n
    ensures TimeAfter(0, entries[..n]) ==
      if LastReset(entries, n) < 0 then 0
      else ResetTime(entries[LastReset(entries, n)]) + 10_000_000 * (n - 1 - LastReset(entries, n))
  {
    if n > 0 {
      TimeInClosedForm(entries, n - 1);
      assert entries[..n][..n - 1] == entries[..n - 1];
      if LastReset(entries, n - 1) >= 0 { LastResetIsReset(entries, n - 1); }
    }
  }

  /** Consecutive samples without a reset between them are exactly ten milliseconds apart, whether or not a frame
      boundary lies between them; before the first reset nothing is emitted and after it everything is. */
  lemma SamplesEveryTenMs(entries: seq<Entry>, n: nat)
    requires 0 < n <= |entries| && ResetsPositive(entries)
    ensures TimeAfter(0, entries[..n]) > 0 <==> LastReset(entries, n) >= 0
    ensures !IsReset(entries[n - 1].rec) && TimeAfter(0, entries[..n - 1]) > 0
      ==> TimeAfter(0, entries[..n]) == TimeAfter(0, entries[..n - 1]) + SAMPLE_PERIOD_NS
  {
    TimeInClosedForm(entries, n);
    TimeInClosedForm(entries, n - 1);
    assert entries[..n][..n - 1] == entries[..n - 1];
    if LastReset(entries, n) >= 0 { LastResetIsReset(entries, n); }
  }

  lemma {:induction false} LastResetIsReset(entries: seq<Entry>, n: nat)
    requires n <= |entries| && LastReset(entries, n) >= 0
    ensures LastReset(entries, n) < n && IsReset(entries[LastReset(entries, n)].rec)
  {
    if !IsReset(entries[n - 1].rec) { LastResetIsReset(entries, n - 1); }
  }

  /** Entries give no sample exactly when the device time is not positive behind any of them. */
  lemma {:induction false} NoSampleExactlyWhen(latest: int, entries: seq<Entry>, offset: nat)
    ensures Samples(latest, entries, offset) == [] <==>
      forall n :: 0 < n <= |entries| ==> TimeAfter(latest, entries[..n]) <= 0
  {
    hide TimeAfter, SampleOf;
    if entries != [] {
      var init := entries[..|entries| - 1];
      NoSampleExactlyWhen(latest, init, offset);
      assert entries[..|entries|] == entries;
      assert forall n :: 0 < n <= |init| ==> entries[..n] == init[..n];
    }
  }

  // ---- everything that is emitted over a run ----

  /** The samples of all frames; frame `k` is stamped with its own clock offset. */
  function RunSamples(frames: seq<Frame>, offsets: seq<nat>): seq<Sample>
    requires |offsets| == |frames|
  {
    if frames == [] then []
    else
      var n := |frames| - 1;
      RunSamples(frames[..n], offsets[..n]) +
      Samples(RunTime(frames[..n]), FrameEntries(frames[n].ts, frames[n].recs), offsets[n])
  }

  /** One more frame. */
  lemma RunTurn(frames: seq<Frame>, offsets: seq<nat>, k: nat)
    requires k < |frames| == |offsets|
    ensures RunTime(frames[..k + 1]) == TimeAfter(RunTime(frames[..k]), FrameEntries(frames[k].ts, frames[k].recs))
    ensures RunSamples(frames[..k + 1], offsets[..k + 1]) == RunSamples(frames[..k], offsets[..k])
      + Samples(RunTime(frames[..k]), FrameEntries(frames[k].ts, frames[k].recs), offsets[k])
  {
    hide Samples, TimeAfter, FrameEntries;
    assert frames[..k + 1][..k] == frames[..k] && offsets[..k + 1][..k] == offsets[..k];
  }

  lemma {:induction false} RunPrefix(frames: seq<Frame>, offsets: seq<nat>, k: nat)
    requires k <= |frames| == |offsets|
    ensures RunSamples(frames[..k], offsets[..k]) <= RunSamples(frames, offsets)
    decreases |frames| - k
  {
    hide RunSamples;
    if k == |frames| {
      assert frames[..k] == frames && offsets[..k] == offsets;
    } else {
      RunTurn(frames, offsets, k);
      RunPrefix(frames, offsets, k + 1);
    }
  }

  /** The clock offset in force for each entry of a run. */
  function RunOffsets(frames: seq<Frame>, offsets: seq<nat>): (r: seq<nat>)
    requires |offsets| == |frames|
    ensures |r| == |RunEntries(frames)|
  {
    if frames == [] then []
    else
      var n := |frames| - 1;
      RunOffsets(frames[..n], offsets[..n]) +
      seq(|FrameEntries(frames[n].ts, frames[n].recs)|, _ => offsets[n])
  }

  /** The device time of entry `n - 1`, 0 before the first reset. */
  function DeviceTime(entries: seq<Entry>, n: nat): int
    requires 0 < n <= |entries|
  {
    var r := LastReset(entries, n);
    if 0 <= r < n then ResetTime(entries[r]) + 10_000_000 * (n - 1 - r) else 0
  }

  /** One sample for every entry from the first reset on, in order. */
  function Timeline(entries: seq<Entry>, offsets: seq<nat>, n: nat): seq<Sample>
    requires n <= |entries| == |offsets|
  {
    if n == 0 then []
    else if LastReset(entries, n) < 0 then Timeline(entries, offsets, n - 1)
    else
      var t := Wrap64(DeviceTime(entries, n) + offsets[n - 1]);
      Timeline(entries, offsets, n - 1) + [SampleOf(entries[n - 1].rec, t)]
  }

  lemma {:induction false} LastResetPrefix(a: seq<Entry>, b: seq<Entry>, n: nat)
    requires n <= |a|
    ensures LastReset(a + b, n) == LastReset(a, n)
  {
    if n > 0 { LastResetPrefix(a, b, n - 1); }
  }

  lemma {:induction false} TimelinePrefix(a: seq<Entry>, b: seq<Entry>, oa: seq<nat>, ob: seq<nat>, n: nat)
    requires n <= |a| == |oa| && |b| == |ob|
    ensures Timeline(a + b, oa + ob, n) == Timeline(a, oa, n)
  {
    if n > 0 {
      TimelinePrefix(a, b, oa, ob, n - 1);
      LastResetPrefix(a, b, n);
    }
  }

  lemma DeviceTimeInRun(a: seq<Entry>, b: seq<Entry>, m: nat, e: seq<Entry>, n: nat)
    requires 0 < m <= |b| && e == a + b && n == |a| + m && ResetsPositive(e)
    ensures TimeAfter(TimeAfter(0, a), b[..m]) == DeviceTime(e, n)
    ensures DeviceTime(e, n) > 0 <==> LastReset(e, n) >= 0
  {
    hide ResetTime, IsReset, TimeAfter;
    TimeAfterConcat(0, a, b[..m]);
    assert e[..n] == a + b[..m];
    TimeInClosedForm(e, n);
    if LastReset(e, n) >= 0 { LastResetIsReset(e, n); }
  }

  /** The last frame appends its part of the timeline. */
  lemma {:induction false} TimelineGrows(a: seq<Entry>, b: seq<Entry>, oa: seq<nat>, ob: seq<nat>, offset: nat, m: nat)
    requires |a| == |oa| && m <= |b| == |ob| && ResetsPositive(a + b)
    requires forall k :: 0 <= k < |ob| ==> ob[k] == offset
    ensures Timeline(a + b, oa + ob, |a| + m)
         == Timeline(a + b, oa + ob, |a|) + Samples(TimeAfter(0, a), b[..m], offset)
  {
    hide SampleOf, ResetTime, IsReset, Advance, LastReset, DeviceTime, TimeAfter, ResetsPositive;
    if m > 0 {
      TimelineGrows(a, b, oa, ob, offset, m - 1);
      EntriesTurn(TimeAfter(0, a), b, m - 1, offset);
      DeviceTimeInRun(a, b, m, a + b, |a| + m);
      assert (a + b)[|a| + m - 1] == b[m - 1] && (oa + ob)[|a| + m - 1] == offset;
    }
  }

  /** On every run since start() whose reset times are positive, the driver emits nothing before the first reset and
      then one sample per honoured record, stamped with the time of the last reset plus ten milliseconds per record
      since, across all frame boundaries. */
  lemma {:induction false} RunSamplesAreTimeline(frames: seq<Frame>, offsets: seq<nat>, entries: seq<Entry>)
    requires |offsets| == |frames| && entries == RunEntries(frames) && ResetsPositive(entries)
    ensures RunSamples(frames, offsets) == Timeline(entries, RunOffsets(frames, offsets), |entries|)
  {
    hide SampleOf, ResetTime, IsReset, Samples, TimeAfter, LastReset, DeviceTime, FrameEntries, ResetsPositive;
    NoEntries(0, 0);
    if frames != [] {
      var n := |frames| - 1;
      var a, b := RunEntries(frames[..n]), FrameEntries(frames[n].ts, frames[n].recs);
      var oa, ob := RunOffsets(frames[..n], offsets[..n]), seq(|b|, _ => offsets[n]);
      ResetsPositivePrefix(a, b, a + b);
      RunSamplesAreTimeline(frames[..n], offsets[..n], a);
      RunTimeIsFlat(frames[..n]);
      TimelinePrefix(a, b, oa, ob, |a|);
      TimelineGrows(a, b, oa, ob, offsets[n], |b|);
      assert b[..|b|] == b;
    }
  }

  lemma ResetsPositivePrefix(a: seq<Entry>, b: seq<Entry>, e: seq<Entry>)
    requires e == a + b && ResetsPositive(e)
    ensures ResetsPositive(a)
  {
    hide ResetTime;
    assert forall k :: 0 <= k < |a| ==> e[k] == a[k];
  }
}
