/** What holds on every run of the combiner node, whatever the interleaving. */
module CombinerTheorems {
  import opened Words
  import opened PointCloud
  import opened CloudMerge
  import opened Combiner
  import opened CombinerFacts
  import opened CombinerRuns

  // ---- the cloud callback is atomic ----

  lemma {:induction false} SkipReady(clouds: seq<Cloud>, cache: seq<Option<Transform>>, lookups: seq<Option<Transform>>,
                                     from: nat, i: nat)
    requires |clouds| == |cache| == |lookups| && from <= i <= |clouds|
    requires forall j :: from <= j < i ==> Ready(clouds[j], cache[j], lookups[j])
    ensures FirstUnready(clouds, cache, lookups, from) == FirstUnready(clouds, cache, lookups, i)
    decreases i - from
  {
    if from < i { SkipReady(clouds, cache, lookups, from + 1, i); }
  }

  /** What an uninterrupted callback, started on the same cache and given the same TF answers, would have done. */
  ghost function Uninterrupted(node: Node, s: State, call: CloudCall): CloudOutcome
    requires SlotsWellFormed(s.clouds) && |call.start| == |call.answers| == |s.clouds|
  {
    CloudCallback(node.geometry, node.target, s.clouds, call.start, call.answers)
  }

  ghost predicate EndsLike(s: State, after: State, o: CloudOutcome) {
    && after.cache == o.cache
    && (o.out.None? ==> after.published == s.published)
    && (o.out.Some? ==> Filled(s.clouds))
    && (o.out.Some? ==>
          after.published == s.published + [Publication(|s.cloudArrivals|, Values(s.clouds), o.out.value)])
  }

  lemma StopsHere(node: Node, s: State, call: CloudCall)
    requires SlotsWellFormed(s.clouds) && CloudsDue(s.clouds)
    requires call.i < |s.clouds| == |call.start| == |call.answers|
    requires forall j :: 0 <= j < call.i ==> Ready(s.clouds[j].value, call.start[j], call.answers[j])
    requires !Ready(s.clouds[call.i].value, call.start[call.i], call.answers[call.i])
    ensures Uninterrupted(node, s, call) == CloudOutcome(CacheAfter(call.start, call.answers, call.i + 1), None)
  {
    SkipReady(Values(s.clouds), call.start, call.answers, 0, call.i);
  }

  lemma BackedValues(used: seq<Transform>, cache: seq<Option<Transform>>)
    requires Backed(used, cache) && |used| == |cache|
    ensures Filled(cache) && Values(cache) == used
  {
  }

  lemma ReachesEnd(node: Node, s: State, call: CloudCall, t: Transform)
    requires SlotDone(s, call, t) && call.i + 1 == |s.clouds| && HasXyz(s.clouds[call.i].value.fields)
    ensures Usable(Values(s.clouds))
    ensures Uninterrupted(node, s, call)
         == CloudOutcome(s.cache, CombinedCloud(node.geometry, node.target, Values(s.clouds), call.used + [t]))
  {
    hide CombinedCloud, WellFormed, HasXyz;
    var clouds := Values(s.clouds);
    SkipReady(clouds, call.start, call.answers, 0, |clouds|);
    CacheAfterAll(call.start, call.answers);
    AllReady(clouds, call.start, call.answers);
    BackedValues(call.used + [t], s.cache);
    assert CacheAfter(call.start, call.answers, |clouds| + 1) == s.cache;
  }

  lemma ProceedEnds(node: Node, s: State, call: CloudCall, t: Transform)
    requires SlotDone(s, call, t) && Usable(Values(s.clouds)[..call.i])
    requires Proceed(node, s, call, t).cloudPc.Idle?
    ensures EndsLike(s, Proceed(node, s, call, t), Uninterrupted(node, s, call))
  {
    if !HasXyz(s.clouds[call.i].value.fields) {
      StopsHere(node, s, call);
    } else {
      ReachesEnd(node, s, call, t);
    }
  }

  /** The call as it stands when the callback takes its next step: with a failed answer the slot stays unanswered. */
  function CallOf(pc: CloudPc): CloudCall
    requires !pc.Idle?
  {
    pc.call
  }

  /** Whatever the IMU thread did meanwhile, a cloud callback ends exactly as the uninterrupted callback would: same
      cache, same publication. */
  lemma CloudCallbackIsAtomic(node: Node, s: State, step: Step)
    requires Consistent(node, s) && !s.cloudPc.Idle?
    requires Next(node, s, step).cloudPc.Idle?
    ensures |CallOf(s.cloudPc).start| == |CallOf(s.cloudPc).answers| == |s.clouds|
    ensures EndsLike(s, Next(node, s, step), Uninterrupted(node, s, CallOf(s.cloudPc)))
  {
    hide CombinedCloud, WellFormed, HasXyz;
    var call := CallOf(s.cloudPc);
    if s.cloudPc.Ask? {
      HitIsDone(s, call);
      UsablePrefix(s, call);
      ProceedEnds(node, s, call, s.cache[call.i].value);
    } else if s.cloudPc.Look? {
      CacheAfterStep(call.start, call.answers, call.i);
      assert s.cache[call.i := None] == s.cache;
      StopsHere(node, s, call);
    } else {
      var stored := s.(cache := s.cache[call.i := Some(s.cloudPc.t)]);
      StoreIsDone(s, call, s.cloudPc.t, stored);
      UsablePrefix(stored, call);
      ProceedEnds(node, stored, call, s.cloudPc.t);
    }
  }

  // ---- the IMU callback is atomic at its last read ----

  lemma BackedPrefix(used: seq<Transform>, cache: seq<Option<Transform>>)
    requires Backed(used, cache)
    ensures CachedUpTo(cache, |used|) && Values(cache[..|used|]) == used
  {
  }

  /** An IMU callback publishes exactly when every IMU index is cached at its last read, and then both vectors of every
      IMU were rotated by the transform that the cache holds at that moment. */
  lemma ImuCallbackIsAtomic(node: Node, s: State, step: Step)
    requires Consistent(node, s) && !s.imuPc.Resting?
    requires Next(node, s, step).imuPc.Resting?
    ensures ImusDue(s.imus)
    ensures Next(node, s, step).fused == s.fused +
      if CachedUpTo(s.cache, |s.imus|)
      then [Fusion(|s.imuArrivals|, Values(s.imus), FusedImu(node.target, Values(s.imus), Values(s.cache[..|s.imus|])))]
      else []
  {
    hide FusedImuBy, Synchronous, WellFormed;
    var i := |s.imuPc.linear|;
    if i < |s.cache| && s.cache[i].Some? {
      assert step.ImuReadsLinear?;
      BackedPrefix(s.imuPc.angular, s.cache);
      BackedPrefix(s.imuPc.linear + [s.cache[i].value], s.cache);
    } else if CachedUpTo(s.cache, |s.imus|) {
      CachedAt(s.cache, |s.imus|, i);
    }
  }

  lemma CachedAt(cache: seq<Option<Transform>>, n: nat, i: nat)
    requires CachedUpTo(cache, n) && i < n
    ensures cache[i].Some?
  {
  }

  // ---- runs ----

  ghost function Exec(node: Node, steps: seq<Step>): (s: State)
    ensures Consistent(node, s)
  {
    if steps == [] then
      Initial(node)
    else
      var before := Exec(node, steps[..|steps| - 1]);
      StepConsistent(node, before, steps[|steps| - 1]);
      Next(node, before, steps[|steps| - 1])
  }

  /** On every run, whatever happens later, a filled transform slot keeps its transform. */
  lemma {:induction false} CacheIsWriteOnce(node: Node, steps: seq<Step>, later: seq<Step>)
    ensures Grows(Exec(node, steps).cache, Exec(node, steps + later).cache)
  {
    hide Next, Consistent;
    if later == [] {
      assert steps + later == steps;
    } else {
      var init, last := later[..|later| - 1], later[|later| - 1];
      CacheIsWriteOnce(node, steps, init);
      assert (steps + later)[..|steps + later| - 1] == steps + init && (steps + later)[|steps + later| - 1] == last;
      assert Exec(node, steps + later) == Next(node, Exec(node, steps + init), last);
      StepGrowsCache(node, Exec(node, steps + init), last);
    }
  }

  // ---- what every message of a run is made of ----

  /** A published cloud: made of the latest cloud of every topic at its arrival, in tolerance, and determined by these
      inputs and the (final) cache. */
  ghost predicate PublicationOk(node: Node, s: State, p: Publication) {
    && 0 < p.arrival <= |s.cloudArrivals|
    && |p.inputs| == |s.clouds| == |s.cache|
    && (forall i :: 0 <= i < |p.inputs| ==> Latest(s.cloudArrivals[..p.arrival], i) == Some(p.inputs[i]))
    && Synchronous(CloudStamps(p.inputs), SYNC_TOLERANCE_NS)
    && Usable(p.inputs) && Filled(s.cache)
    && CombinedCloud(node.geometry, node.target, p.inputs, Values(s.cache)) == Some(p.out)
  }

  ghost predicate FusionOk(node: Node, s: State, f: Fusion) {
    && 0 < f.arrival <= |s.imuArrivals|
    && 0 < |f.inputs| == |s.imus|
    && (forall i :: 0 <= i < |f.inputs| ==> Latest(s.imuArrivals[..f.arrival], i) == Some(f.inputs[i]))
    && Synchronous(ImuStamps(f.inputs), IMU_SYNC_TOLERANCE_NS)
    && CachedUpTo(s.cache, |f.inputs|)
    && f.out == FusedImu(node.target, f.inputs, Values(s.cache[..|f.inputs|]))
  }

  /** At most one message per arrival, in the order of the arrivals; `open` says that the last arrival is still being
      handled and has not published yet. */
  predicate Increasing(arrivals: seq<nat>, bound: nat, open: bool) {
    && (forall a, b :: 0 <= a < b < |arrivals| ==> arrivals[a] < arrivals[b])
    && (forall a :: 0 <= a < |arrivals| ==> arrivals[a] <= bound && (open ==> arrivals[a] < bound))
  }

  function CloudTicks(log: seq<Publication>): seq<nat> { seq(|log|, i requires 0 <= i < |log| => log[i].arrival) }

  function ImuTicks(log: seq<Fusion>): seq<nat> { seq(|log|, i requires 0 <= i < |log| => log[i].arrival) }

  ghost predicate CloudLogOk(node: Node, s: State) {
    && (forall k :: 0 <= k < |s.published| ==> PublicationOk(node, s, s.published[k]))
    && Increasing(CloudTicks(s.published), |s.cloudArrivals|, !s.cloudPc.Idle?)
    && (!s.cloudPc.Idle? ==> s.cloudArrivals != [])
  }

  ghost predicate ImuLogOk(node: Node, s: State) {
    && (forall k :: 0 <= k < |s.fused| ==> FusionOk(node, s, s.fused[k]))
    && Increasing(ImuTicks(s.fused), |s.imuArrivals|, !s.imuPc.Resting?)
    && (!s.imuPc.Resting? ==> s.imuArrivals != [])
  }

  lemma PublicationStays(node: Node, s: State, after: State, p: Publication)
    requires PublicationOk(node, s, p) && Grows(s.cache, after.cache) && |after.clouds| == |s.clouds|
    requires s.cloudArrivals <= after.cloudArrivals
    ensures PublicationOk(node, after, p)
  {
    assert after.cache == s.cache;
    assert after.cloudArrivals[..p.arrival] == s.cloudArrivals[..p.arrival];
  }

  lemma FusionStays(node: Node, s: State, after: State, f: Fusion)
    requires FusionOk(node, s, f) && Grows(s.cache, after.cache) && |after.imus| == |s.imus|
    requires s.imuArrivals <= after.imuArrivals
    ensures FusionOk(node, after, f)
  {
    var n := |f.inputs|;
    forall i | 0 <= i < n ensures after.cache[i] == s.cache[i] { CachedAt(s.cache, n, i); }
    assert after.cache[..n] == s.cache[..n];
    assert after.imuArrivals[..f.arrival] == s.imuArrivals[..f.arrival];
  }

  /** The three things a step can mean for the cloud side. */
  lemma CloudStepKinds(node: Node, s: State, step: Step, after: State)
    requires Consistent(node, s) && after == Next(node, s, step)
    ensures || (s.cloudPc.Idle? && |after.cloudArrivals| == |s.cloudArrivals| + 1
                && s.cloudArrivals <= after.cloudArrivals && after.published == s.published)
            || (!s.cloudPc.Idle? && after.cloudPc.Idle? && after.cloudArrivals == s.cloudArrivals)
            || (s.cloudPc.Idle? == after.cloudPc.Idle? && after.cloudArrivals == s.cloudArrivals
                && after.published == s.published)
  {
  }

  lemma ImuStepKinds(node: Node, s: State, step: Step, after: State)
    requires Consistent(node, s) && after == Next(node, s, step)
    ensures || (s.imuPc.Resting? && |after.imuArrivals| == |s.imuArrivals| + 1 && s.imuArrivals <= after.imuArrivals
                && after.fused == s.fused)
            || (!s.imuPc.Resting? && after.imuPc.Resting? && after.imuArrivals == s.imuArrivals)
            || (s.imuPc.Resting? == after.imuPc.Resting? && after.imuArrivals == s.imuArrivals
                && after.fused == s.fused)
  {
  }

  lemma IncreasingPush(ticks: seq<nat>, bound: nat)
    requires Increasing(ticks, bound, true)
    ensures Increasing(ticks + [bound], bound, false)
  {
  }

  lemma CloudEnds(node: Node, s: State, step: Step, after: State)
    requires Consistent(node, s) && after == Next(node, s, step)
    requires CloudLogOk(node, s) && !s.cloudPc.Idle? && after.cloudPc.Idle? && after.cloudArrivals == s.cloudArrivals
    ensures CloudLogOk(node, after)
  {
    hide CombinedCloud, WellFormed, Next;
    var call := CallOf(s.cloudPc);
    CloudCallbackIsAtomic(node, s, step);
    StepGrowsCache(node, s, step);
    StepConsistent(node, s, step);
    OldPublicationsOk(node, s, after);
    var o := Uninterrupted(node, s, call);
    if o.out.Some? {
      var p := Publication(|s.cloudArrivals|, Values(s.clouds), o.out.value);
      assert CloudsDue(s.clouds);
      OutcomeDetermined(node.geometry, node.target, Values(s.clouds), call.start, call.answers,
                        FirstUnready(Values(s.clouds), call.start, call.answers, 0), o);
      NewPublicationOk(node, s, after, p, o.cache);
      TicksPush(s.published, p);
      IncreasingPush(CloudTicks(s.published), |s.cloudArrivals|);
    }
  }

  lemma TicksPush(log: seq<Publication>, p: Publication)
    ensures CloudTicks(log + [p]) == CloudTicks(log) + [p.arrival]
  {
  }

  lemma OldPublicationsOk(node: Node, s: State, after: State)
    requires CloudLogOk(node, s) && Grows(s.cache, after.cache) && |after.clouds| == |s.clouds|
    requires s.cloudArrivals <= after.cloudArrivals
    ensures forall k :: 0 <= k < |s.published| ==> PublicationOk(node, after, s.published[k])
  {
    forall k | 0 <= k < |s.published| ensures PublicationOk(node, after, s.published[k]) {
      PublicationStays(node, s, after, s.published[k]);
    }
  }

  lemma NewPublicationOk(node: Node, s: State, after: State, p: Publication, cache: seq<Option<Transform>>)
    requires Consistent(node, s) && s.cloudArrivals != [] && CloudsDue(s.clouds)
    requires after.cloudArrivals == s.cloudArrivals && |after.clouds| == |s.clouds| && after.cache == cache
    requires Usable(Values(s.clouds)) && Filled(cache) && |cache| == |s.clouds|
    requires p.arrival == |s.cloudArrivals| && p.inputs == Values(s.clouds)
    requires CombinedCloud(node.geometry, node.target, p.inputs, Values(cache)) == Some(p.out)
    ensures PublicationOk(node, after, p)
  {
    assert s.cloudArrivals[..p.arrival] == s.cloudArrivals;
  }

  lemma NewFusionOk(node: Node, s: State, after: State, f: Fusion)
    requires Consistent(node, s) && s.imuArrivals != [] && s.imus != [] && ImusDue(s.imus)
    requires after.imuArrivals == s.imuArrivals && |after.imus| == |s.imus| && after.cache == s.cache
    requires CachedUpTo(s.cache, |s.imus|)
    requires f == Fusion(|s.imuArrivals|, Values(s.imus),
                         FusedImu(node.target, Values(s.imus), Values(s.cache[..|s.imus|])))
    ensures FusionOk(node, after, f)
  {
    assert s.imuArrivals[..f.arrival] == s.imuArrivals;
  }

  lemma ImuEndKeepsCache(node: Node, s: State, step: Step, after: State)
    requires Consistent(node, s) && after == Next(node, s, step)
    requires !s.imuPc.Resting? && after.imuPc.Resting?
    ensures after.cache == s.cache
  {
    hide FusedImuBy, Synchronous, WellFormed;
  }

  lemma ImuEnds(node: Node, s: State, step: Step, after: State)
    requires Consistent(node, s) && after == Next(node, s, step)
    requires ImuLogOk(node, s) && !s.imuPc.Resting? && after.imuPc.Resting? && after.imuArrivals == s.imuArrivals
    ensures ImuLogOk(node, after)
  {
    hide FusedImu, Synchronous, Next, WellFormed;
    ImuCallbackIsAtomic(node, s, step);
    StepGrowsCache(node, s, step);
    StepConsistent(node, s, step);
    forall k | 0 <= k < |s.fused| ensures FusionOk(node, after, s.fused[k]) {
      FusionStays(node, s, after, s.fused[k]);
    }
    if CachedUpTo(s.cache, |s.imus|) {
      var f := Fusion(|s.imuArrivals|, Values(s.imus),
                      FusedImu(node.target, Values(s.imus), Values(s.cache[..|s.imus|])));
      ImuEndKeepsCache(node, s, step, after);
      NewFusionOk(node, s, after, f);
      IncreasingPush(ImuTicks(s.fused), |s.imuArrivals|);
      assert ImuTicks(after.fused) == ImuTicks(s.fused) + [|s.imuArrivals|];
    }
  }

  lemma StepLogs(node: Node, s: State, step: Step, after: State)
    requires Consistent(node, s) && after == Next(node, s, step)
    requires CloudLogOk(node, s) && ImuLogOk(node, s)
    ensures CloudLogOk(node, after) && ImuLogOk(node, after)
  {
    StepGrowsCache(node, s, step);
    StepConsistent(node, s, step);
    CloudStepKinds(node, s, step, after);
    ImuStepKinds(node, s, step, after);
    if !s.cloudPc.Idle? && after.cloudPc.Idle? {
      CloudEnds(node, s, step, after);
    } else {
      CloudGoesOn(node, s, after);
    }
    if !s.imuPc.Resting? && after.imuPc.Resting? {
      ImuEnds(node, s, step, after);
    } else {
      ImuGoesOn(node, s, after);
    }
  }

  lemma CloudGoesOn(node: Node, s: State, after: State)
    requires CloudLogOk(node, s) && Grows(s.cache, after.cache) && |after.clouds| == |s.clouds|
    requires s.cloudArrivals <= after.cloudArrivals && after.published == s.published
    requires || (s.cloudPc.Idle? == after.cloudPc.Idle? && after.cloudArrivals == s.cloudArrivals)
             || (s.cloudPc.Idle? && |after.cloudArrivals| == |s.cloudArrivals| + 1)
    ensures CloudLogOk(node, after)
  {
    OldPublicationsOk(node, s, after);
  }

  lemma ImuGoesOn(node: Node, s: State, after: State)
    requires ImuLogOk(node, s) && Grows(s.cache, after.cache) && |after.imus| == |s.imus|
    requires s.imuArrivals <= after.imuArrivals && after.fused == s.fused
    requires || (s.imuPc.Resting? == after.imuPc.Resting? && after.imuArrivals == s.imuArrivals)
             || (s.imuPc.Resting? && |after.imuArrivals| == |s.imuArrivals| + 1)
    ensures ImuLogOk(node, after)
  {
    forall k | 0 <= k < |s.fused| ensures FusionOk(node, after, s.fused[k]) {
      FusionStays(node, s, after, s.fused[k]);
    }
  }

  /** On every run: each message belongs to exactly one arrival, is made of the latest message of every topic at that
      arrival, within the tolerance, and is the one that these inputs and the final cache determine. In particular both
      vectors of an IMU, and all messages ever fused, use one and the same rotation per input. */
  lemma {:induction false} RunLogs(node: Node, steps: seq<Step>)
    ensures CloudLogOk(node, Exec(node, steps)) && ImuLogOk(node, Exec(node, steps))
  {
    if steps != [] {
      RunLogs(node, steps[..|steps| - 1]);
      var before := Exec(node, steps[..|steps| - 1]);
      StepLogs(node, before, steps[|steps| - 1], Exec(node, steps));
    }
  }

  // ---- published stamps never decrease ----

  /** Each topic's stamps never decrease and each topic keeps its fields and its point step. */
  ghost predicate Steady(arrivals: seq<(nat, Cloud)>) {
    forall a, b :: 0 <= a < b < |arrivals| && arrivals[a].0 == arrivals[b].0 ==>
      arrivals[a].1.stamp <= arrivals[b].1.stamp && SameSchema(arrivals[a].1, arrivals[b].1)
  }

  lemma {:induction false} LatestIsArrival<T>(arrivals: seq<(nat, T)>, i: nat) returns (a: nat)
    requires Latest(arrivals, i).Some?
    ensures a < |arrivals| && arrivals[a] == (i, Latest(arrivals, i).value)
    ensures forall b :: a < b < |arrivals| ==> arrivals[b].0 != i
  {
    var n := |arrivals| - 1;
    if arrivals[n].0 == i { a := n; } else { a := LatestIsArrival(arrivals[..n], i); }
  }

  lemma LatestSteady(arrivals: seq<(nat, Cloud)>, m: nat, n: nat, i: nat)
    requires Steady(arrivals) && m <= n <= |arrivals|
    requires Latest(arrivals[..m], i).Some? && Latest(arrivals[..n], i).Some?
    ensures Latest(arrivals[..m], i).value.stamp <= Latest(arrivals[..n], i).value.stamp
    ensures SameSchema(Latest(arrivals[..m], i).value, Latest(arrivals[..n], i).value)
  {
    var a := LatestIsArrival(arrivals[..m], i);
    var b := LatestIsArrival(arrivals[..n], i);
    assert arrivals[..n][a] == arrivals[a] == arrivals[..m][a] && arrivals[..n][b] == arrivals[b];
    assert a <= b;
  }

  /** Inputs that moved on, topic by topic, give a stamp that moved on. */
  lemma NewerInputs(node: Node, p: Publication, q: Publication, xfs: seq<Transform>)
    requires 0 < |p.inputs| == |q.inputs| == |xfs| && Usable(p.inputs) && Usable(q.inputs)
    requires CombinedCloud(node.geometry, node.target, p.inputs, xfs) == Some(p.out)
    requires CombinedCloud(node.geometry, node.target, q.inputs, xfs) == Some(q.out)
    requires forall i :: 0 <= i < |xfs| ==>
      p.inputs[i].stamp <= q.inputs[i].stamp && SameSchema(p.inputs[i], q.inputs[i])
    ensures p.out.stamp <= q.out.stamp
  {
    var i := PublishedStamp(node.geometry, node.target, p.inputs, xfs);
    var k := PublishedStamp(node.geometry, node.target, q.inputs, xfs);
    assert SameSchema(q.inputs[i], q.inputs[0]);
  }

  lemma StampsNeverDecrease(node: Node, steps: seq<Step>, s: State, a: nat, b: nat)
    requires s == Exec(node, steps) && Steady(s.cloudArrivals)
    requires a < b < |s.published|
    ensures s.published[a].out.stamp <= s.published[b].out.stamp
  {
    RunLogs(node, steps);
    var p, q := s.published[a], s.published[b];
    assert PublicationOk(node, s, p) && PublicationOk(node, s, q);
    assert p.arrival < q.arrival by {
      var ticks := CloudTicks(s.published);
      assert ticks[a] == p.arrival && ticks[b] == q.arrival;
    }
    forall i | 0 <= i < |p.inputs|
      ensures p.inputs[i].stamp <= q.inputs[i].stamp && SameSchema(p.inputs[i], q.inputs[i])
    {
      LatestSteady(s.cloudArrivals, p.arrival, q.arrival, i);
    }
    NewerInputs(node, p, q, Values(s.cache));
  }
}
