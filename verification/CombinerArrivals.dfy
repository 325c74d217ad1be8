/** Which arrivals publish, over whole runs: those that meet the conditions, and no others. */
module CombinerArrivals {
  import opened Words
  import opened PointCloud
  import opened Combiner
  import opened CombinerFacts
  import opened CombinerRuns
  import opened CombinerTheorems

  // ---- clouds ----

  /** A cloud callback that has ended: the slots it saw, the transforms cached when it began, and TF's answers to it. */
  datatype Handled = Handled(slots: seq<Option<Cloud>>, start: seq<Option<Transform>>, answers: seq<Option<Transform>>)

  ghost predicate Publishes(h: Handled) {
    && CloudsDue(h.slots) && |h.start| == |h.answers| == |h.slots|
    && (forall i :: 0 <= i < |h.slots| ==> Ready(h.slots[i].value, h.start[i], h.answers[i]))
    && SomePoint(Values(h.slots))
  }

  /** The callback that a step ends, if it ends one: at once when the arrival is not due, else at its last step. */
  ghost function EndedBy(s: State, after: State): seq<Handled> {
    if !after.cloudPc.Idle? then []
    else if !s.cloudPc.Idle? then [Handled(s.clouds, CallOf(s.cloudPc).start, CallOf(s.cloudPc).answers)]
    else if |after.cloudArrivals| > |s.cloudArrivals| then [Handled(after.clouds, after.cache, Empty(|after.cache|))]
    else []
  }

  /** The ended callbacks of a run, in order. */
  ghost function HandledClouds(node: Node, steps: seq<Step>): seq<Handled> {
    if steps == [] then []
    else
      var init := steps[..|steps| - 1];
      HandledClouds(node, init) + EndedBy(Exec(node, init), Exec(node, steps))
  }

  ghost predicate PublishedAt(s: State, arrival: nat) {
    exists p :: 0 <= p < |s.published| && s.published[p].arrival == arrival
  }

  /** Callback number `k + 1` handled arrival number `k + 1`, and published exactly when it met the conditions. */
  ghost predicate HandledOk(s: State, log: seq<Handled>, k: nat)
    requires k < |log| && k < |s.cloudArrivals|
  {
    && |log[k].slots| == |s.clouds|
    && (forall i :: 0 <= i < |s.clouds| ==> log[k].slots[i] == Latest(s.cloudArrivals[..k + 1], i))
    && (PublishedAt(s, k + 1) <==> Publishes(log[k]))
  }

  ghost predicate AllHandled(s: State, log: seq<Handled>) {
    && |log| + (if s.cloudPc.Idle? then 0 else 1) == |s.cloudArrivals|
    && forall k :: 0 <= k < |log| ==> HandledOk(s, log, k)
  }

  /** What a step does on the cloud side. */
  lemma StepOutcome(node: Node, s: State, step: Step, after: State)
    requires Consistent(node, s) && after == Next(node, s, step)
    ensures s.cloudArrivals <= after.cloudArrivals && |after.clouds| == |s.clouds|
    ensures EndedBy(s, after) == [] ==>
      && after.published == s.published
      && |after.cloudArrivals| - (if after.cloudPc.Idle? then 0 else 1)
         == |s.cloudArrivals| - (if s.cloudPc.Idle? then 0 else 1)
    ensures s.cloudPc.Idle? && EndedBy(s, after) != [] ==>
      && after.published == s.published && |after.cloudArrivals| == |s.cloudArrivals| + 1
      && EndedBy(s, after) == [Handled(after.clouds, after.cache, Empty(|after.cache|))] && !CloudsDue(after.clouds)
    ensures !s.cloudPc.Idle? && EndedBy(s, after) != [] ==>
      after.cloudArrivals == s.cloudArrivals && CloudsDue(s.clouds)
  {
    hide CombinedCloud, WellFormed, HasXyz, Synchronous, ImusDue, Usable;
  }

  /** A callback that ends publishes its own arrival, or nothing. */
  lemma EndPublishes(node: Node, s: State, step: Step, after: State, h: Handled)
    requires Consistent(node, s) && after == Next(node, s, step) && !s.cloudPc.Idle? && after.cloudPc.Idle?
    requires CloudsDue(s.clouds) && h == Handled(s.clouds, CallOf(s.cloudPc).start, CallOf(s.cloudPc).answers)
    ensures !Publishes(h) ==> after.published == s.published
    ensures Publishes(h) ==>
      && |after.published| == |s.published| + 1 && s.published <= after.published
      && after.published[|s.published|].arrival == |s.cloudArrivals|
  {
    hide Next, CombinedCloud, WellFormed, HasXyz, Synchronous, CloudCallback, SomePoint;
    CloudCallbackIsAtomic(node, s, step);
    PublishesExactlyWhen(node.geometry, node.target, s.clouds, h.start, h.answers);
  }

  /** A later publication does not change what happened at an earlier arrival. */
  lemma HandledStays(s: State, after: State, log: seq<Handled>, more: seq<Handled>, k: nat)
    requires k < |log| && k < |s.cloudArrivals| && HandledOk(s, log, k)
    requires s.cloudArrivals <= after.cloudArrivals && |after.clouds| == |s.clouds|
    requires s.published <= after.published
    requires forall p :: |s.published| <= p < |after.published| ==> after.published[p].arrival != k + 1
    ensures HandledOk(after, log + more, k)
  {
    hide Publishes, Latest;
    assert after.cloudArrivals[..k + 1] == s.cloudArrivals[..k + 1];
    if PublishedAt(s, k + 1) {
      var p :| 0 <= p < |s.published| && s.published[p].arrival == k + 1;
      assert after.published[p].arrival == k + 1;
    }
  }

  lemma NotYetPublished(node: Node, s: State, arrival: nat)
    requires CloudLogOk(node, s)
    requires arrival > |s.cloudArrivals| || (arrival == |s.cloudArrivals| && !s.cloudPc.Idle?)
    ensures !PublishedAt(s, arrival)
  {
    hide PublicationOk;
    forall p | 0 <= p < |s.published| ensures s.published[p].arrival != arrival {
      assert CloudTicks(s.published)[p] == s.published[p].arrival;
    }
  }

  lemma StepHandles(node: Node, s: State, step: Step, after: State, log: seq<Handled>)
    requires Consistent(node, s) && Consistent(node, after) && after == Next(node, s, step)
    requires CloudLogOk(node, s) && AllHandled(s, log)
    ensures AllHandled(after, log + EndedBy(s, after))
  {
    hide Next, CloudLogOk, Publishes, PublishedAt, CloudsDue, HandledOk, Consistent, Latest;
    var ended := EndedBy(s, after);
    StepOutcome(node, s, step, after);
    if ended == [] {
      assert log + ended == log;
      forall k | 0 <= k < |log| ensures HandledOk(after, log, k) { HandledStays(s, after, log, [], k); }
    } else {
      LastHandled(node, s, step, after, log);
    }
  }

  lemma LastHandled(node: Node, s: State, step: Step, after: State, log: seq<Handled>)
    requires Consistent(node, s) && Consistent(node, after) && after == Next(node, s, step)
    requires CloudLogOk(node, s) && AllHandled(s, log) && EndedBy(s, after) != []
    ensures AllHandled(after, log + EndedBy(s, after))
  {
    hide Next, CloudLogOk, PublishedAt, CloudsDue, HandledOk, Latest;
    hide CloudPcConsistent, ImuPcConsistent, SlotsWellFormed;
    var ended, n := EndedBy(s, after), |log|;
    StepOutcome(node, s, step, after);
    assert n + 1 == |after.cloudArrivals| && after.cloudArrivals[..n + 1] == after.cloudArrivals;
    NotYetPublished(node, s, n + 1);
    if !s.cloudPc.Idle? { EndPublishes(node, s, step, after, ended[0]); }
    forall k | 0 <= k < n ensures HandledOk(after, log + ended, k) { HandledStays(s, after, log, ended, k); }
    NewHandled(s, after, log, ended[0]);
  }

  lemma NewHandled(s: State, after: State, log: seq<Handled>, h: Handled)
    requires |log| + 1 == |after.cloudArrivals| && |h.slots| == |after.clouds|
    requires forall i :: 0 <= i < |h.slots| ==> h.slots[i] == Latest(after.cloudArrivals, i)
    requires !PublishedAt(s, |log| + 1)
    requires Publishes(h) ==>
      |after.published| == |s.published| + 1 && after.published[|s.published|].arrival == |log| + 1
    requires !Publishes(h) ==> after.published == s.published
    ensures HandledOk(after, log + [h], |log|)
  {
    hide Publishes, Latest;
    assert after.cloudArrivals[..|log| + 1] == after.cloudArrivals;
  }

  /** On every run each arrival is handled once, and it publishes if and only if every topic has a cloud, all of them
      are in tolerance, each has a transform (cached, or from TF) and x/y/z fields, and an included one has a point. */
  lemma {:induction false} ArrivalsPublishExactlyWhen(node: Node, steps: seq<Step>)
    ensures AllHandled(Exec(node, steps), HandledClouds(node, steps))
  {
    if steps != [] {
      hide AllHandled, EndedBy, Next, Consistent, CloudLogOk;
      var init := steps[..|steps| - 1];
      ArrivalsPublishExactlyWhen(node, init);
      RunLogs(node, init);
      StepHandles(node, Exec(node, init), steps[|steps| - 1], Exec(node, steps), HandledClouds(node, init));
    }
  }

  // ---- IMU samples ----

  /** An IMU callback that has ended: the slots it saw, and the cache at its last access. */
  datatype HandledImu = HandledImu(slots: seq<Option<Imu>>, cache: seq<Option<Transform>>)

  predicate Fuses(h: HandledImu) { ImusDue(h.slots) && CachedUpTo(h.cache, |h.slots|) }

  function ImuEndedBy(s: State, after: State): seq<HandledImu> {
    if !after.imuPc.Resting? then []
    else if !s.imuPc.Resting? then [HandledImu(s.imus, s.cache)]
    else if |after.imuArrivals| > |s.imuArrivals| then [HandledImu(after.imus, after.cache)]
    else []
  }

  ghost function HandledImus(node: Node, steps: seq<Step>): seq<HandledImu> {
    if steps == [] then []
    else
      var init := steps[..|steps| - 1];
      HandledImus(node, init) + ImuEndedBy(Exec(node, init), Exec(node, steps))
  }

  ghost predicate FusedAt(s: State, arrival: nat) {
    exists p :: 0 <= p < |s.fused| && s.fused[p].arrival == arrival
  }

  ghost predicate HandledImuOk(s: State, log: seq<HandledImu>, k: nat)
    requires k < |log| && k < |s.imuArrivals|
  {
    && |log[k].slots| == |s.imus|
    && (forall i :: 0 <= i < |s.imus| ==> log[k].slots[i] == Latest(s.imuArrivals[..k + 1], i))
    && (FusedAt(s, k + 1) <==> Fuses(log[k]))
  }

  ghost predicate AllImusHandled(s: State, log: seq<HandledImu>) {
    && |log| + (if s.imuPc.Resting? then 0 else 1) == |s.imuArrivals|
    && forall k :: 0 <= k < |log| ==> HandledImuOk(s, log, k)
  }

  lemma ImuStepOutcome(node: Node, s: State, step: Step, after: State)
    requires Consistent(node, s) && after == Next(node, s, step)
    ensures s.imuArrivals <= after.imuArrivals && |after.imus| == |s.imus|
    ensures ImuEndedBy(s, after) == [] ==>
      && after.fused == s.fused
      && |after.imuArrivals| - (if after.imuPc.Resting? then 0 else 1)
         == |s.imuArrivals| - (if s.imuPc.Resting? then 0 else 1)
    ensures s.imuPc.Resting? && ImuEndedBy(s, after) != [] ==>
      && after.fused == s.fused && |after.imuArrivals| == |s.imuArrivals| + 1
      && ImuEndedBy(s, after) == [HandledImu(after.imus, after.cache)] && !ImusDue(after.imus)
    ensures !s.imuPc.Resting? && ImuEndedBy(s, after) != [] ==> after.imuArrivals == s.imuArrivals
  {
    hide CombinedCloud, WellFormed, HasXyz, Synchronous, CloudsDue, FusedImuBy;
  }

  lemma ImuHandledStays(s: State, after: State, log: seq<HandledImu>, more: seq<HandledImu>, k: nat)
    requires k < |log| && k < |s.imuArrivals| && HandledImuOk(s, log, k)
    requires s.imuArrivals <= after.imuArrivals && |after.imus| == |s.imus|
    requires s.fused <= after.fused
    requires forall p :: |s.fused| <= p < |after.fused| ==> after.fused[p].arrival != k + 1
    ensures HandledImuOk(after, log + more, k)
  {
    hide Fuses, Latest;
    assert after.imuArrivals[..k + 1] == s.imuArrivals[..k + 1];
    if FusedAt(s, k + 1) {
      var p :| 0 <= p < |s.fused| && s.fused[p].arrival == k + 1;
      assert after.fused[p].arrival == k + 1;
    }
  }

  lemma NotYetFused(node: Node, s: State, arrival: nat)
    requires ImuLogOk(node, s)
    requires arrival > |s.imuArrivals| || (arrival == |s.imuArrivals| && !s.imuPc.Resting?)
    ensures !FusedAt(s, arrival)
  {
    hide FusionOk;
    forall p | 0 <= p < |s.fused| ensures s.fused[p].arrival != arrival {
      assert ImuTicks(s.fused)[p] == s.fused[p].arrival;
    }
  }

  lemma StepHandlesImu(node: Node, s: State, step: Step, after: State, log: seq<HandledImu>)
    requires Consistent(node, s) && Consistent(node, after) && after == Next(node, s, step)
    requires ImuLogOk(node, s) && AllImusHandled(s, log)
    ensures AllImusHandled(after, log + ImuEndedBy(s, after))
  {
    hide Next, ImuLogOk, Fuses, FusedAt, ImusDue, HandledImuOk, Consistent, Latest;
    var ended := ImuEndedBy(s, after);
    ImuStepOutcome(node, s, step, after);
    if ended == [] {
      assert log + ended == log;
      forall k | 0 <= k < |log| ensures HandledImuOk(after, log, k) { ImuHandledStays(s, after, log, [], k); }
    } else {
      LastImuHandled(node, s, step, after, log);
    }
  }

  lemma LastImuHandled(node: Node, s: State, step: Step, after: State, log: seq<HandledImu>)
    requires Consistent(node, s) && Consistent(node, after) && after == Next(node, s, step)
    requires ImuLogOk(node, s) && AllImusHandled(s, log) && ImuEndedBy(s, after) != []
    ensures AllImusHandled(after, log + ImuEndedBy(s, after))
  {
    hide Next, ImuLogOk, FusedAt, ImusDue, CachedUpTo, FusedImu, HandledImuOk, Latest;
    hide CloudPcConsistent, ImuPcConsistent;
    var ended, n := ImuEndedBy(s, after), |log|;
    ImuStepOutcome(node, s, step, after);
    assert n + 1 == |after.imuArrivals| && after.imuArrivals[..n + 1] == after.imuArrivals;
    NotYetFused(node, s, n + 1);
    if !s.imuPc.Resting? { ImuCallbackIsAtomic(node, s, step); }
    forall k | 0 <= k < n ensures HandledImuOk(after, log + ended, k) { ImuHandledStays(s, after, log, ended, k); }
    NewImuHandled(s, after, log, ended[0]);
  }

  lemma NewImuHandled(s: State, after: State, log: seq<HandledImu>, h: HandledImu)
    requires |log| + 1 == |after.imuArrivals| && |h.slots| == |after.imus|
    requires forall i :: 0 <= i < |h.slots| ==> h.slots[i] == Latest(after.imuArrivals, i)
    requires !FusedAt(s, |log| + 1)
    requires Fuses(h) ==> |after.fused| == |s.fused| + 1 && after.fused[|s.fused|].arrival == |log| + 1
    requires !Fuses(h) ==> after.fused == s.fused
    ensures HandledImuOk(after, log + [h], |log|)
  {
    hide Fuses, Latest;
    assert after.imuArrivals[..|log| + 1] == after.imuArrivals;
  }

  /** On every run each IMU arrival is handled once, and it fuses if and only if every topic has a sample, all of them
      are in tolerance, and the cloud path has cached a transform for every IMU index by the callback's last access. */
  lemma {:induction false} ImuArrivalsFuseExactlyWhen(node: Node, steps: seq<Step>)
    ensures AllImusHandled(Exec(node, steps), HandledImus(node, steps))
  {
    if steps != [] {
      hide AllImusHandled, ImuEndedBy, Next, Consistent, ImuLogOk;
      var init := steps[..|steps| - 1];
      ImuArrivalsFuseExactlyWhen(node, init);
      RunLogs(node, init);
      StepHandlesImu(node, Exec(node, init), steps[|steps| - 1], Exec(node, steps), HandledImus(node, init));
    }
  }
}
