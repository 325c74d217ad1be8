/** The combiner node: the two callbacks and the state they share. */
module Combiner {
  import opened Words
  import opened PointCloud
  import opened CloudTransform
  import opened CloudMerge
  import opened Vectors

  const SYNC_TOLERANCE_NS := 25_000_000
  const IMU_SYNC_TOLERANCE_NS := 10_000_000

  datatype Transform = Transform(rotation: Mat3, translation: Vec3)

  type Covariance = s: seq<real> | |s| == 9 witness [0.0, 0.0, 0.0, 0.0, 0.0, 0.0, 0.0, 0.0, 0.0]

  datatype Imu = Imu(
    stamp: nat, frameId: string, orientation: seq<real>, orientationCov: Covariance,
    angularVelocity: Vec3, angularCov: Covariance, linearAcceleration: Vec3, linearCov: Covariance)

  // ---- slots ----

  predicate Filled<T>(slots: seq<Option<T>>) { forall i :: 0 <= i < |slots| ==> slots[i].Some? }

  function Values<T>(slots: seq<Option<T>>): (r: seq<T>)
    requires Filled(slots)
    ensures |r| == |slots| && forall i :: 0 <= i < |r| ==> r[i] == slots[i].value
  {
    seq(|slots|, i requires 0 <= i < |slots| => slots[i].value)
  }

  /** All stamps lie within `tolerance` nanoseconds of each other. */
  predicate Synchronous(stamps: seq<nat>, tolerance: nat) {
    forall i, j :: 0 <= i < |stamps| && 0 <= j < |stamps| ==> stamps[i] - stamps[j] <= tolerance
  }

  function CloudStamps(clouds: seq<Cloud>): seq<nat> { seq(|clouds|, i requires 0 <= i < |clouds| => clouds[i].stamp) }

  function ImuStamps(imus: seq<Imu>): seq<nat> { seq(|imus|, i requires 0 <= i < |imus| => imus[i].stamp) }

  /** The check against the newest stamp decides pairwise synchrony. */
  method CheckTolerance(stamps: seq<nat>, tolerance: nat) returns (ok: bool)
    requires stamps != []
    ensures ok <==> Synchronous(stamps, tolerance)
  {
    var newest := stamps[0];
    for i := 0 to |stamps|
      invariant newest in stamps
      invariant forall j :: 0 <= j < i ==> stamps[j] <= newest
    {
      if stamps[i] > newest { newest := stamps[i]; }
    }
    for i := 0 to |stamps|
      invariant forall j :: 0 <= j < i ==> newest - stamps[j] <= tolerance
    {
      if newest - stamps[i] > tolerance { return false; }
    }
    ok := true;
  }

  // ---- specification of the cloud side ----

  ghost predicate SlotsWellFormed(slots: seq<Option<Cloud>>) {
    forall i :: 0 <= i < |slots| && slots[i].Some? ==> WellFormed(slots[i].value)
  }

  /** What a transform does to float32 coordinates, kept abstract (rounding, NaN). */
  type Geometry = (Transform, Xyz) -> Xyz

  function MoveOf(g: Geometry, t: Transform): Move { p => g(t, p) }

  ghost predicate Usable(clouds: seq<Cloud>) {
    forall i :: 0 <= i < |clouds| ==> WellFormed(clouds[i]) && HasXyz(clouds[i].fields)
  }

  /** How many ring numbers each cloud reserves. */
  ghost function RingSpans(g: Geometry, clouds: seq<Cloud>, xfs: seq<Transform>): (r: seq<nat>)
    requires Usable(clouds) && |clouds| == |xfs|
    ensures |r| == |clouds|
  {
    seq(|clouds|, i requires 0 <= i < |clouds| => RingSpan(clouds[i], MoveOf(g, xfs[i])))
  }

  function SumTo(s: seq<nat>, i: nat): nat
    requires i <= |s|
  {
    if i == 0 then 0 else SumTo(s, i - 1) + s[i - 1]
  }

  lemma {:induction false} SumToPrefix(s: seq<nat>, t: seq<nat>, i: nat)
    requires i <= |s|
    ensures SumTo(s + t, i) == SumTo(s, i)
  {
    if i > 0 { SumToPrefix(s, t, i - 1); }
  }

  /** The ring offset in front of cloud `i`. */
  ghost function RingBase(g: Geometry, clouds: seq<Cloud>, xfs: seq<Transform>, i: nat): nat
    requires Usable(clouds) && |clouds| == |xfs| && i <= |clouds|
  {
    SumTo(RingSpans(g, clouds, xfs), i)
  }

  ghost function MovedAll(g: Geometry, target: string, clouds: seq<Cloud>, xfs: seq<Transform>): (r: seq<Cloud>)
    requires Usable(clouds) && |clouds| == |xfs|
    ensures |r| == |clouds|
  {
    seq(|clouds|, i requires 0 <= i < |clouds| =>
      Moved(clouds[i], target, MoveOf(g, xfs[i]), RingBase(g, clouds, xfs, i)))
  }

  lemma MovedAllGrows(g: Geometry, target: string, clouds: seq<Cloud>, xfs: seq<Transform>, c: Cloud, t: Transform,
                      cs: seq<Cloud>, ts: seq<Transform>, last: Cloud)
    requires Usable(clouds) && |clouds| == |xfs| && WellFormed(c) && HasXyz(c.fields)
    requires cs == clouds + [c] && ts == xfs + [t]
    requires last == Moved(c, target, MoveOf(g, t), RingBase(g, clouds, xfs, |clouds|))
    ensures Usable(cs)
    ensures RingBase(g, cs, ts, |cs|) == RingBase(g, clouds, xfs, |clouds|) + RingSpan(c, MoveOf(g, t))
    ensures MovedAll(g, target, cs, ts) == MovedAll(g, target, clouds, xfs) + [last]
  {
    hide Moved, RingSpan, WellFormed, HasXyz, RingBase;
    RingBaseGrows(g, clouds, xfs, c, t, cs, ts);
    forall i | 0 <= i < |clouds| ensures MovedAll(g, target, cs, ts)[i] == MovedAll(g, target, clouds, xfs)[i] {
      MovedAllSame(g, target, clouds, xfs, cs, ts, i);
    }
  }

  lemma MovedAllSame(g: Geometry, target: string, clouds: seq<Cloud>, xfs: seq<Transform>,
                     cs: seq<Cloud>, ts: seq<Transform>, i: nat)
    requires Usable(clouds) && |clouds| == |xfs| && Usable(cs) && |cs| == |ts|
    requires i < |clouds| && i < |cs| && cs[i] == clouds[i] && ts[i] == xfs[i]
    requires RingBase(g, cs, ts, i) == RingBase(g, clouds, xfs, i)
    ensures MovedAll(g, target, cs, ts)[i] == MovedAll(g, target, clouds, xfs)[i]
  {
  }

  lemma RingBaseGrows(g: Geometry, clouds: seq<Cloud>, xfs: seq<Transform>, c: Cloud, t: Transform,
                      cs: seq<Cloud>, ts: seq<Transform>)
    requires Usable(clouds) && |clouds| == |xfs| && WellFormed(c) && HasXyz(c.fields)
    requires cs == clouds + [c] && ts == xfs + [t]
    ensures Usable(cs)
    ensures forall i :: 0 <= i <= |clouds| ==> RingBase(g, cs, ts, i) == RingBase(g, clouds, xfs, i)
    ensures RingBase(g, cs, ts, |cs|) == RingBase(g, clouds, xfs, |clouds|) + RingSpan(c, MoveOf(g, t))
  {
    hide RingSpan, WellFormed, HasXyz;
    var spans, last := RingSpans(g, clouds, xfs), [RingSpan(c, MoveOf(g, t))];
    assert RingSpans(g, cs, ts) == spans + last;
    forall i | 0 <= i <= |clouds| ensures SumTo(spans + last, i) == SumTo(spans, i) {
      SumToPrefix(spans, last, i);
    }
  }

  /** The outcome of the loop over the inputs, from the cache it found and the cache it leaves. */
  ghost predicate TransformedAll(g: Geometry, target: string, clouds: seq<Cloud>, cache: seq<Option<Transform>>,
                                 lookups: seq<Option<Transform>>, after: seq<Option<Transform>>,
                                 out: Option<seq<Cloud>>)
    requires |clouds| == |cache| == |lookups| == |after|
  {
    if FirstUnready(clouds, cache, lookups, 0) < |clouds| then out.None?
    else Usable(clouds) && Filled(after) && out == Some(MovedAll(g, target, clouds, Values(after)))
  }

  /** The state of the loop over the inputs before input `i`. */
  ghost predicate MovedSoFar(g: Geometry, target: string, clouds: seq<Cloud>, cache: seq<Option<Transform>>, i: nat,
                             moved: seq<Cloud>, ringOffset: nat)
    requires |clouds| == |cache| && i <= |clouds|
  {
    && Usable(clouds[..i]) && Filled(cache[..i])
    && moved == MovedAll(g, target, clouds[..i], Values(cache[..i]))
    && ringOffset == RingBase(g, clouds[..i], Values(cache[..i]), i)
  }

  lemma MovedSoFarDone(g: Geometry, target: string, clouds: seq<Cloud>, cache: seq<Option<Transform>>,
                       moved: seq<Cloud>, ringOffset: nat)
    requires |clouds| == |cache| && MovedSoFar(g, target, clouds, cache, |clouds|, moved, ringOffset)
    ensures Usable(clouds) && Filled(cache) && moved == MovedAll(g, target, clouds, Values(cache))
  {
    assert clouds[..|clouds|] == clouds && cache[..|clouds|] == cache;
  }

  lemma MovedSoFarGrows(g: Geometry, target: string, clouds: seq<Cloud>, cache: seq<Option<Transform>>, i: nat,
                        moved: seq<Cloud>, ringOffset: nat, t: Transform, next: seq<Option<Transform>>, last: Cloud)
    requires |clouds| == |cache| && i < |clouds|
    requires MovedSoFar(g, target, clouds, cache, i, moved, ringOffset)
    requires WellFormed(clouds[i]) && HasXyz(clouds[i].fields)
    requires next == cache[i := Some(t)] && last == Moved(clouds[i], target, MoveOf(g, t), ringOffset)
    ensures MovedSoFar(g, target, clouds, next, i + 1, moved + [last], ringOffset + RingSpan(clouds[i], MoveOf(g, t)))
  {
    hide Moved, RingSpan, WellFormed, HasXyz, MovedAll;
    assert next[..i + 1] == cache[..i] + [Some(t)];
    var xfs, ts := Values(cache[..i]), Values(next[..i + 1]);
    assert ts == xfs + [t];
    assert clouds[..i + 1] == clouds[..i] + [clouds[i]];
    MovedAllGrows(g, target, clouds[..i], xfs, clouds[i], t, clouds[..i + 1], ts, last);
  }

  /** The message that the latest clouds and their transforms determine. */
  ghost function CombinedCloud(g: Geometry, target: string, clouds: seq<Cloud>, xfs: seq<Transform>): Option<Cloud>
    requires Usable(clouds) && |clouds| == |xfs|
  {
    Combine(MovedAll(g, target, clouds, xfs), target)
  }

  /** The transform in force for an input: the cached one, else what TF answers. */
  function InForce(cached: Option<Transform>, lookup: Option<Transform>): Option<Transform> {
    if cached.Some? then cached else lookup
  }

  predicate Ready(c: Cloud, cached: Option<Transform>, lookup: Option<Transform>) {
    InForce(cached, lookup).Some? && HasXyz(c.fields)
  }

  /** The first input, from `from` on, that stops the callback; the number of inputs if none does. */
  ghost function FirstUnready(clouds: seq<Cloud>, cache: seq<Option<Transform>>, lookups: seq<Option<Transform>>,
                              from: nat): (r: nat)
    requires |clouds| == |cache| == |lookups| && from <= |clouds|
    ensures from <= r <= |clouds|
    decreases |clouds| - from
  {
    if from < |clouds| && Ready(clouds[from], cache[from], lookups[from])
    then FirstUnready(clouds, cache, lookups, from + 1) else from
  }

  /** FirstUnready is the least input that is not ready. */
  lemma {:induction false} FirstUnreadyIsFirst(clouds: seq<Cloud>, cache: seq<Option<Transform>>,
                                               lookups: seq<Option<Transform>>, from: nat)
    requires |clouds| == |cache| == |lookups| && from <= |clouds|
    ensures var r := FirstUnready(clouds, cache, lookups, from);
      && (forall i :: from <= i < r ==> Ready(clouds[i], cache[i], lookups[i]))
      && (r < |clouds| ==> !Ready(clouds[r], cache[r], lookups[r]))
    decreases |clouds| - from
  {
    if from < |clouds| && Ready(clouds[from], cache[from], lookups[from]) {
      FirstUnreadyIsFirst(clouds, cache, lookups, from + 1);
    }
  }

  /** The cache after the first `count` inputs have asked for their transform. */
  function CacheAfter(cache: seq<Option<Transform>>, lookups: seq<Option<Transform>>, count: nat)
    : (r: seq<Option<Transform>>)
    requires |cache| == |lookups|
    ensures |r| == |cache|
  {
    seq(|cache|, i requires 0 <= i < |cache| => if i < count then InForce(cache[i], lookups[i]) else cache[i])
  }

  /** When no input stops the callback, every cloud is usable and every slot is cached at the end. */
  lemma AllReady(clouds: seq<Cloud>, cache: seq<Option<Transform>>, lookups: seq<Option<Transform>>)
    requires |clouds| == |cache| == |lookups|
    requires FirstUnready(clouds, cache, lookups, 0) == |clouds|
    requires forall i :: 0 <= i < |clouds| ==> WellFormed(clouds[i])
    ensures Usable(clouds) && Filled(CacheAfter(cache, lookups, |clouds| + 1))
  {
    FirstUnreadyIsFirst(clouds, cache, lookups, 0);
  }

  datatype CloudOutcome = CloudOutcome(cache: seq<Option<Transform>>, out: Option<Cloud>)

  /** Every slot is filled and the stamps are within the tolerance. */
  predicate CloudsDue(slots: seq<Option<Cloud>>) {
    Filled(slots) && Synchronous(CloudStamps(Values(slots)), SYNC_TOLERANCE_NS)
  }

  /** The loop over the inputs and what follows it. */
  ghost function AllInputs(g: Geometry, target: string, clouds: seq<Cloud>, cache: seq<Option<Transform>>,
                           lookups: seq<Option<Transform>>, stop: nat): CloudOutcome
    requires |clouds| == |cache| == |lookups| && stop == FirstUnready(clouds, cache, lookups, 0)
    requires forall i :: 0 <= i < |clouds| ==> WellFormed(clouds[i])
  {
    var after := CacheAfter(cache, lookups, stop + 1);
    if stop < |clouds| then CloudOutcome(after, None)
    else
      AllReady(clouds, cache, lookups);
      CloudOutcome(after, CombinedCloud(g, target, clouds, Values(after)))
  }

  /** What a cloud callback does to the cache and what it publishes, given the slots after the arrival. */
  ghost function CloudCallback(g: Geometry, target: string, slots: seq<Option<Cloud>>, cache: seq<Option<Transform>>,
                               lookups: seq<Option<Transform>>): CloudOutcome
    requires |slots| == |cache| == |lookups| && SlotsWellFormed(slots)
  {
    if !CloudsDue(slots) then CloudOutcome(cache, None)
    else AllInputs(g, target, Values(slots), cache, lookups, FirstUnready(Values(slots), cache, lookups, 0))
  }

  /** What is published is determined by the inputs and the cache that the callback leaves. */
  lemma OutcomeDetermined(g: Geometry, target: string, clouds: seq<Cloud>, cache: seq<Option<Transform>>,
                          lookups: seq<Option<Transform>>, stop: nat, o: CloudOutcome)
    requires |clouds| == |cache| == |lookups| && stop == FirstUnready(clouds, cache, lookups, 0)
    requires forall i :: 0 <= i < |clouds| ==> WellFormed(clouds[i])
    requires o == AllInputs(g, target, clouds, cache, lookups, stop) && o.out.Some?
    ensures Usable(clouds) && Filled(o.cache) && |o.cache| == |clouds|
    ensures CombinedCloud(g, target, clouds, Values(o.cache)) == o.out
  {
    hide CombinedCloud, WellFormed, HasXyz;
    AllReady(clouds, cache, lookups);
  }

  lemma CacheAfterStep(cache: seq<Option<Transform>>, lookups: seq<Option<Transform>>, i: nat)
    requires |cache| == |lookups| && i < |cache|
    ensures CacheAfter(cache, lookups, i)[i] == cache[i]
    ensures CacheAfter(cache, lookups, i)[i := InForce(cache[i], lookups[i])] == CacheAfter(cache, lookups, i + 1)
  {
  }

  lemma CacheAfterAll(cache: seq<Option<Transform>>, lookups: seq<Option<Transform>>)
    requires |cache| == |lookups|
    ensures CacheAfter(cache, lookups, 0) == cache
    ensures CacheAfter(cache, lookups, |cache|) == CacheAfter(cache, lookups, |cache| + 1)
  {
  }

  // ---- specification of the IMU side ----

  predicate ImusDue(slots: seq<Option<Imu>>) {
    Filled(slots) && Synchronous(ImuStamps(Values(slots)), IMU_SYNC_TOLERANCE_NS)
  }

  function SumRotated(vs: seq<Vec3>, xfs: seq<Transform>): Vec3
    requires |vs| == |xfs|
  {
    if vs == [] then ZERO
    else Add(SumRotated(vs[..|vs| - 1], xfs[..|vs| - 1]), Rotate(xfs[|vs| - 1].rotation, vs[|vs| - 1]))
  }

  function AngularOf(imus: seq<Imu>): (r: seq<Vec3>)
    ensures |r| == |imus|
  { seq(|imus|, i requires 0 <= i < |imus| => imus[i].angularVelocity) }

  function LinearOf(imus: seq<Imu>): (r: seq<Vec3>)
    ensures |r| == |imus|
  { seq(|imus|, i requires 0 <= i < |imus| => imus[i].linearAcceleration) }

  /** A covariance whose first entry is negative means "unknown" and stays so; any other is divided by `n`. */
  function MeanCovariance(c: Covariance, n: real): (r: Covariance)
    requires n > 0.0
  {
    if c[0] >= 0.0 then seq(9, i requires 0 <= i < 9 => c[i] / n) else c[0 := -1.0]
  }

  /** Both vectors averaged after rotation; `xa` rotates the angular velocities and `xl` the accelerations. */
  function FusedImuBy(target: string, imus: seq<Imu>, xa: seq<Transform>, xl: seq<Transform>): Imu
    requires 0 < |imus| == |xa| == |xl|
  {
    var n := |imus| as real;
    imus[0].(
      frameId := target,
      orientationCov := imus[0].orientationCov[0 := -1.0],
      angularVelocity := Over(SumRotated(AngularOf(imus), xa), n),
      angularCov := MeanCovariance(imus[0].angularCov, n),
      linearAcceleration := Over(SumRotated(LinearOf(imus), xl), n),
      linearCov := MeanCovariance(imus[0].linearCov, n))
  }

  function FusedImu(target: string, imus: seq<Imu>, xfs: seq<Transform>): Imu
    requires 0 < |imus| == |xfs|
  {
    FusedImuBy(target, imus, xfs, xfs)
  }

  /** The cached transforms of the first `n` inputs, when all of them are cached. */
  predicate CachedUpTo(cache: seq<Option<Transform>>, n: nat) { n <= |cache| && Filled(cache[..n]) }

  lemma SumsGrow(imus: seq<Imu>, cache: seq<Option<Transform>>, i: nat)
    requires i < |imus| && i < |cache| && Filled(cache[..i]) && cache[i].Some?
    ensures Filled(cache[..i + 1])
    ensures var before, after := Values(cache[..i]), Values(cache[..i + 1]);
      && SumRotated(AngularOf(imus[..i + 1]), after)
           == Add(SumRotated(AngularOf(imus[..i]), before), Rotate(cache[i].value.rotation, imus[i].angularVelocity))
      && SumRotated(LinearOf(imus[..i + 1]), after)
           == Add(SumRotated(LinearOf(imus[..i]), before), Rotate(cache[i].value.rotation, imus[i].linearAcceleration))
  {
    var before, after := Values(cache[..i]), Values(cache[..i + 1]);
    assert after[..i] == before;
    assert AngularOf(imus[..i + 1])[..i] == AngularOf(imus[..i]);
    assert LinearOf(imus[..i + 1])[..i] == LinearOf(imus[..i]);
  }

  // ---- the node ----

  /** Without a cloud topic the constructor returns before it subscribes to any IMU topic. */
  function ImuTopics(cloudTopics: nat, imuTopics: nat): nat { if cloudTopics == 0 then 0 else imuTopics }

  class PointCloudCombiner {
    const target: string
    const geometry: Geometry
    var latestClouds: seq<Option<Cloud>>
    var latestImus: seq<Option<Imu>>
    var targetTransforms: seq<Option<Transform>>
    var published: seq<Cloud>
    var fused: seq<Imu>

    /** The constructor subscribes to at least one cloud topic, or to nothing at all. */
    constructor (target: string, geometry: Geometry, cloudTopics: nat, imuTopics: nat)
      ensures Valid() && this.target == target && this.geometry == geometry
      ensures |latestClouds| == cloudTopics && |latestImus| == ImuTopics(cloudTopics, imuTopics)
      ensures cloudTopics == 0 ==> latestImus == []
      ensures cloudTopics > 0 ==> |latestImus| == imuTopics
      ensures (forall s :: s in latestClouds ==> s.None?) && (forall s :: s in latestImus ==> s.None?)
      ensures forall s :: s in targetTransforms ==> s.None?
      ensures published == [] && fused == []
    {
      this.target, this.geometry := target, geometry;
      latestClouds := seq(cloudTopics, _ => None);
      latestImus := seq(ImuTopics(cloudTopics, imuTopics), _ => None);
      targetTransforms := seq(cloudTopics, _ => None);
      published, fused := [], [];
    }

    ghost predicate Valid()
      reads this
    {
      && |latestClouds| == |targetTransforms|
      && SlotsWellFormed(latestClouds)
    }

    /** `lookups[i]` is what TF would answer for input `i` during this callback. */
    method OnPointCloud(index: nat, msg: Cloud, lookups: seq<Option<Transform>>)
      requires Valid() && index < |latestClouds| && |lookups| == |latestClouds| && WellFormed(msg)
      modifies this`latestClouds, this`targetTransforms, this`published
      ensures Valid()
      ensures latestClouds == old(latestClouds)[index := Some(msg)]
      ensures var o := CloudCallback(geometry, target, latestClouds, old(targetTransforms), lookups);
        && targetTransforms == o.cache
        && published == old(published) + if o.out.Some? then [o.out.value] else []
    {
      latestClouds := latestClouds[index := Some(msg)];
      TryPublishCombined(lookups);
    }

    method TryPublishCombined(lookups: seq<Option<Transform>>)
      requires Valid() && latestClouds != [] && |lookups| == |latestClouds|
      modifies this`targetTransforms, this`published
      ensures Valid()
      ensures var o := CloudCallback(geometry, target, latestClouds, old(targetTransforms), lookups);
        && targetTransforms == o.cache
        && published == old(published) + if o.out.Some? then [o.out.value] else []
    {
      hide WellFormed, HasXyz, MovedAll, Combine;
      if !Filled(latestClouds) { return; }
      var clouds := Values(latestClouds);
      var ok := CheckTolerance(CloudStamps(clouds), SYNC_TOLERANCE_NS);
      if !ok { return; }
      var transformed := TransformAll(clouds, lookups);
      if transformed.None? { return; }
      var combined := BuildCombinedCloud(transformed.value, target);
      if combined.Some? { published := published + [combined.value]; }
    }

    /** The loop of try_publish_combined: every input in turn until one of them is not ready. */
    method TransformAll(clouds: seq<Cloud>, lookups: seq<Option<Transform>>) returns (out: Option<seq<Cloud>>)
      requires |clouds| == |targetTransforms| == |lookups|
      requires forall i :: 0 <= i < |clouds| ==> WellFormed(clouds[i])
      modifies this`targetTransforms
      ensures targetTransforms ==
        CacheAfter(old(targetTransforms), lookups, FirstUnready(clouds, old(targetTransforms), lookups, 0) + 1)
      ensures TransformedAll(geometry, target, clouds, old(targetTransforms), lookups, targetTransforms, out)
    {
      hide Moved, RingSpan, WellFormed, HasXyz;
      ghost var cache := targetTransforms;
      ghost var stop := FirstUnready(clouds, cache, lookups, 0);
      var moved: seq<Cloud> := [];
      var ringOffset := 0;
      CacheAfterAll(cache, lookups);
      for i := 0 to |clouds|
        invariant FirstUnready(clouds, cache, lookups, i) == stop
        invariant targetTransforms == CacheAfter(cache, lookups, i)
        invariant MovedSoFar(geometry, target, clouds, targetTransforms, i, moved, ringOffset)
      {
        CacheAfterStep(cache, lookups, i);
        ghost var before := targetTransforms;
        var c, nextOffset := TransformToTargetFrame(i, clouds[i], lookups[i], ringOffset);
        if c.None? { assert stop == i; return None; }
        MovedSoFarGrows(geometry, target, clouds, before, i, moved, ringOffset, targetTransforms[i].value,
                        targetTransforms, c.value);
        moved, ringOffset := moved + [c.value], nextOffset;
      }
      assert stop == |cache|;
      CacheAfterAll(cache, lookups);
      assert targetTransforms == CacheAfter(cache, lookups, stop + 1);
      MovedSoFarDone(geometry, target, clouds, targetTransforms, moved, ringOffset);
      out := Some(moved);
    }

    method TransformToTargetFrame(index: nat, c: Cloud, lookup: Option<Transform>, ringOffset: nat)
      returns (out: Option<Cloud>, nextOffset: nat)
      requires index < |targetTransforms| && WellFormed(c)
      modifies this`targetTransforms
      ensures targetTransforms == old(targetTransforms)[index := InForce(old(targetTransforms)[index], lookup)]
      ensures var t := InForce(old(targetTransforms)[index], lookup);
        if Ready(c, old(targetTransforms)[index], lookup)
        then out == Some(Moved(c, target, MoveOf(geometry, t.value), ringOffset))
          && nextOffset == ringOffset + RingSpan(c, MoveOf(geometry, t.value))
        else out.None?
    {
      var t := GetTransform(index, lookup);
      if t.None? { return None, ringOffset; }
      out, nextOffset := TransformCloud(c, target, MoveOf(geometry, t.value), ringOffset);
    }

    /** get_transform_to_target_frame: the cache first, then TF; a TF answer is cached for good. */
    method GetTransform(index: nat, lookup: Option<Transform>) returns (t: Option<Transform>)
      modifies this`targetTransforms
      ensures t == if index < |old(targetTransforms)| then InForce(old(targetTransforms)[index], lookup) else lookup
      ensures targetTransforms ==
        if index < |old(targetTransforms)| then old(targetTransforms)[index := t] else old(targetTransforms)
    {
      if index < |targetTransforms| && targetTransforms[index].Some? { return targetTransforms[index]; }
      if lookup.None? { return None; }
      if index < |targetTransforms| { targetTransforms := targetTransforms[index := lookup]; }
      t := lookup;
    }

    method OnImu(index: nat, msg: Imu)
      requires index < |latestImus|
      modifies this`latestImus, this`fused
      ensures latestImus == old(latestImus)[index := Some(msg)]
      ensures fused == old(fused) +
        if ImusDue(latestImus) && CachedUpTo(targetTransforms, |latestImus|)
        then [FusedImu(target, Values(latestImus), Values(targetTransforms[..|latestImus|]))] else []
    {
      latestImus := latestImus[index := Some(msg)];
      TryPublishCombinedImu();
    }

    method TryPublishCombinedImu()
      requires latestImus != []
      modifies this`fused
      ensures fused == old(fused) +
        if ImusDue(latestImus) && CachedUpTo(targetTransforms, |latestImus|)
        then [FusedImu(target, Values(latestImus), Values(targetTransforms[..|latestImus|]))] else []
    {
      if !Filled(latestImus) { return; }
      var imus := Values(latestImus);
      var ok := CheckTolerance(ImuStamps(imus), IMU_SYNC_TOLERANCE_NS);
      if !ok { return; }
      var sums := SumVectors(imus);
      if sums.None? { return; }
      var n := |imus| as real;
      var first := imus[0];
      fused := fused + [first.(
        frameId := target,
        orientationCov := first.orientationCov[0 := -1.0],
        angularVelocity := Over(sums.value.0, n),
        angularCov := MeanCovariance(first.angularCov, n),
        linearAcceleration := Over(sums.value.1, n),
        linearCov := MeanCovariance(first.linearCov, n))];
    }

    method SumVectors(imus: seq<Imu>) returns (sums: Option<(Vec3, Vec3)>)
      ensures sums.Some? <==> CachedUpTo(targetTransforms, |imus|)
      ensures sums.Some? ==>
        var xfs := Values(targetTransforms[..|imus|]);
        sums.value == (SumRotated(AngularOf(imus), xfs), SumRotated(LinearOf(imus), xfs))
    {
      var angular, linear := ZERO, ZERO;
      for i := 0 to |imus|
        invariant CachedUpTo(targetTransforms, i)
        invariant angular == SumRotated(AngularOf(imus[..i]), Values(targetTransforms[..i]))
        invariant linear == SumRotated(LinearOf(imus[..i]), Values(targetTransforms[..i]))
      {
        var av := TransformImuVector(i, imus[i].angularVelocity);
        if av.None? { assert |imus| <= |targetTransforms| ==> targetTransforms[..|imus|][i].None?; return None; }
        var la := TransformImuVector(i, imus[i].linearAcceleration);
        angular, linear := Add(angular, av.value), Add(linear, la.value);
        SumsGrow(imus, targetTransforms, i);
      }
      assert imus[..|imus|] == imus;
      sums := Some((angular, linear));
    }

    method TransformImuVector(index: nat, v: Vec3) returns (r: Option<Vec3>)
      ensures r == if index < |targetTransforms| && targetTransforms[index].Some?
                   then Some(Rotate(targetTransforms[index].value.rotation, v)) else None
    {
      var transform := None;
      if index < |targetTransforms| { transform := targetTransforms[index]; }
      if transform.None? { return None; }
      r := Some(Rotate(transform.value.rotation, v));
    }
  }
}
