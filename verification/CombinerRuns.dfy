/** Every interleaving of the two callbacks. The cloud callback holds `_clouds_mutex` and the IMU callback
    `_imus_mutex` from start to end; between them they only share the transform cache, one lock per access.
    A step of this module is what one thread does while it holds that lock once. */
module CombinerRuns {
  import opened Words
  import opened PointCloud
  import opened Combiner

  /** A cloud callback in progress at input `i`: the transforms used so far, the cache when the callback started and
      the TF answers it has received (None where it has not asked or TF failed). */
  datatype CloudCall = CloudCall(i: nat, used: seq<Transform>,
                                 start: seq<Option<Transform>>, answers: seq<Option<Transform>>)

  datatype CloudPc =
    | Idle
    | Ask(call: CloudCall)                  // about to read the cache
    | Look(call: CloudCall)                 // found nothing, about to ask TF without the lock
    | Store(call: CloudCall, t: Transform)  // TF answered, about to fill the slot

  datatype ImuPc =
    | Resting
    | ReadAngular(angular: seq<Transform>, linear: seq<Transform>)
    | ReadLinear(angular: seq<Transform>, linear: seq<Transform>)

  /** A publication: how many clouds (or IMU samples) had arrived, the inputs it was made of, and the message. */
  datatype Publication = Publication(arrival: nat, inputs: seq<Cloud>, out: Cloud)
  datatype Fusion = Fusion(arrival: nat, inputs: seq<Imu>, out: Imu)

  datatype State = State(
    clouds: seq<Option<Cloud>>, imus: seq<Option<Imu>>, cache: seq<Option<Transform>>,
    cloudPc: CloudPc, imuPc: ImuPc,
    cloudArrivals: seq<(nat, Cloud)>, imuArrivals: seq<(nat, Imu)>,
    published: seq<Publication>, fused: seq<Fusion>)

  datatype Node = Node(geometry: Geometry, target: string, cloudTopics: nat, imuTopics: nat)

  datatype Step =
    | CloudArrives(index: nat, cloud: Cloud)
    | CloudReadsCache
    | TfAnswers(answer: Option<Transform>)
    | CloudStores
    | ImuArrives(imuIndex: nat, imu: Imu)
    | ImuReadsAngular
    | ImuReadsLinear

  function Empty<T>(n: nat): seq<Option<T>> { seq(n, _ => None) }

  function Initial(node: Node): State {
    State(Empty(node.cloudTopics), Empty(ImuTopics(node.cloudTopics, node.imuTopics)), Empty(node.cloudTopics),
          Idle, Resting, [], [], [], [])
  }

  // ---- one step; a step that its mutex or program counter forbids changes nothing ----

  ghost function Next(node: Node, s: State, step: Step): State
    requires Consistent(node, s)
  {
    match step
    case CloudArrives(index, cloud) =>
      if s.cloudPc.Idle? && index < |s.clouds| && WellFormed(cloud) then CloudStarts(s, index, cloud) else s
    case CloudReadsCache =>
      if s.cloudPc.Ask? then
        var call := s.cloudPc.call;
        if s.cache[call.i].Some? then Proceed(node, s, call, s.cache[call.i].value)
        else s.(cloudPc := Look(call))
      else s
    case TfAnswers(answer) =>
      if s.cloudPc.Look? then
        if answer.None? then s.(cloudPc := Idle)
        else
          var call := s.cloudPc.call;
          s.(cloudPc := Store(call.(answers := call.answers[call.i := answer]), answer.value))
      else s
    case CloudStores =>
      if s.cloudPc.Store? then
        var call, t := s.cloudPc.call, s.cloudPc.t;
        Proceed(node, s.(cache := s.cache[call.i := Some(t)]), call, t)
      else s
    case ImuArrives(index, imu) =>
      if s.imuPc.Resting? && index < |s.imus| then ImuStarts(s, index, imu) else s
    case ImuReadsAngular =>
      if s.imuPc.ReadAngular? then
        var i := |s.imuPc.angular|;
        if i < |s.cache| && s.cache[i].Some?
        then s.(imuPc := ReadLinear(s.imuPc.angular + [s.cache[i].value], s.imuPc.linear))
        else s.(imuPc := Resting)
      else s
    case ImuReadsLinear =>
      if s.imuPc.ReadLinear? then
        var i := |s.imuPc.linear|;
        if i < |s.cache| && s.cache[i].Some?
        then ImuProceeds(node, s, s.imuPc.angular, s.imuPc.linear + [s.cache[i].value])
        else s.(imuPc := Resting)
      else s
  }

  function CloudStarts(s: State, index: nat, cloud: Cloud): State
    requires index < |s.clouds|
  {
    var clouds := s.clouds[index := Some(cloud)];
    s.(clouds := clouds,
       cloudArrivals := s.cloudArrivals + [(index, cloud)],
       cloudPc := if CloudsDue(clouds) then Ask(CloudCall(0, [], s.cache, Empty(|s.cache|))) else Idle)
  }

  /** Input `call.i` has its transform: it is moved, and after the last input the result is built and published. */
  ghost function Proceed(node: Node, s: State, call: CloudCall, t: Transform): State
    requires call.i < |s.clouds| && Filled(s.clouds) && |call.used| == call.i
    requires SlotsWellFormed(s.clouds) && Usable(Values(s.clouds)[..call.i])
  {
    var clouds, used := Values(s.clouds), call.used + [t];
    if !HasXyz(clouds[call.i].fields) then s.(cloudPc := Idle)
    else if call.i + 1 < |clouds| then s.(cloudPc := Ask(call.(i := call.i + 1, used := used)))
    else
      assert Usable(clouds) by { assert forall j :: 0 <= j < call.i ==> clouds[..call.i][j] == clouds[j]; }
      var out := CombinedCloud(node.geometry, node.target, clouds, used);
      var published :=
        if out.Some? then s.published + [Publication(|s.cloudArrivals|, clouds, out.value)] else s.published;
      s.(cloudPc := Idle, published := published)
  }

  function ImuStarts(s: State, index: nat, imu: Imu): State
    requires index < |s.imus|
  {
    var imus := s.imus[index := Some(imu)];
    s.(imus := imus,
       imuArrivals := s.imuArrivals + [(index, imu)],
       imuPc := if ImusDue(imus) then ReadAngular([], []) else Resting)
  }

  function ImuProceeds(node: Node, s: State, angular: seq<Transform>, linear: seq<Transform>): State
    requires Filled(s.imus) && 0 < |angular| == |linear| <= |s.imus|
  {
    var imus := Values(s.imus);
    if |linear| < |imus| then s.(imuPc := ReadAngular(angular, linear))
    else s.(imuPc := Resting,
            fused := s.fused + [Fusion(|s.imuArrivals|, imus, FusedImuBy(node.target, imus, angular, linear))])
  }

  // ---- what every step keeps ----

  /** The slots hold what arrived last on each topic. */
  function Latest<T>(arrivals: seq<(nat, T)>, i: nat): Option<T> {
    if arrivals == [] then None
    else
      var last := arrivals[|arrivals| - 1];
      if last.0 == i then Some(last.1) else Latest(arrivals[..|arrivals| - 1], i)
  }

  ghost predicate HoldsLatest<T(!new)>(slots: seq<Option<T>>, arrivals: seq<(nat, T)>) {
    forall i :: 0 <= i < |slots| ==> slots[i] == Latest(arrivals, i)
  }

  /** The transforms a callback has used are in the cache, in order. */
  ghost predicate Backed(used: seq<Transform>, cache: seq<Option<Transform>>) {
    |used| <= |cache| && forall j :: 0 <= j < |used| ==> cache[j] == Some(used[j])
  }

  /** What a running cloud callback relies on; it alone writes the cache, so the cache is what an uninterrupted
      callback would have made of it by now. */
  ghost predicate CallConsistent(s: State, call: CloudCall) {
    && CloudsDue(s.clouds)
    && call.i < |s.clouds| && |call.used| == call.i
    && Backed(call.used, s.cache)
    && |call.start| == |call.answers| == |s.cache| == |s.clouds|
    && (forall j :: 0 <= j < call.i ==> Ready(s.clouds[j].value, call.start[j], call.answers[j]))
    && s.cache == CacheAfter(call.start, call.answers, call.i)
  }

  /** No TF answer for input `from` or later. */
  predicate NoAnswers(answers: seq<Option<Transform>>, from: nat) {
    forall j :: from <= j < |answers| ==> answers[j].None?
  }

  ghost predicate CloudPcConsistent(s: State) {
    match s.cloudPc
    case Idle => true
    case Ask(call) => CallConsistent(s, call) && NoAnswers(call.answers, call.i)
    case Look(call) => CallConsistent(s, call) && NoAnswers(call.answers, call.i) && SlotEmpty(s, call)
    case Store(call, t) => CallConsistent(s, call) && NoAnswers(call.answers, call.i + 1) && SlotEmpty(s, call)
                           && call.answers[call.i] == Some(t)
  }

  /** The slot that is about to be filled is still empty: nobody else fills it. */
  ghost predicate SlotEmpty(s: State, call: CloudCall) { call.i < |s.cache| && s.cache[call.i].None? }

  ghost predicate ImuPcConsistent(s: State) {
    match s.imuPc
    case Resting => true
    case ReadAngular(angular, linear) =>
      ImusDue(s.imus) && |angular| == |linear| < |s.imus| && Backed(angular, s.cache) && Backed(linear, s.cache)
    case ReadLinear(angular, linear) =>
      ImusDue(s.imus) && |angular| == |linear| + 1 <= |s.imus| && Backed(angular, s.cache) && Backed(linear, s.cache)
  }

  ghost predicate Consistent(node: Node, s: State) {
    && node.cloudTopics == |s.clouds| == |s.cache| && |s.imus| == ImuTopics(node.cloudTopics, node.imuTopics)
    && SlotsWellFormed(s.clouds)
    && CloudPcConsistent(s) && ImuPcConsistent(s)
    && HoldsLatest(s.clouds, s.cloudArrivals) && HoldsLatest(s.imus, s.imuArrivals)
  }

  // ---- the cache only grows ----

  ghost predicate Grows(before: seq<Option<Transform>>, after: seq<Option<Transform>>) {
    |after| == |before| && forall j :: 0 <= j < |before| && before[j].Some? ==> after[j] == before[j]
  }

  /** A slot, once filled, is never written again. */
  lemma StepGrowsCache(node: Node, s: State, step: Step)
    requires Consistent(node, s)
    ensures Grows(s.cache, Next(node, s, step).cache)
  {
  }

  // ---- consistency, step by step ----

  lemma CloudStartsConsistent(node: Node, s: State, index: nat, cloud: Cloud)
    requires Consistent(node, s) && s.cloudPc.Idle? && index < |s.clouds| && WellFormed(cloud)
    ensures Consistent(node, CloudStarts(s, index, cloud))
  {
  }

  lemma ImuStartsConsistent(node: Node, s: State, index: nat, imu: Imu)
    requires Consistent(node, s) && s.imuPc.Resting? && index < |s.imus|
    ensures Consistent(node, ImuStarts(s, index, imu))
  {
  }

  /** A callback whose current slot is filled: from the cache or by its own store. */
  ghost predicate SlotDone(s: State, call: CloudCall, t: Transform) {
    && CloudsDue(s.clouds) && SlotsWellFormed(s.clouds)
    && call.i < |s.clouds| && |call.used| == call.i
    && |call.start| == |call.answers| == |s.cache| == |s.clouds|
    && Backed(call.used + [t], s.cache)
    && (forall j :: 0 <= j < call.i ==> Ready(s.clouds[j].value, call.start[j], call.answers[j]))
    && InForce(call.start[call.i], call.answers[call.i]) == Some(t)
    && s.cache == CacheAfter(call.start, call.answers, call.i + 1)
    && NoAnswers(call.answers, call.i + 1)
  }

  lemma HitIsDone(s: State, call: CloudCall)
    requires SlotsWellFormed(s.clouds) && CallConsistent(s, call) && NoAnswers(call.answers, call.i)
    requires s.cache[call.i].Some?
    ensures SlotDone(s, call, s.cache[call.i].value)
  {
  }

  lemma StoreIsDone(s: State, call: CloudCall, t: Transform, stored: State)
    requires SlotsWellFormed(s.clouds) && CallConsistent(s, call) && NoAnswers(call.answers, call.i + 1)
    requires SlotEmpty(s, call) && call.answers[call.i] == Some(t)
    requires stored == s.(cache := s.cache[call.i := Some(t)])
    ensures SlotDone(stored, call, t) && Grows(s.cache, stored.cache)
  {
  }

  lemma UsablePrefix(s: State, call: CloudCall)
    requires SlotsWellFormed(s.clouds) && Filled(s.clouds) && call.i <= |s.clouds| == |call.start| == |call.answers|
    requires forall j :: 0 <= j < call.i ==> Ready(s.clouds[j].value, call.start[j], call.answers[j])
    ensures Usable(Values(s.clouds)[..call.i])
  {
  }

  lemma ProceedPc(node: Node, s: State, call: CloudCall, t: Transform)
    requires SlotDone(s, call, t) && Usable(Values(s.clouds)[..call.i])
    ensures CloudPcConsistent(Proceed(node, s, call, t))
  {
  }

  lemma ReadConsistent(node: Node, s: State)
    requires Consistent(node, s) && s.cloudPc.Ask?
    ensures Consistent(node, Next(node, s, CloudReadsCache))
  {
    var call := s.cloudPc.call;
    if s.cache[call.i].Some? {
      HitIsDone(s, call);
      UsablePrefix(s, call);
      ProceedPc(node, s, call, s.cache[call.i].value);
    }
  }

  lemma StoreConsistent(node: Node, s: State)
    requires Consistent(node, s) && s.cloudPc.Store?
    ensures Consistent(node, Next(node, s, CloudStores))
  {
    var call, t := s.cloudPc.call, s.cloudPc.t;
    var stored := s.(cache := s.cache[call.i := Some(t)]);
    StoreIsDone(s, call, t, stored);
    UsablePrefix(stored, call);
    ProceedPc(node, stored, call, t);
    ImuPcGrows(s, stored.cache);
  }

  lemma TfConsistent(node: Node, s: State, answer: Option<Transform>)
    requires Consistent(node, s) && s.cloudPc.Look?
    ensures Consistent(node, Next(node, s, TfAnswers(answer)))
  {
    if answer.Some? { AnswerConsistent(s, s.cloudPc.call, answer); }
  }

  lemma StepConsistent(node: Node, s: State, step: Step)
    requires Consistent(node, s)
    ensures Consistent(node, Next(node, s, step))
  {
    match step
    case CloudArrives(index, cloud) =>
      if s.cloudPc.Idle? && index < |s.clouds| && WellFormed(cloud) { CloudStartsConsistent(node, s, index, cloud); }
    case CloudReadsCache => if s.cloudPc.Ask? { ReadConsistent(node, s); }
    case TfAnswers(answer) => if s.cloudPc.Look? { TfConsistent(node, s, answer); }
    case CloudStores => if s.cloudPc.Store? { StoreConsistent(node, s); }
    case ImuArrives(index, imu) => if s.imuPc.Resting? && index < |s.imus| { ImuStartsConsistent(node, s, index, imu); }
    case ImuReadsAngular => ImuReadsConsistent(node, s, step);
    case ImuReadsLinear => ImuReadsConsistent(node, s, step);
  }

  lemma ImuReadsConsistent(node: Node, s: State, step: Step)
    requires Consistent(node, s) && (step.ImuReadsAngular? || step.ImuReadsLinear?)
    ensures Consistent(node, Next(node, s, step))
  {
    hide FusedImuBy, Synchronous, WellFormed;
  }

  lemma AnswerConsistent(s: State, call: CloudCall, answer: Option<Transform>)
    requires CallConsistent(s, call) && NoAnswers(call.answers, call.i)
    ensures CallConsistent(s, call.(answers := call.answers[call.i := answer]))
    ensures NoAnswers(call.answers[call.i := answer], call.i + 1)
  {
  }

  lemma ImuPcGrows(s: State, after: seq<Option<Transform>>)
    requires ImuPcConsistent(s) && Grows(s.cache, after)
    ensures ImuPcConsistent(s.(cache := after))
  {
  }
}
