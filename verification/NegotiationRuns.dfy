/** What holds on every run of the device thread, for every interleaving with start() and stop(). */
module NegotiationRuns {
  import opened Words
  import opened Modes
  import opened Negotiation

  function Exec(cfg: Config, dev: Device, inputs: seq<Input>): State {
    if inputs == [] then Initial(dev)
    else Next(cfg, Exec(cfg, dev, inputs[..|inputs| - 1]), inputs[|inputs| - 1])
  }

  /** The device told the truth all along, whenever it was listened to. */
  predicate HonestRun(cfg: Config, dev: Device, inputs: seq<Input>) {
    inputs != [] ==>
      && HonestRun(cfg, dev, inputs[..|inputs| - 1])
      && Honest(cfg, Exec(cfg, dev, inputs[..|inputs| - 1]), inputs[|inputs| - 1])
  }

  lemma {:induction false} RunKeepsOrder(cfg: Config, dev: Device, inputs: seq<Input>)
    ensures Orderly(cfg, Exec(cfg, dev, inputs))
  {
    if inputs != [] {
      hide Next, Orderly;
      RunKeepsOrder(cfg, dev, inputs[..|inputs| - 1]);
      StepKeepsOrder(cfg, Exec(cfg, dev, inputs[..|inputs| - 1]), inputs[|inputs| - 1]);
    }
  }

  lemma {:induction false} RunKeepsInv(cfg: Config, dev: Device, inputs: seq<Input>)
    requires HonestRun(cfg, dev, inputs)
    ensures Inv(cfg, Exec(cfg, dev, inputs))
  {
    if inputs != [] {
      hide Next, Honest, Inv;
      RunKeepsInv(cfg, dev, inputs[..|inputs| - 1]);
      StepKeepsInv(cfg, Exec(cfg, dev, inputs[..|inputs| - 1]), inputs[|inputs| - 1]);
    }
  }

  // ---- safety ----

  function Begins(events: seq<Event>): nat {
    if events == [] then 0 else Begins(events[..|events| - 1]) + if events[|events| - 1].Begun? then 1 else 0
  }

  function Ups(events: seq<Event>): nat {
    if events == [] then 0 else Ups(events[..|events| - 1]) + if events[|events| - 1].Up? then 1 else 0
  }

  function Downs(events: seq<Event>): nat {
    if events == [] then 0 else Downs(events[..|events| - 1]) + if events[|events| - 1].Down? then 1 else 0
  }

  lemma {:induction false} PhasesCount(events: seq<Event>)
    requires PhaseAfter(events).Some?
    ensures Begins(events) ==
      Downs(events) + if PhaseAfter(events) == Some(Outside) then 0 else 1
    ensures Ups(events) <= Begins(events) - if PhaseAfter(events) == Some(Negotiating) then 1 else 0
    ensures events != [] && PhaseAfter(events) == Some(Outside) ==> events[|events| - 1].Down?
  {
    if events != [] { PhasesCount(events[..|events| - 1]); }
  }

  lemma {:induction false} PhasePrefix(events: seq<Event>, n: nat)
    requires n <= |events| && PhaseAfter(events).Some?
    ensures PhaseAfter(events[..n]).Some?
  {
    if n < |events| {
      PhasePrefix(events[..|events| - 1], n);
      assert events[..|events| - 1][..n] == events[..n];
    } else {
      assert events[..n] == events;
    }
  }

  lemma {:induction false} StaysAnnounced(events: seq<Event>, i: nat, n: nat)
    requires i < n <= |events| && PhaseAfter(events).Some? && events[i].Up?
    requires forall k :: i < k < n ==> !events[k].Down?
    ensures PhaseAfter(events[..n]) == Some(Announced)
  {
    PhasePrefix(events, n);
    assert events[..n][..n - 1] == events[..n - 1] && events[..n][n - 1] == events[n - 1];
    if i < n - 1 { StaysAnnounced(events, i, n - 1); }
  }

  /** Between two announcements of a connection lies a closing notice. */
  lemma UpsAreSeparated(events: seq<Event>, i: nat, j: nat)
    requires i < j < |events| && PhaseAfter(events).Some? && events[i].Up? && events[j].Up?
    ensures exists k :: i < k < j && events[k].Down?
  {
    PhasePrefix(events, j + 1);
    assert events[..j + 1][..j] == events[..j] && events[..j + 1][j] == events[j];
    if forall k :: i < k < j ==> !events[k].Down? { StaysAnnounced(events, i, j); }
  }

  /** On every run, whatever the device does: the callbacks come in turn, between two announcements of a connection lies
      the notice that it is closed, and a run that has ended has given that notice exactly once, last. */
  lemma CallbacksInOrder(cfg: Config, dev: Device, inputs: seq<Input>, s: State)
    requires s == Exec(cfg, dev, inputs)
    ensures forall n :: 0 <= n <= |s.events| ==> PhaseAfter(s.events[..n]).Some?
    ensures forall i, j :: 0 <= i < j < |s.events| && s.events[i].Up? && s.events[j].Up? ==>
      exists k :: i < k < j && s.events[k].Down?
    ensures Ups(s.events) <= Begins(s.events)
    ensures s.pc.Ended? ==> Begins(s.events) == Downs(s.events)
    ensures s.pc.Ended? ==> s.events != [] && s.events[|s.events| - 1].Down?
  {
    hide PortOk, SentOk;
    RunKeepsOrder(cfg, dev, inputs);
    PhasesCount(s.events);
    forall n | 0 <= n <= |s.events| ensures PhaseAfter(s.events[..n]).Some? { PhasePrefix(s.events, n); }
    forall i, j | 0 <= i < j < |s.events| && s.events[i].Up? && s.events[j].Up?
      ensures exists k :: i < k < j && s.events[k].Down?
    {
      UpsAreSeparated(s.events, i, j);
    }
    if s.pc.Ended? { EndedHasEvents(cfg, dev, inputs, s); }
  }

  /** On every run in which the device tells the truth whenever it is listened to, a connection is announced only with
      both settings in force, after at most three passes. */
  lemma NegotiationIsSafe(cfg: Config, dev: Device, inputs: seq<Input>, s: State)
    requires HonestRun(cfg, dev, inputs) && s == Exec(cfg, dev, inputs)
    ensures forall i :: 0 <= i < |s.events| ==> UpOk(cfg, s.events[i])
    ensures s.passes <= 3
  {
    hide UpOk, Negotiated, Orderly;
    RunKeepsInv(cfg, dev, inputs);
  }

  lemma {:induction false} EndedHasEvents(cfg: Config, dev: Device, inputs: seq<Input>, s: State)
    requires s == Exec(cfg, dev, inputs) && !s.pc.Idle?
    ensures s.events != []
  {
    hide SetupCommands, Contains, LookupFrom, ModeText, Obey;
    if inputs != [] {
      var before := Exec(cfg, dev, inputs[..|inputs| - 1]);
      if !before.pc.Idle? { EndedHasEvents(cfg, dev, inputs[..|inputs| - 1], before); }
    }
  }

  /** While streaming, on every run, the device has been sent exactly the setup commands since the announcement, and the
      port is open. A slave waits for its trigger input, any other device runs freely with the wanted period; it streams
      in binary with IMU data. At its next startup it does so too, sends no frames, and its trigger input is
      disabled. */
  lemma StreamingIsSetUp(cfg: Config, dev: Device, inputs: seq<Input>, s: State)
    requires s == Exec(cfg, dev, inputs) && (s.pc.Stream? || s.pc.Frame?)
    ensures s.sent == SetupCommands(cfg) && s.serial == Some(true)
    ensures s.events != [] && s.events[|s.events| - 1].Up?
    ensures s.dev.now.binaryImu && PaceOf(s.dev.now) == if cfg.sync == Slave then OnTrigger else Every(cfg.period)
    ensures cfg.sync == Slave ==> s.dev.now.period == "0"
    ensures s.dev.startup == Output(true, NoTrigger, RiseOnLast, "0") && PaceOf(s.dev.startup) == Every("0")
  {
    hide SetupCommands;
    RunKeepsOrder(cfg, dev, inputs);
  }

  /** Connecting: a port that does not open changes nothing, one that opens but cannot be flushed is tried again, any
      other is taken, which makes one more pass. */
  lemma ConnectOutcome(cfg: Config, s: State, a: Answer)
    requires s.pc.Connecting?
    ensures !s.running ==> Turn(cfg, s, a) == s.(pc := Left)
    ensures s.running && !a.opens ==> Turn(cfg, s, a) == s
    ensures s.running && a.opens && !a.yes ==> Turn(cfg, s, a) == s.(serial := Some(true))
    ensures s.running && a.opens && a.yes ==>
      Turn(cfg, s, a) == s.(serial := Some(true), passes := s.passes + 1, pc := Connected)
  {
  }

  /** The device is accepted exactly when its version is supported and its line names the wanted mode first; a supported
      device in another known mode is set; everything else ends the negotiation. */
  lemma ModeOutcome(cfg: Config, s: State, a: Answer, t: State)
    requires s.pc.AskInfo? && (a.throws || !a.silent) && t == Turn(cfg, s, a)
    ensures t == s.(pc := t.pc) && (t.pc.Announce? || t.pc.SetMode? || t.pc.Left?)
    ensures t.pc.Announce? <==> !a.throws && a.yes && Lookup(a.line) == Some(cfg.mode)
    ensures t.pc.SetMode? <==>
      !a.throws && a.yes && exists m: Mode :: m != cfg.mode && Lookup(a.line) == Some(m)
  {
    hide LookupFrom, Contains;
    if Lookup(a.line).Some? { assert Lookup(a.line) == Some(Lookup(a.line).value); }
  }

  /** The start mode is confirmed exactly when the line contains it; else it is set. */
  lemma StartOutcome(cfg: Config, s: State, a: Answer, t: State)
    requires s.pc.AskStart? && (a.throws || !a.silent) && t == Turn(cfg, s, a)
    ensures t == s.(pc := if a.throws then Left else if Contains(a.line, cfg.start) then AskInfo else SetStart)
  {
    hide Contains;
  }

  /** Behind the last setup command as many frames are skipped as the device sends in a second, and then it streams. */
  lemma {:induction false} SkipsOneSecond(cfg: Config, s: State, answers: nat -> Answer, n: nat)
    requires s.pc == Setup(7) && (forall k: nat :: !answers(k).throws && !answers(k).silent)
    ensures 1 <= n <= cfg.rate + 1 ==> After(cfg, s, answers, n).pc == Skip(cfg.rate + 1 - n)
    ensures n == cfg.rate + 2 ==> After(cfg, s, answers, n).pc == Stream
  {
    hide SetupCommands, Contains, LookupFrom, ModeText, Obey, After;
    if n > 0 {
      AfterStep(cfg, s, answers, n - 1);
      SkipsOneSecond(cfg, s, answers, n - 1);
      if n == 1 { AfterStep(cfg, s, answers, 0); }
    }
  }

  /** An exception in an exchange ends the negotiation or the setup; the command has then reached the device or not. */
  lemma ThrownExchange(cfg: Config, s: State, a: Answer, cmd: string)
    requires a.throws && (s.pc.Setup? ==> s.pc.k < 8)
    requires s.pc.SetStart? || s.pc.SetMode? || s.pc.Reboot? || s.pc.Setup?
    requires cmd == match s.pc
                    case SetStart => "flstart " + cfg.start
                    case SetMode => "flmode " + ModeText(cfg)
                    case Setup(k) => SetupCommands(cfg)[k]
                    case _ => "reboot"
    ensures Turn(cfg, s, a) == s.(pc := Left, dev := if a.yes then Obey(s.dev, cmd) else s.dev)
  {
    hide Obey, SetupCommands;
  }

  /** Silence in an exchange: where a prompt or a frame is waited for, the thread stays; where only the echo is, it
      stays until it is stopped. Nothing else waits. */
  lemma SilentExchange(cfg: Config, s: State, a: Answer)
    requires a.silent && !a.throws
    ensures s.pc.AskStart? || s.pc.AskInfo? || s.pc.Setup? || s.pc.Frame? ==> Turn(cfg, s, a) == s
    ensures s.pc.SetStart? || s.pc.SetMode? || s.pc.Reboot? || (s.pc.Skip? && s.pc.k > 0) ==>
      (Turn(cfg, s, a) == s <==> s.running)
    ensures s.pc == Skip(0) ==> Turn(cfg, s, a) == s.(pc := Stream)
    ensures s.pc.Stream? ==> Turn(cfg, s, a) == s.(pc := if s.running then Frame else Left)
  {
    hide Obey, SetupCommands, Contains, LookupFrom;
  }

  /** A device that was still streaming when it was connected to is told to send no more frames. */
  lemma StopIfStreaming(cfg: Config, s: State, a: Answer)
    requires s.pc.Connected? && s.running && a.yes
    ensures Turn(cfg, s, a).dev == s.dev.(now := s.dev.now.(period := "0"))
    ensures Turn(cfg, s, a).pc == if a.throws then Left else AskStart
  {
    hide Obey;
    ObeyAtOnce(s.dev, "0");
  }

  // ---- convergence ----

  predicate IsModeText(text: string) { exists j :: 0 <= j < 5 && MODES[j].text == text }

  predicate ModesKnown(d: Device) { IsModeText(d.mode.inForce) && IsModeText(d.mode.stored) }

  /** Nothing fails in this step, and the device is not silent. */
  predicate Cooperative(a: Answer) { !a.throws && !a.silent && a.yes && a.opens }

  /** How many steps are left until streaming, at most. */
  function Rank(cfg: Config, s: State): int {
    cfg.rate + 20 +
    match s.pc
    case FindPort => 10 * (3 - s.passes) + 9
    case Connecting => 10 * (3 - s.passes) + 8
    case Connected => 10 * (3 - s.passes) + 17
    case AskStart => 10 * (3 - s.passes) + 16
    case SetStart => 10 * (3 - s.passes) + 15
    case AskInfo => 10 * (3 - s.passes) + 15
    case SetMode => 10 * (3 - s.passes) + 14
    case Reboot => 10 * (3 - s.passes) + 13
    case Announce => 10 * (3 - s.passes) + 13
    case Setup(k) => 0 - k
    case Skip(k) => k - cfg.rate - 19
    case _ => 0 - cfg.rate - 20
  }

  predicate UnderWay(cfg: Config, s: State) {
    && s.running && ModesKnown(s.dev)
    && !s.pc.Idle? && !s.pc.Stream? && !s.pc.Frame?
    && !s.pc.Left? && !s.pc.Closing? && !s.pc.Final? && !s.pc.Ended? && !s.pc.Crashed?
    && (s.pc.Setup? ==> s.pc.k < 8) && (s.pc.Skip? ==> s.pc.k <= cfg.rate)
  }

  lemma RankBounds(cfg: Config, s: State)
    requires UnderWay(cfg, s) && Tallied(cfg, s)
    ensures 0 < Rank(cfg, s) <= cfg.rate + 59
  {
  }

  /** Every step that does not fail brings the thread closer to streaming. */
  lemma Progress(cfg: Config, s: State, a: Answer, t: State)
    requires UnderWay(cfg, s) && Tallied(cfg, s) && Cooperative(a) && Honest(cfg, s, Tick(a)) && t == Turn(cfg, s, a)
    ensures t.running && Rank(cfg, t) < Rank(cfg, s)
    ensures t.pc.Stream? || UnderWay(cfg, t)
  {
    hide SetupCommands, Contains, LookupFrom, Negotiated, IsModeText, Obey;
    match s.pc
    case AskInfo => AnswerIsKnown(s, a);
    case Connected => ObeyAtOnce(s.dev, "0");
    case SetStart => ObeyTexts(s.dev, cfg.start);
    case SetMode => {
      ObeyTexts(s.dev, ModeText(cfg));
      assert IsModeText(ModeText(cfg)) by { KnownText(cfg.mode); }
    }
    case Reboot => ObeyTexts(s.dev, "");
    case Setup(k) => SetupKeeps(cfg, s.dev, k);
    case _ =>
  }

  lemma KnownText(mode: Mode)
    ensures IsModeText(MODES[mode].text)
  {
  }

  lemma AnswerIsKnown(s: State, a: Answer)
    requires IsModeText(s.dev.mode.inForce) && NamesOnly(a.line, s.dev.mode.inForce)
    ensures Lookup(a.line).Some?
  {
  }

  function After(cfg: Config, s: State, answers: nat -> Answer, n: nat): State {
    if n == 0 then s else Turn(cfg, After(cfg, s, answers, n - 1), answers(n - 1))
  }

  lemma AfterStep(cfg: Config, s: State, answers: nat -> Answer, n: nat)
    ensures After(cfg, s, answers, 0) == s
    ensures After(cfg, s, answers, n + 1) == Turn(cfg, After(cfg, s, answers, n), answers(n))
  {
  }

  /** Nothing fails, and the device answers truthfully, from `s` on. */
  ghost predicate Cooperates(cfg: Config, s: State, answers: nat -> Answer) {
    forall k: nat :: Cooperative(answers(k)) && Honest(cfg, After(cfg, s, answers, k), Tick(answers(k)))
  }

  lemma NextStep(cfg: Config, s: State, answers: nat -> Answer, n: nat, here: State, next: State)
    requires Cooperates(cfg, s, answers) && here == After(cfg, s, answers, n) && next == After(cfg, s, answers, n + 1)
    requires Inv(cfg, here) && UnderWay(cfg, here)
    ensures Inv(cfg, next) && (next.pc.Stream? || UnderWay(cfg, next))
    ensures 0 <= Rank(cfg, next) < Rank(cfg, here)
  {
    hide Turn, Honest, UnderWay, Cooperative, Rank, Orderly, UpsOk, Tallied;
    var a := answers(n);
    AfterStep(cfg, s, answers, n);
    assert Cooperative(a) && Honest(cfg, here, Tick(a));
    StepKeepsInv(cfg, here, Tick(a));
    Progress(cfg, here, a, next);
    if next.pc.Stream? { RankOfStream(cfg, next); } else { RankBounds(cfg, next); }
  }

  lemma RankOfStream(cfg: Config, s: State)
    requires s.pc.Stream?
    ensures Rank(cfg, s) == 0
  {
  }

  /** Against a device that answers truthfully and takes its settings over when it reboots, and as long as nothing fails
      and nobody calls stop(), the thread reaches streaming: the negotiation converges. */
  lemma {:induction false} Converges(cfg: Config, s: State, answers: nat -> Answer, n: nat, here: State)
    returns (m: nat)
    requires Cooperates(cfg, s, answers) && here == After(cfg, s, answers, n)
    requires Inv(cfg, here) && UnderWay(cfg, here)
    ensures n < m <= n + Rank(cfg, here)
    ensures After(cfg, s, answers, m).pc.Stream? && Inv(cfg, After(cfg, s, answers, m))
    decreases Rank(cfg, here)
  {
    hide Turn, UnderWay, Cooperates, Rank, Inv, After;
    var next := After(cfg, s, answers, n + 1);
    NextStep(cfg, s, answers, n, here, next);
    if next.pc.Stream? {
      m := n + 1;
    } else {
      m := Converges(cfg, s, answers, n + 1, next);
    }
  }

  /** From start(), whatever the device is set to: within as many steps the device streams, in the wanted mode, set up,
      with its connection announced once. */
  lemma StartConverges(cfg: Config, dev: Device, answers: nat -> Answer, s: State) returns (m: nat)
    requires ModesKnown(dev) && s == Next(cfg, Initial(dev), Start) && Cooperates(cfg, s, answers)
    ensures m <= cfg.rate + 59
    ensures After(cfg, s, answers, m).pc.Stream? && After(cfg, s, answers, m).sent == SetupCommands(cfg)
    ensures var o := After(cfg, s, answers, m).dev.now;
      o.binaryImu && PaceOf(o) == if cfg.sync == Slave then OnTrigger else Every(cfg.period)
    ensures PhaseAfter(After(cfg, s, answers, m).events) == Some(Announced)
    ensures UpsOk(cfg, After(cfg, s, answers, m).events)
  {
    hide SetupCommands, ModesKnown, UpOk, Cooperates, Honest;
    assert Inv(cfg, Initial(dev));
    HonestStart(cfg, Initial(dev));
    StepKeepsInv(cfg, Initial(dev), Start);
    RankBounds(cfg, s);
    m := Converges(cfg, s, answers, 0, s);
  }

  lemma HonestStart(cfg: Config, s: State)
    ensures Honest(cfg, s, Start) && Honest(cfg, s, Stop)
  {
  }

  // ---- a device that cooperates ----

  predicate IsStartText(text: string) { text == "cdc" || text == "hist" }

  predicate DeviceKnown(d: Device) { ModesKnown(d) && IsStartText(d.start.inForce) && IsStartText(d.start.stored) }

  /** A device that never fails and answers a question with the text of the setting in force. */
  function PlainAnswer(s: State): Answer {
    Answer(false, false, true, true, if s.pc.AskStart? then s.dev.start.inForce else s.dev.mode.inForce)
  }

  /** Its answer is truthful at every step: what the convergence theorem asks of a device can be met. */
  lemma PlainAnswerIsTruthful(cfg: Config, s: State)
    requires IsStartText(cfg.start) && DeviceKnown(s.dev)
    ensures Cooperative(PlainAnswer(s)) && Honest(cfg, s, Tick(PlainAnswer(s)))
  {
    hide Contains;
    if s.pc.AskStart? {
      StartTexts(s.dev.start.inForce, cfg.start);
    } else if s.pc.AskInfo? {
      var j :| 0 <= j < 5 && MODES[j].text == s.dev.mode.inForce;
      TextIsTruthful(j);
    }
  }

  lemma StartTexts(a: string, b: string)
    requires IsStartText(a) && IsStartText(b)
    ensures Contains(a, b) <==> a == b
  {
    hide Contains;
    if a == b { NamesItself(a); } else { NotInside(a, b); }
  }

  lemma KnownStays(cfg: Config, s: State, a: Answer)
    requires IsStartText(cfg.start) && DeviceKnown(s.dev)
    ensures DeviceKnown(Turn(cfg, s, a).dev)
  {
    hide Contains, LookupFrom, SetupCommands, IsModeText, Obey, ModeText;
    ObeyAtOnce(s.dev, "0");
    match s.pc
    case SetStart => ObeyTexts(s.dev, cfg.start);
    case SetMode => {
      ObeyTexts(s.dev, ModeText(cfg));
      ModeTextIs(cfg);
      KnownText(cfg.mode);
    }
    case Reboot => ObeyTexts(s.dev, "");
    case Setup(k) => if k < 8 { SetupKeeps(cfg, s.dev, k); }
    case _ =>
  }

  /** A run against that device. */
  function PlainRun(cfg: Config, s: State, n: nat): State {
    if n == 0 then s else var before := PlainRun(cfg, s, n - 1); Turn(cfg, before, PlainAnswer(before))
  }

  ghost predicate AnswersPlainly(cfg: Config, s: State, answers: nat -> Answer) {
    forall k: nat :: answers(k) == PlainAnswer(PlainRun(cfg, s, k))
  }

  lemma PlainStep(cfg: Config, s: State, answers: nat -> Answer, n: nat)
    requires AnswersPlainly(cfg, s, answers)
    ensures PlainRun(cfg, s, 0) == s && PlainRun(cfg, s, n + 1) == Turn(cfg, PlainRun(cfg, s, n), answers(n))
    ensures answers(n) == PlainAnswer(PlainRun(cfg, s, n))
  {
    hide Turn, PlainAnswer;
    assert answers(n) == PlainAnswer(PlainRun(cfg, s, n));
  }

  lemma {:induction false} PlainRunIsAfter(cfg: Config, s: State, answers: nat -> Answer, n: nat)
    requires IsStartText(cfg.start) && DeviceKnown(s.dev) && AnswersPlainly(cfg, s, answers)
    ensures After(cfg, s, answers, n) == PlainRun(cfg, s, n) && DeviceKnown(PlainRun(cfg, s, n).dev)
  {
    hide Turn, PlainAnswer, PlainRun, After, DeviceKnown, AnswersPlainly;
    if n == 0 {
      AfterStep(cfg, s, answers, 0);
      PlainStep(cfg, s, answers, 0);
    } else {
      PlainRunIsAfter(cfg, s, answers, n - 1);
      AfterStep(cfg, s, answers, n - 1);
      PlainStep(cfg, s, answers, n - 1);
      KnownStays(cfg, PlainRun(cfg, s, n - 1), answers(n - 1));
    }
  }

  lemma PlainDeviceCooperates(cfg: Config, s: State, answers: nat -> Answer)
    requires IsStartText(cfg.start) && DeviceKnown(s.dev) && AnswersPlainly(cfg, s, answers)
    ensures Cooperates(cfg, s, answers)
  {
    hide Honest, Cooperative, PlainAnswer, PlainRun, After, DeviceKnown, AnswersPlainly;
    forall k: nat ensures Cooperative(answers(k)) && Honest(cfg, After(cfg, s, answers, k), Tick(answers(k))) {
      PlainRunIsAfter(cfg, s, answers, k);
      PlainStep(cfg, s, answers, k);
      PlainAnswerIsTruthful(cfg, PlainRun(cfg, s, k));
    }
  }

  /** Whatever such a device is set to at first, the thread negotiates with it until it streams. */
  lemma PlainDeviceStreams(cfg: Config, dev: Device, s: State) returns (m: nat)
    requires IsStartText(cfg.start) && DeviceKnown(dev) && s == Next(cfg, Initial(dev), Start)
    ensures m <= cfg.rate + 59 && PlainRun(cfg, s, m).pc.Stream?
  {
    hide Cooperates, PlainAnswer, PlainRun, UpOk, SetupCommands;
    var answers := (k: nat) => PlainAnswer(PlainRun(cfg, s, k));
    assert AnswersPlainly(cfg, s, answers);
    hide AnswersPlainly;
    PlainDeviceCooperates(cfg, s, answers);
    m := StartConverges(cfg, dev, answers, s);
    PlainRunIsAfter(cfg, s, answers, m);
  }

  // ---- a device that answers too late ----

  /** read_line gives up after its timeout: the line is empty. */
  const LATE: Answer := Answer(false, false, true, true, "")

  /** Six turns: one pass over a device whose answer comes too late. */
  lemma LatePass(cfg: Config, s: State, answers: nat -> Answer, n: nat)
    requires cfg.start != "" && forall k: nat :: answers(k) == LATE
    requires After(cfg, s, answers, n).pc.FindPort? && After(cfg, s, answers, n).running
    ensures var t := After(cfg, s, answers, n + 6);
      t.pc.FindPort? && t.running && t.passes == After(cfg, s, answers, n).passes + 1
      && t.events == After(cfg, s, answers, n).events
  {
    hide Contains, LookupFrom, SetupCommands, ModeText, Obey, After;
    NotInside("", cfg.start);
    AfterStep(cfg, s, answers, n);
    AfterStep(cfg, s, answers, n + 1);
    AfterStep(cfg, s, answers, n + 2);
    AfterStep(cfg, s, answers, n + 3);
    AfterStep(cfg, s, answers, n + 4);
    AfterStep(cfg, s, answers, n + 5);
  }

  /** The bound on the passes needs truthful answers: a device whose answers come too late is set and rebooted over and
      over, however it is set, and is never announced. */
  lemma {:induction false} LateDeviceIsRebooted(cfg: Config, s: State, answers: nat -> Answer, passes: nat)
    requires cfg.start != "" && forall k: nat :: answers(k) == LATE
    requires s.pc.FindPort? && s.running && s.passes == 0
    ensures var t := After(cfg, s, answers, 6 * passes);
      t.pc.FindPort? && t.running && t.passes == passes && t.events == s.events
  {
    hide After;
    AfterStep(cfg, s, answers, 0);
    if passes > 0 {
      LateDeviceIsRebooted(cfg, s, answers, passes - 1);
      LatePass(cfg, s, answers, 6 * (passes - 1));
    }
  }

  // ---- closing ----

  /** The prompt comes in step `i`, after silence since step `from`. */
  ghost predicate PromptAt(answers: nat -> Answer, from: nat, i: nat) {
    from <= i && !answers(i).throws && !answers(i).silent && Silence(answers, from, i)
  }

  predicate Silence(answers: nat -> Answer, from: nat, n: nat) {
    forall k :: from <= k < n ==> answers(k).silent && !answers(k).throws
  }

  /** The device gives the two prompts that the closing commands wait for, and nothing throws before the second. */
  ghost predicate TwoPrompts(answers: nat -> Answer) {
    exists i: nat :: PromptAt(answers, 1, i) && PromptFrom(answers, i + 1)
  }

  ghost predicate PromptFrom(answers: nat -> Answer, from: nat) { exists i: nat :: PromptAt(answers, from, i) }

  /** An exception comes, after silence since step `from`. */
  ghost predicate ThrowFrom(answers: nat -> Answer, from: nat) {
    exists i: nat :: from <= i && answers(i).throws && Silence(answers, from, i)
  }

  /** An exception comes while the thread waits for one of the two prompts. */
  ghost predicate ThrowsBeforePrompts(answers: nat -> Answer) {
    ThrowFrom(answers, 1) || exists i: nat :: PromptAt(answers, 1, i) && ThrowFrom(answers, i + 1)
  }

  /** The device sends no more frames. */
  predicate Quiet(d: Device) { PaceOf(d.now) == Every("0") }

  /** Where a stopped thread can be after `n` steps of closing a port, and what has happened by then. */
  ghost predicate ClosingPlace(s: State, answers: nat -> Answer, n: nat, t: State) {
    match t.pc
    case Closing(k) =>
      && t.serial == s.serial && t.events == s.events && k < 2 && t.sent == CLOSING[..k]
      && (k == 1 ==> t.dev.now.period == "0")
      && (k == 0 ==> Silence(answers, 1, n))
      && (k == 1 ==> exists i: nat :: i < n && PromptAt(answers, 1, i) && Silence(answers, i + 1, n))
    case Final =>
      && t.serial == s.serial == Some(true) && TwoPrompts(answers) && t.events == s.events
      && t.sent == CLOSING && Quiet(t.dev)
    case Ended =>
      && t.serial == Some(false) && s.serial == Some(true) && TwoPrompts(answers) && t.events == s.events + [Down]
      && t.sent == CLOSING && Quiet(t.dev)
    case Crashed => t.events == s.events && (s.serial == Some(true) ==> ThrowsBeforePrompts(answers))
    case _ => false
  }

  lemma ClosingStep(cfg: Config, s: State, answers: nat -> Answer, n: nat, t: State)
    requires s.serial.Some? && !t.running && n > 0 && ClosingPlace(s, answers, n, t)
    ensures ClosingPlace(s, answers, n + 1, Turn(cfg, t, answers(n))) && !Turn(cfg, t, answers(n)).running
  {
    hide SetupCommands, Contains, LookupFrom, ModeText, Obey;
    ObeyAtOnce(t.dev, "0");
    if t.pc.Closing? && t.serial == Some(true) {
      if t.pc.k == 0 {
        assert answers(n).throws ==> ThrowFrom(answers, 1);
        assert !answers(n).throws && !answers(n).silent ==> PromptAt(answers, 1, n);
      } else {
        var i: nat :| i < n && PromptAt(answers, 1, i) && Silence(answers, i + 1, n);
        assert answers(n).throws ==> ThrowFrom(answers, i + 1);
        assert !answers(n).throws && !answers(n).silent ==> PromptAt(answers, i + 1, n) && PromptFrom(answers, i + 1);
      }
    }
  }

  lemma {:induction false} ClosingHistory(cfg: Config, s: State, answers: nat -> Answer, n: nat)
    requires s.pc.Left? && !s.running && s.serial.Some? && n > 0
    ensures ClosingPlace(s, answers, n, After(cfg, s, answers, n)) && !After(cfg, s, answers, n).running
  {
    hide SetupCommands, Contains, LookupFrom, ModeText, Obey, After;
    AfterStep(cfg, s, answers, n - 1);
    if n == 1 {
      AfterStep(cfg, s, answers, 0);
    } else {
      hide ClosingPlace, Turn;
      ClosingHistory(cfg, s, answers, n - 1);
      ClosingStep(cfg, s, answers, n - 1, After(cfg, s, answers, n - 1));
    }
  }

  /** A closing command waits as long as the device is silent. */
  lemma {:induction false} WaitsForPrompt(cfg: Config, s: State, answers: nat -> Answer, from: nat, n: nat)
    requires from <= n && Silence(answers, from, n)
    requires var t := After(cfg, s, answers, from); t.pc.Closing? && t.serial == Some(true)
    ensures After(cfg, s, answers, n) == After(cfg, s, answers, from)
  {
    hide SetupCommands, Contains, LookupFrom, ModeText, Obey, After;
    if n > from {
      WaitsForPrompt(cfg, s, answers, from, n - 1);
      AfterStep(cfg, s, answers, n - 1);
    }
  }

  /** From the first prompt on, the thread waits for the second. */
  lemma FirstPrompt(cfg: Config, s: State, answers: nat -> Answer, i: nat)
    requires s.pc.Left? && !s.running && s.serial == Some(true) && PromptAt(answers, 1, i)
    ensures var t := After(cfg, s, answers, i + 1); t.pc == Closing(1) && t.serial == Some(true) && !t.running
  {
    hide SetupCommands, Contains, LookupFrom, ModeText, Obey, After, Silence;
    AfterStep(cfg, s, answers, 0);
    WaitsForPrompt(cfg, s, answers, 1, i);
    AfterStep(cfg, s, answers, i);
  }

  /** With both prompts the thread goes through all of closing. */
  lemma PromptsEnd(cfg: Config, s: State, answers: nat -> Answer, i: nat, j: nat)
    requires s.pc.Left? && !s.running && s.serial == Some(true)
    requires PromptAt(answers, 1, i) && PromptAt(answers, i + 1, j)
    ensures After(cfg, s, answers, j + 2).pc.Ended?
  {
    hide SetupCommands, Contains, LookupFrom, ModeText, Obey, After, Silence;
    FirstPrompt(cfg, s, answers, i);
    WaitsForPrompt(cfg, s, answers, i + 1, j);
    AfterStep(cfg, s, answers, j);
    AfterStep(cfg, s, answers, j + 1);
  }

  /** An exception while it waits for a prompt leaves the thread. */
  lemma ThrowCrashes(cfg: Config, s: State, answers: nat -> Answer, from: nat) returns (m: nat)
    requires ThrowFrom(answers, from)
    requires var t := After(cfg, s, answers, from); t.pc.Closing? && t.serial == Some(true)
    ensures After(cfg, s, answers, m).pc.Crashed?
  {
    hide SetupCommands, Contains, LookupFrom, ModeText, Obey, After, Silence;
    var i: nat :| from <= i && answers(i).throws && Silence(answers, from, i);
    WaitsForPrompt(cfg, s, answers, from, i);
    AfterStep(cfg, s, answers, i);
    m := i + 1;
  }

  /** A thread that has left its try block ends, with the closing notice, exactly when it was not stopped, or there is
      no port, or the port is open and the device gives the prompt after both closing commands. */
  lemma EndsExactlyWhen(cfg: Config, s: State, answers: nat -> Answer)
    requires s.pc.Left?
    ensures (exists m: nat :: After(cfg, s, answers, m).pc.Ended?) <==>
      s.running || s.serial.None? || (s.serial == Some(true) && TwoPrompts(answers))
  {
    hide SetupCommands, Contains, LookupFrom, ModeText, Obey, After, PromptAt;
    AfterStep(cfg, s, answers, 0);
    AfterStep(cfg, s, answers, 1);
    if s.running || s.serial.None? {
      assert After(cfg, s, answers, 2).pc.Ended?;
    } else {
      if s.serial == Some(true) && TwoPrompts(answers) {
        var i: nat :| PromptAt(answers, 1, i) && PromptFrom(answers, i + 1);
        var j: nat :| PromptAt(answers, i + 1, j);
        PromptsEnd(cfg, s, answers, i, j);
      }
      if m: nat :| After(cfg, s, answers, m).pc.Ended? { ClosingHistory(cfg, s, answers, m); }
    }
  }

  /** The exception leaves the thread, without the notice, exactly when a stopped thread closes a closed port, or an
      exception comes before the second prompt. */
  lemma CrashesExactlyWhen(cfg: Config, s: State, answers: nat -> Answer)
    requires s.pc.Left?
    ensures (exists m: nat :: After(cfg, s, answers, m).pc.Crashed?) <==>
      !s.running && (s.serial == Some(false) || (s.serial == Some(true) && ThrowsBeforePrompts(answers)))
  {
    hide SetupCommands, Contains, LookupFrom, ModeText, Obey, After, PromptAt, ThrowFrom;
    AfterStep(cfg, s, answers, 0);
    AfterStep(cfg, s, answers, 1);
    if s.running || s.serial.None? {
      if m: nat :| After(cfg, s, answers, m).pc.Crashed? { if m > 2 { EndedStays(cfg, s, answers, 2, m); } }
    } else if !s.serial.value {
      assert After(cfg, s, answers, 2).pc.Crashed?;
    } else {
      if m: nat :| After(cfg, s, answers, m).pc.Crashed? { ClosingHistory(cfg, s, answers, m); }
      if ThrowFrom(answers, 1) {
        var m := ThrowCrashes(cfg, s, answers, 1);
      } else if i: nat :| PromptAt(answers, 1, i) && ThrowFrom(answers, i + 1) {
        FirstPrompt(cfg, s, answers, i);
        var m := ThrowCrashes(cfg, s, answers, i + 1);
      }
    }
  }

  /** In every other case it waits for a prompt for ever. */
  lemma WaitsOtherwise(cfg: Config, s: State, answers: nat -> Answer, n: nat)
    requires s.pc.Left? && !s.running && s.serial == Some(true) && n > 0
    requires !TwoPrompts(answers) && !ThrowsBeforePrompts(answers)
    ensures After(cfg, s, answers, n).pc.Closing? && After(cfg, s, answers, n).events == s.events
  {
    hide After, TwoPrompts, ThrowsBeforePrompts, Silence, PromptAt;
    ClosingHistory(cfg, s, answers, n);
  }

  /** What the end looks like: the notice was the last callback, the port is closed, and after stop() both closing
      commands were sent and the device sends no more frames. */
  lemma HowItEnds(cfg: Config, s: State, answers: nat -> Answer, m: nat)
    requires s.pc.Left? && After(cfg, s, answers, m).pc.Ended?
    ensures After(cfg, s, answers, m).events == s.events + [Down] && !After(cfg, s, answers, m).running
    ensures After(cfg, s, answers, m).serial == if s.serial.Some? then Some(false) else None
    ensures !s.running && s.serial.Some? ==>
      After(cfg, s, answers, m).sent == CLOSING && Quiet(After(cfg, s, answers, m).dev)
  {
    hide SetupCommands, Contains, LookupFrom, ModeText, Obey, After, TwoPrompts;
    AfterStep(cfg, s, answers, 0);
    if s.running || s.serial.None? {
      AfterStep(cfg, s, answers, 1);
      if m > 2 { EndedStays(cfg, s, answers, 2, m); }
    } else {
      ClosingHistory(cfg, s, answers, m);
    }
  }

  lemma {:induction false} EndedStays(cfg: Config, s: State, answers: nat -> Answer, n: nat, m: nat)
    requires n <= m && After(cfg, s, answers, n).pc.Ended?
    ensures After(cfg, s, answers, m) == After(cfg, s, answers, n)
  {
    hide SetupCommands, Contains, LookupFrom, ModeText, Obey, After;
    if m > n {
      EndedStays(cfg, s, answers, n, m - 1);
      AfterStep(cfg, s, answers, m - 1);
    }
  }

  /** A device that is present and silent keeps a stopped thread in the first closing command for ever: no notice is
      given, and nothing is thrown. */
  lemma SilenceKeepsClosing(cfg: Config, s: State, answers: nat -> Answer, n: nat)
    requires s.pc.Left? && !s.running && s.serial == Some(true) && n > 0
    requires forall k: nat :: answers(k).silent && !answers(k).throws
    ensures After(cfg, s, answers, n).pc == Closing(0) && After(cfg, s, answers, n).events == s.events
  {
    hide SetupCommands, Contains, LookupFrom, ModeText, Obey, After;
    AfterStep(cfg, s, answers, 0);
    WaitsForPrompt(cfg, s, answers, 1, n);
  }

  /** The thread leaves its try block with a closed port only while it looks for the device or connects: between the
      close that follows a reboot, or that ended an earlier run, and the next connection. */
  lemma ClosedPortOnlyBetweenConnections(cfg: Config, s: State, input: Input)
    requires Orderly(cfg, s) && !s.pc.Left? && Next(cfg, s, input).pc.Left?
    requires Next(cfg, s, input).serial == Some(false)
    ensures s.pc.FindPort? || s.pc.Connecting?
  {
    hide SetupCommands, Contains, LookupFrom, ModeText, PhaseAfter;
  }

  predicate IsAnnounced(pc: Pc) { pc.Setup? || pc.Skip? || pc.Stream? || pc.Frame? }

  /** A stopped thread with an open port, on its way from the announcement to its end. */
  predicate Stopping(s: State) {
    && !s.running && s.serial == Some(true)
    && match s.pc
       case Left => true
       case Closing(k) => k < 2 && s.sent == CLOSING[..k] && (k == 1 ==> s.dev.now.period == "0")
       case Final => s.sent == CLOSING && Quiet(s.dev)
       case pc => IsAnnounced(pc)
  }

  /** The turns without silence that it takes until it has ended, at most. */
  function TurnsToEnd(cfg: Config, s: State): nat
    requires Stopping(s)
  {
    match s.pc
    case Setup(k) => if k < 8 then 14 - k + cfg.rate else 7
    case Skip(k) => 6 + k
    case Stream => 5
    case Frame => 6
    case Left => 4
    case Closing(k) => 3 - k
    case _ => 1
  }

  lemma StoppedTurn(cfg: Config, s: State, a: Answer, t: State)
    requires Stopping(s) && !a.throws && t == Turn(cfg, s, a)
    ensures t.pc.Ended? || (t.events == s.events && Stopping(t))
    ensures t.pc.Ended? ==>
      TurnsToEnd(cfg, s) == 1 && t.events == s.events + [Down] && t.sent == CLOSING && Quiet(t.dev)
    ensures !t.pc.Ended? ==> (a.silent && t == s) || TurnsToEnd(cfg, t) < TurnsToEnd(cfg, s)
  {
    hide SetupCommands, Contains, LookupFrom, ModeText, Obey;
    ObeyAtOnce(s.dev, "0");
  }

  function Later(answers: nat -> Answer): nat -> Answer { (k: nat) => answers(k + 1) }

  /** How many of the first `n` answers are silence. */
  function Silences(answers: nat -> Answer, n: nat): nat {
    if n == 0 then 0 else (if answers(0).silent then 1 else 0) + Silences(Later(answers), n - 1)
  }

  /** The device never falls silent for good, and nothing throws. */
  ghost predicate Talks(answers: nat -> Answer) {
    (forall k: nat :: !answers(k).throws) && (forall k: nat :: TalksFrom(answers, k))
  }

  ghost predicate TalksFrom(answers: nat -> Answer, k: nat) { exists j: nat :: j >= k && !answers(j).silent }

  lemma TalksLater(answers: nat -> Answer)
    requires Talks(answers)
    ensures Talks(Later(answers))
  {
    forall k: nat ensures TalksFrom(Later(answers), k) {
      assert TalksFrom(answers, k + 1);
      var j: nat :| j >= k + 1 && !answers(j).silent;
      assert !Later(answers)(j - 1).silent;
    }
  }

  lemma {:induction false} StoppedThreadEnds(cfg: Config, s: State, answers: nat -> Answer, next: nat)
    returns (m: nat)
    requires Stopping(s) && Talks(answers) && !answers(next).silent
    ensures m <= TurnsToEnd(cfg, s) + Silences(answers, m) && After(cfg, s, answers, m).pc.Ended?
    ensures After(cfg, s, answers, m).events == s.events + [Down] && After(cfg, s, answers, m).sent == CLOSING
    ensures Quiet(After(cfg, s, answers, m).dev)
    decreases TurnsToEnd(cfg, s), next
  {
    hide Turn, After, Stopping, TurnsToEnd, TalksFrom;
    var t, later := Turn(cfg, s, answers(0)), Later(answers);
    StoppedTurn(cfg, s, answers(0), t);
    TalksLater(answers);
    if t.pc.Ended? {
      m := 0;
      AfterStep(cfg, t, later, 0);
    } else if t == s && answers(0).silent {
      assert !later(next - 1).silent;
      m := StoppedThreadEnds(cfg, t, later, next - 1);
    } else {
      var next' := Talking(later);
      m := StoppedThreadEnds(cfg, t, later, next');
    }
    AfterShift(cfg, s, answers, m);
    m := m + 1;
  }

  lemma Talking(answers: nat -> Answer) returns (next: nat)
    requires Talks(answers)
    ensures !answers(next).silent
  {
    assert TalksFrom(answers, 0);
    next :| !answers(next).silent;
  }

  /** So stop() is safe once the connection was announced: whether the thread sets the device up, skips the first frames
      or streams, if the device takes its commands and never falls silent for good, the run ends with the closing
      commands and the notice. */
  lemma StopAfterAnnouncement(cfg: Config, s: State, answers: nat -> Answer) returns (m: nat)
    requires Orderly(cfg, s) && IsAnnounced(s.pc) && Talks(answers)
    ensures Stopping(Next(cfg, s, Stop)) && m <= TurnsToEnd(cfg, Next(cfg, s, Stop)) + Silences(answers, m)
    ensures After(cfg, Next(cfg, s, Stop), answers, m).pc.Ended?
    ensures After(cfg, Next(cfg, s, Stop), answers, m).events == s.events + [Down]
    ensures After(cfg, Next(cfg, s, Stop), answers, m).sent == CLOSING
    ensures Quiet(After(cfg, Next(cfg, s, Stop), answers, m).dev)
  {
    hide SetupCommands, Contains, LookupFrom, ModeText, PhaseAfter, After;
    var next := Talking(answers);
    m := StoppedThreadEnds(cfg, Next(cfg, s, Stop), answers, next);
  }

  lemma {:induction false} AfterShift(cfg: Config, s: State, answers: nat -> Answer, n: nat)
    ensures After(cfg, s, answers, n + 1) == After(cfg, Turn(cfg, s, answers(0)), Later(answers), n)
  {
    hide Turn;
    AfterStep(cfg, s, answers, 0);
    if n > 0 { AfterShift(cfg, s, answers, n - 1); }
  }

  lemma ExecAppend(cfg: Config, dev: Device, inputs: seq<Input>, input: Input)
    ensures Exec(cfg, dev, inputs + [input]) == Next(cfg, Exec(cfg, dev, inputs), input)
  {
    hide Next;
  }

  lemma ExecStep(cfg: Config, dev: Device, inputs: seq<Input>, input: Input, s: State)
    requires HonestRun(cfg, dev, inputs) && s == Exec(cfg, dev, inputs) && Honest(cfg, s, input)
    ensures HonestRun(cfg, dev, inputs + [input]) && Exec(cfg, dev, inputs + [input]) == Next(cfg, s, input)
  {
  }

  const AT_REST: Output := Output(true, NoTrigger, NoPulse, "0")

  /** A run in which stop() comes while the device reboots: the closing commands meet a closed port outside the try
      block, and the closing notice is never given. */
  lemma StopDuringReboot(cfg: Config, dev: Device, ok: Answer, inputs: seq<Input>, s: State)
    requires cfg == Config("cdc", 0, Unsynced, 30, "33.33")
    requires dev == Device(Setting("hist", "hist"), Setting("20m", "20m"), AT_REST, AT_REST)
    requires ok == Answer(false, false, true, true, "hist")
    requires inputs == [Start, Tick(ok), Tick(ok), Tick(ok), Tick(ok), Tick(ok), Tick(ok),
                        Stop, Tick(ok), Tick(ok), Tick(ok)]
    requires s == Exec(cfg, dev, inputs)
    ensures HonestRun(cfg, dev, inputs) && s.pc.Crashed? && s.events == [Begun]
  {
    hide Exec, HonestRun, Contains, Next, ModeText, Honest;
    NoInputs(cfg, dev);
    var done: seq<Input>, here := [], Initial(dev);
    HonestStart(cfg, here);
    done, here := OneInput(cfg, dev, done, Start, here);
    Started(cfg, dev);
    done, here := UntilReboot(cfg, dev, ok, done, here);
    HonestStart(cfg, here);
    done, here := OneInput(cfg, dev, done, Stop, here);
    done, here := WithoutPort(cfg, dev, ok, done, here);
    assert done == inputs;
  }

  /** Six turns: the port is found and opened, the wrong start mode is reported, set, and the device rebooted. */
  lemma UntilReboot(cfg: Config, dev: Device, ok: Answer, done: seq<Input>, here: State)
    returns (done': seq<Input>, here': State)
    requires HonestRun(cfg, dev, done) && here == Exec(cfg, dev, done)
    requires here.pc.FindPort? && here.running && ok == Answer(false, false, true, true, "hist") && cfg.start == "cdc"
    requires here.dev.start.inForce == "hist"
    ensures done' == done + [Tick(ok), Tick(ok), Tick(ok), Tick(ok), Tick(ok), Tick(ok)]
    ensures HonestRun(cfg, dev, done') && here' == Exec(cfg, dev, done')
    ensures here'.pc.FindPort? && here'.serial == Some(false) && here'.events == here.events
  {
    hide Exec, HonestRun, Contains, LookupFrom, SetupCommands, ModeText;
    StartTexts("hist", "cdc");
    done', here' := done, here;
    done', here' := OneInput(cfg, dev, done', Tick(ok), here');
    done', here' := OneInput(cfg, dev, done', Tick(ok), here');
    done', here' := OneInput(cfg, dev, done', Tick(ok), here');
    done', here' := OneInput(cfg, dev, done', Tick(ok), here');
    done', here' := OneInput(cfg, dev, done', Tick(ok), here');
    done', here' := OneInput(cfg, dev, done', Tick(ok), here');
  }

  /** Three turns of a stopped thread that looks for its device while the port object is closed. */
  lemma WithoutPort(cfg: Config, dev: Device, ok: Answer, done: seq<Input>, here: State)
    returns (done': seq<Input>, here': State)
    requires HonestRun(cfg, dev, done) && here == Exec(cfg, dev, done)
    requires here.pc.FindPort? && !here.running && here.serial == Some(false)
    ensures done' == done + [Tick(ok), Tick(ok), Tick(ok)]
    ensures HonestRun(cfg, dev, done') && here' == Exec(cfg, dev, done')
    ensures here'.pc.Crashed? && here'.events == here.events
  {
    hide Exec, HonestRun, Contains, LookupFrom, SetupCommands, ModeText;
    done', here' := done, here;
    done', here' := OneInput(cfg, dev, done', Tick(ok), here');
    done', here' := OneInput(cfg, dev, done', Tick(ok), here');
    done', here' := OneInput(cfg, dev, done', Tick(ok), here');
  }

  lemma OneInput(cfg: Config, dev: Device, done: seq<Input>, input: Input, here: State)
    returns (done': seq<Input>, here': State)
    requires HonestRun(cfg, dev, done) && here == Exec(cfg, dev, done) && Honest(cfg, here, input)
    ensures done' == done + [input] && here' == Next(cfg, here, input)
    ensures HonestRun(cfg, dev, done') && here' == Exec(cfg, dev, done')
  {
    hide Honest, Next;
    ExecStep(cfg, dev, done, input, here);
    done', here' := done + [input], Next(cfg, here, input);
  }

  lemma Started(cfg: Config, dev: Device)
    ensures var s := Next(cfg, Initial(dev), Start);
      s.pc.FindPort? && s.running && s.dev == dev && s.events == [Begun]
    ensures forall s :: var t := Next(cfg, s, Stop);
      t.pc == s.pc && !t.running && t.serial == s.serial && t.events == s.events
  {
  }

  lemma NoInputs(cfg: Config, dev: Device)
    ensures HonestRun(cfg, dev, []) && Exec(cfg, dev, []) == Initial(dev)
  {
  }
}
