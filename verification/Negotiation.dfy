/** The life of the device thread: connecting, negotiating the start mode and the mode with reboots, setting up,
    streaming, and closing, while stop() may come from another thread at any moment.

    One step is one load of `_running` or one exchange with the device; a step in which the device stays silent leaves
    an exchange that waits for it where it is. */
module Negotiation {
  import opened Words
  import opened Modes

  // ---- the mode lookup ----

  /** The first mode from `i` on whose text the line contains. */
  function LookupFrom(line: string, i: nat): (r: Option<Mode>)
    requires i <= 5
    ensures r.Some? ==> i <= r.value && Contains(line, MODES[r.value].text)
    ensures forall j :: i <= j < (if r.Some? then r.value else 5) ==> !Contains(line, MODES[j].text)
    decreases 5 - i
  {
    if i == 5 then None else if Contains(line, MODES[i].text) then Some(i) else LookupFrom(line, i + 1)
  }

  function Lookup(line: string): Option<Mode> { LookupFrom(line, 0) }

  /** The lookup loop of get_device_info. */
  method LookupMode(line: string) returns (r: Option<Mode>)
    ensures r == Lookup(line)
  {
    var i := 0;
    while i < 5
      invariant i <= 5 && Lookup(line) == LookupFrom(line, i)
    {
      if Contains(line, MODES[i].text) { return Some(i); }
      i := i + 1;
    }
    r := None;
  }

  /** A line names a mode truthfully when it contains the text of that mode and of no other. */
  predicate NamesOnly(line: string, text: string) {
    forall j :: 0 <= j < 5 ==> (Contains(line, MODES[j].text) <==> MODES[j].text == text)
  }

  /** A truthful line is looked up to the mode it names, and to nothing when it names none. */
  lemma LookupIsTruthful(line: string, text: string)
    requires NamesOnly(line, text)
    ensures Lookup(line).Some? <==> exists j :: 0 <= j < 5 && MODES[j].text == text
    ensures Lookup(line).Some? ==> MODES[Lookup(line).value].text == text
  {
  }

  /** No two modes share their text. */
  lemma TextsAreDistinct(i: Mode, j: Mode)
    ensures MODES[i].text == MODES[j].text <==> i == j
  {
  }

  lemma NamesItself(text: string)
    ensures Contains(text, text)
  {
    assert OccursAt(text, text, 0);
  }

  /** The first and the fourth character of a text fit at a place in a line. */
  predicate FitsAt(line: string, text: string, i: nat)
    requires text != "" && i + |text| <= |line|
  {
    line[i] == text[0] && (|text| > 3 ==> line[i + 3] == text[3])
  }

  lemma NamedFits(line: string, text: string) returns (i: nat)
    requires text != "" && Contains(line, text)
    ensures i + |text| <= |line| && FitsAt(line, text, i)
  {
    i :| i <= |line| && OccursAt(line, text, i);
    var here := line[i..i + |text|];
    assert here[0] == line[i];
    if |text| > 3 { assert here[3] == line[i + 3]; }
  }

  /** A text does not occur in a line in which they fit nowhere. */
  lemma NotInside(line: string, text: string)
    requires text != ""
    requires forall i: nat :: i + |text| <= |line| ==> !FitsAt(line, text, i)
    ensures !Contains(line, text)
  {
    hide Contains, FitsAt;
    if Contains(line, text) { var i := NamedFits(line, text); }
  }

  /** No mode's text is part of another's. */
  lemma TextsAreApart(i: Mode, j: Mode)
    ensures Contains(MODES[i].text, MODES[j].text) <==> i == j
  {
    hide Contains;
    if i == j { NamesItself(MODES[i].text); } else { NotInside(MODES[i].text, MODES[j].text); }
  }

  /** So the text of a mode names it truthfully. */
  lemma TextIsTruthful(i: Mode)
    ensures NamesOnly(MODES[i].text, MODES[i].text)
  {
    hide Contains;
    forall j | 0 <= j < 5 ensures Contains(MODES[i].text, MODES[j].text) <==> MODES[j].text == MODES[i].text {
      TextsAreApart(i, j);
      TextsAreDistinct(i, j);
    }
  }

  /** The five modes that a device can report. */
  lemma KnownModes()
    ensures Lookup("20m") == Some(0) && Lookup("30mstd") == Some(1) && Lookup("30m15f") == Some(2)
    ensures Lookup("30m30f") == Some(3) && Lookup("40m") == Some(4)
  {
    hide Contains, Lookup;
    assert MODES[0].text == "20m" && MODES[1].text == "30mstd" && MODES[2].text == "30m15f";
    assert MODES[3].text == "30m30f" && MODES[4].text == "40m";
    forall i: Mode ensures Lookup(MODES[i].text) == Some(i) { LookupOfText(i); }
  }

  lemma LookupOfText(i: Mode)
    ensures Lookup(MODES[i].text) == Some(i)
  {
    hide Contains, LookupFrom;
    TextIsTruthful(i);
    LookupIsTruthful(MODES[i].text, MODES[i].text);
    TextsAreDistinct(Lookup(MODES[i].text).value, i);
  }

  // ---- the device ----

  /** A setting takes effect when the device reboots. */
  datatype Setting = Setting(inForce: string, stored: string)

  datatype TriggerIn = NoTrigger | OnRise

  datatype TriggerOut = NoPulse | RiseOnLast

  /** How the device streams: whether in binary with IMU data, its trigger input and output, and the frame period in
      milliseconds, "0" for none. */
  datatype Output = Output(binaryImu: bool, trigIn: TriggerIn, trigOut: TriggerOut, period: string)

  /** `now` is in force at once, `startup` from the next reboot on. */
  datatype Device = Device(start: Setting, mode: Setting, now: Output, startup: Output)

  function Rebooted(d: Device): Device {
    Device(Setting(d.start.stored, d.start.stored), Setting(d.mode.stored, d.mode.stored), d.startup, d.startup)
  }

  /** What a command makes of the output settings. */
  function Set(o: Output, cmd: string): Output {
    if "fsync " <= cmd then o.(period := cmd[6..])
    else if cmd == "format binary imu" then o.(binaryImu := true)
    else if cmd == "trgin disable" then o.(trigIn := NoTrigger)
    else if cmd == "trgin rise" then o.(trigIn := OnRise)
    else if cmd == "trgout disable" then o.(trigOut := NoPulse)
    else if cmd == "trgout riselast" then o.(trigOut := RiseOnLast)
    else o
  }

  /** The same with `fl` in front, which stores the setting. */
  function Store(d: Device, cmd: string): Device {
    if "start " <= cmd then d.(start := d.start.(stored := cmd[6..]))
    else if "mode " <= cmd then d.(mode := d.mode.(stored := cmd[5..]))
    else d.(startup := Set(d.startup, cmd))
  }

  /** What a command makes of the device. */
  function Obey(d: Device, cmd: string): Device {
    if cmd == "reboot" then Rebooted(d) else if "fl" <= cmd then Store(d, cmd[2..]) else d.(now := Set(d.now, cmd))
  }

  /** The commands that the driver sends, one by one. */
  lemma SetTexts(o: Output, text: string)
    ensures Set(o, "fsync " + text) == o.(period := text) && Set(o, "format binary imu") == o.(binaryImu := true)
    ensures Set(o, "trgin disable") == o.(trigIn := NoTrigger) && Set(o, "trgin rise") == o.(trigIn := OnRise)
    ensures Set(o, "trgout disable") == o.(trigOut := NoPulse)
    ensures Set(o, "trgout riselast") == o.(trigOut := RiseOnLast)
  {
    assert ("fsync " + text)[6..] == text;
    assert "fsync "[0] == 'f' && "fsync "[1] == 's' && "format binary imu"[1] == 'o';
    assert "trgin disable"[0] == 't' && "trgin rise"[0] == 't';
    assert "trgout disable"[0] == 't' && "trgout riselast"[0] == 't';
  }

  lemma ObeyTexts(d: Device, text: string)
    ensures Obey(d, "reboot") == Rebooted(d)
    ensures Obey(d, "flstart " + text) == d.(start := d.start.(stored := text))
    ensures Obey(d, "flmode " + text) == d.(mode := d.mode.(stored := text))
  {
    assert ("flstart " + text)[0] == 'f' && ("flmode " + text)[0] == 'f' && "reboot"[0] == 'r';
    assert ("flstart " + text)[2..] == "start " + text && ("flmode " + text)[2..] == "mode " + text;
    assert ("start " + text)[6..] == text && ("mode " + text)[5..] == text;
    assert ("mode " + text)[0] == 'm';
  }

  lemma ObeyStored(d: Device, cmd: string, whole: string)
    requires cmd != "" && cmd[0] != 's' && cmd[0] != 'm' && whole == "fl" + cmd
    ensures Obey(d, whole) == d.(startup := Set(d.startup, cmd))
  {
    hide Set;
    assert whole[0] == 'f' && "reboot"[0] == 'r' && whole[2..] == cmd && "start "[0] == 's' && "mode "[0] == 'm';
  }

  lemma ObeyNow(d: Device, cmd: string)
    requires |cmd| > 1 && cmd[0] != 'r' && cmd[1] != 'l'
    ensures Obey(d, cmd) == d.(now := Set(d.now, cmd))
  {
    hide Set;
    assert "reboot"[0] == 'r' && "fl"[1] == 'l';
  }

  /** The commands that set the output up for the next startup. */
  lemma ObeyStartup(d: Device)
    ensures Obey(d, "flformat binary imu") == d.(startup := d.startup.(binaryImu := true))
    ensures Obey(d, "fltrgout disable") == d.(startup := d.startup.(trigOut := NoPulse))
    ensures Obey(d, "fltrgin disable") == d.(startup := d.startup.(trigIn := NoTrigger))
    ensures Obey(d, "flfsync 0") == d.(startup := d.startup.(period := "0"))
    ensures Obey(d, "fltrgout riselast") == d.(startup := d.startup.(trigOut := RiseOnLast))
  {
    hide Set, Obey;
    SetTexts(d.startup, "0");
    assert "fsync " + "0" == "fsync 0";
    ObeyStored(d, "format binary imu", "flformat binary imu");
    ObeyStored(d, "trgout disable", "fltrgout disable");
    ObeyStored(d, "trgin disable", "fltrgin disable");
    ObeyStored(d, "fsync 0", "flfsync 0");
    ObeyStored(d, "trgout riselast", "fltrgout riselast");
  }

  /** The commands that set it up at once. */
  lemma ObeyAtOnce(d: Device, text: string)
    ensures Obey(d, "format binary imu") == d.(now := d.now.(binaryImu := true))
    ensures Obey(d, "trgin disable") == d.(now := d.now.(trigIn := NoTrigger))
    ensures Obey(d, "trgin rise") == d.(now := d.now.(trigIn := OnRise))
    ensures Obey(d, "fsync " + text) == d.(now := d.now.(period := text))
    ensures Obey(d, "fsync 0") == d.(now := d.now.(period := "0"))
  {
    hide Set, Obey;
    SetTexts(d.now, text);
    SetTexts(d.now, "0");
    assert "fsync " + "0" == "fsync 0";
    ObeyNow(d, "format binary imu");
    ObeyNow(d, "trgin disable");
    ObeyNow(d, "trgin rise");
    ObeyNow(d, "fsync " + text);
    ObeyNow(d, "fsync 0");
  }

  /** What starts a frame: a pulse at the trigger input, or the device's own period in milliseconds. */
  datatype Pace = OnTrigger | Every(period: string)

  function PaceOf(o: Output): Pace { if o.trigIn == OnRise then OnTrigger else Every(o.period) }

  datatype SyncMode = Unsynced | Master | Slave

  /** `start` is the start mode that the kind of device needs, cdc or hist; `period` is the frame period as printed. */
  datatype Config = Config(start: string, mode: Mode, sync: SyncMode, rate: nat, period: string)

  function ModeText(cfg: Config): string { MODES[cfg.mode].text }

  /** How many settings are stored wrongly. */
  function Wrong(cfg: Config, d: Device): nat {
    (if d.start.stored == cfg.start then 0 else 1) + (if d.mode.stored == ModeText(cfg) then 0 else 1)
  }

  /** Nothing is waiting for a reboot. */
  predicate Settled(d: Device) { d.start.inForce == d.start.stored && d.mode.inForce == d.mode.stored }

  function SetupCommands(cfg: Config): (cmds: seq<string>)
    ensures |cmds| == 8
  {
    ["flformat binary imu", "fltrgout disable", "fltrgin disable", "flfsync 0",
     "format binary imu", "fltrgout riselast"]
    + if cfg.sync == Slave then ["trgin rise", "fsync 0"] else ["trgin disable", "fsync " + cfg.period]
  }

  const CLOSING: seq<string> := ["fsync 0", "trgin disable"]

  /** What stop_if_streaming may send. */
  const QUIET: string := "fsync 0"

  // ---- the thread ----

  datatype Pc =
    | Idle | FindPort | Connecting | Connected
    | AskStart | SetStart | AskInfo | SetMode | Reboot
    | Announce | Setup(k: nat) | Skip(k: nat) | Stream | Frame
    | Left | Closing(k: nat) | Final | Ended | Crashed

  /** What the outside sees: the start of a run, and the two connection callbacks. `Up` also records the device at the
      start of the run and at this moment, and the number of passes with a connection that it took. */
  datatype Event = Begun | Up(begun: Device, dev: Device, passes: nat) | Down

  /** `serial` is the port object, if there is one, and whether it is open. */
  datatype State = State(pc: Pc, running: bool, serial: Option<bool>, dev: Device, begun: Device, passes: nat,
                         sent: seq<string>, events: seq<Event>)

  /** The environment's part in a step: whether it throws; whether what is waited for does not come yet; whether the
      port is found, the flush succeeds, the version is supported, or a command reached the device; whether the port
      opens; the line that comes back. */
  datatype Answer = Answer(throws: bool, silent: bool, yes: bool, opens: bool, line: string)

  datatype Input = Start | Stop | Tick(a: Answer)

  function Initial(dev: Device): State { State(Idle, false, None, dev, dev, 0, [], []) }

  /** A command was sent. Unless its answer came back, it may or may not have reached the device: an exception may come
      before or after, and a thread that was stopped does not wait for the echo. */
  function Sent(s: State, a: Answer, cmd: string, next: Pc): State {
    s.(dev := if a.yes || (s.running && !a.throws) then Obey(s.dev, cmd) else s.dev,
       pc := if a.throws then Left else next)
  }

  /** A command whose prompt is waited for, also after stop(). */
  function Acked(s: State, a: Answer, cmd: string, next: Pc, failed: Pc): State {
    if a.throws then s.(dev := if a.yes then Obey(s.dev, cmd) else s.dev, pc := failed)
    else s.(dev := Obey(s.dev, cmd), sent := s.sent + [cmd], pc := next)
  }

  /** Where silence keeps the thread waiting. read_to_prompt and the inner loops of read_imu never test `_running`,
      read_line_until does. */
  predicate Waits(s: State, a: Answer) {
    a.silent &&
    match s.pc
    case AskStart | AskInfo | Setup(_) | Frame => true
    case SetStart | SetMode | Reboot => s.running
    case Skip(k) => k > 0 && s.running
    case Closing(_) => s.serial == Some(true)
    case _ => false
  }

  function Next(cfg: Config, s: State, input: Input): State {
    match input
    case Start =>
      if s.pc.Idle? || s.pc.Ended? then
        s.(pc := FindPort, running := true, begun := s.dev, passes := 0, sent := [], events := s.events + [Begun])
      else s
    case Stop => s.(running := false)
    case Tick(a) => Turn(cfg, s, a)
  }

  function Turn(cfg: Config, s: State, a: Answer): State {
    if Waits(s, a) && !a.throws then s
    else
    match s.pc
    case Idle | Ended | Crashed => s
    case FindPort =>
      if !s.running || a.throws then s.(pc := Left) else if a.yes then s.(pc := Connecting) else s
    case Connecting =>
      if !s.running then s.(pc := Left)
      else if !a.opens then s
      else if !a.yes then s.(serial := Some(true))
      else s.(serial := Some(true), passes := s.passes + 1, pc := Connected)
    case Connected =>
      if !s.running then s.(pc := Left)
      else s.(dev := if a.yes then Obey(s.dev, QUIET) else s.dev, pc := if a.throws then Left else AskStart)
    case AskStart => s.(pc := if a.throws then Left else if Contains(a.line, cfg.start) then AskInfo else SetStart)
    case SetStart => Sent(s, a, "flstart " + cfg.start, Reboot)
    case AskInfo =>
      if a.throws || !a.yes then s.(pc := Left)
      else
        var found := Lookup(a.line);
        s.(pc := if found.None? then Left else if found.value == cfg.mode then Announce else SetMode)
    case SetMode => Sent(s, a, "flmode " + ModeText(cfg), Reboot)
    case Reboot => Sent(s, a, "reboot", FindPort).(serial := if a.throws then s.serial else Some(false))
    case Announce =>
      if !s.running then s.(pc := Left)
      else s.(pc := Setup(0), sent := [], events := s.events + [Up(s.begun, s.dev, s.passes)])
    case Setup(k) =>
      if k >= 8 then s.(pc := Left)
      else Acked(s, a, SetupCommands(cfg)[k], if k + 1 < 8 then Setup(k + 1) else Skip(cfg.rate), Left)
    case Skip(k) => s.(pc := if k == 0 then Stream else if a.throws then Left else Skip(k - 1))
    case Stream => if !s.running || a.throws then s.(pc := Left) else if a.silent then s.(pc := Frame) else s
    case Frame => s.(pc := if a.throws then Left else Stream)
    case Left => s.(pc := if !s.running && s.serial.Some? then Closing(0) else Final, sent := [])
    case Closing(k) =>
      if s.serial != Some(true) || k >= 2 then s.(pc := Crashed)
      else Acked(s, a, CLOSING[k], if k == 0 then Closing(1) else Final, Crashed)
    case Final =>
      s.(pc := Ended, running := false, events := s.events + [Down],
         serial := if s.serial.Some? then Some(false) else None)
  }

  /** A device that tells its settings truthfully as long as it is listened to: after stop() a line may belong to
      anything. */
  predicate Honest(cfg: Config, s: State, input: Input) {
    input.Tick? && !input.a.throws && !input.a.silent && s.running ==>
      && (s.pc.AskStart? ==> (Contains(input.a.line, cfg.start) <==> s.dev.start.inForce == cfg.start))
      && (s.pc.AskInfo? ==> NamesOnly(input.a.line, s.dev.mode.inForce))
  }

  // ---- what every run keeps ----

  datatype Phase = Outside | Negotiating | Announced

  /** The callbacks that may follow; None if one came out of turn. */
  function PhaseThen(p: Option<Phase>, e: Event): Option<Phase> {
    if p == Some(Outside) && e.Begun? then Some(Negotiating)
    else if p == Some(Negotiating) && e.Up? then Some(Announced)
    else if (p == Some(Negotiating) || p == Some(Announced)) && e.Down? then Some(Outside)
    else None
  }

  /** How far a history of events has come. */
  function PhaseAfter(events: seq<Event>): Option<Phase> {
    if events == [] then Some(Outside) else PhaseThen(PhaseAfter(events[..|events| - 1]), events[|events| - 1])
  }

  lemma PhaseAppend(events: seq<Event>, e: Event)
    ensures PhaseAfter(events + [e]) == PhaseThen(PhaseAfter(events), e)
  {
  }

  predicate InPhase(pc: Pc, p: Option<Phase>) {
    match pc
    case Idle | Ended => p == Some(Outside)
    case Setup(_) | Skip(_) | Stream | Frame => p == Some(Announced)
    case Left | Closing(_) | Final | Crashed => p == Some(Negotiating) || p == Some(Announced)
    case _ => p == Some(Negotiating)
  }

  /** Both settings were right, in force, when the connection was announced, after at most three passes; if nothing was
      waiting for a reboot at first, there was one pass more than there were wrong settings. */
  predicate UpOk(cfg: Config, e: Event) {
    e.Up? ==>
      && e.dev.start.inForce == cfg.start && e.dev.mode.inForce == ModeText(cfg)
      && 1 <= e.passes <= 3
      && (Settled(e.begun) ==> e.passes == 1 + Wrong(cfg, e.begun))
  }

  predicate PortOk(s: State) {
    match s.pc
    case Connected | AskStart | SetStart | AskInfo | SetMode | Reboot => s.serial == Some(true)
    case Announce | Setup(_) | Skip(_) | Stream | Frame => s.serial == Some(true)
    case _ => true
  }

  /** The number of passes still to come, at worst, given by what is stored. */
  predicate Budget(cfg: Config, s: State, spent: nat) {
    && (s.passes >= 1 + spent ==> Settled(s.dev))
    && s.passes + Wrong(cfg, s.dev) <= 2 + spent
    && (Settled(s.begun) ==> Settled(s.dev) && s.passes + Wrong(cfg, s.dev) == Wrong(cfg, s.begun) + spent)
  }

  /** What is known of the device while nobody has called stop(). */
  predicate Negotiated(cfg: Config, s: State) {
    match s.pc
    case FindPort | Connecting => Budget(cfg, s, 0)
    case Connected | AskStart => 1 <= s.passes && Budget(cfg, s, 1)
    case SetStart => 1 <= s.passes && Budget(cfg, s, 1) && s.dev.start.inForce != cfg.start
    case AskInfo => 1 <= s.passes && Budget(cfg, s, 1) && s.dev.start.inForce == cfg.start
    case SetMode =>
      1 <= s.passes && Budget(cfg, s, 1) && s.dev.start.inForce == cfg.start && s.dev.mode.inForce != ModeText(cfg)
    case Reboot =>
      1 <= s.passes && s.passes + Wrong(cfg, s.dev) <= 2
      && (Settled(s.begun) ==> s.passes + Wrong(cfg, s.dev) == Wrong(cfg, s.begun))
    case Announce =>
      1 <= s.passes && Budget(cfg, s, 1) && s.dev.start.inForce == cfg.start && s.dev.mode.inForce == ModeText(cfg)
    case _ => true
  }

  predicate SentOk(cfg: Config, s: State) {
    match s.pc
    case Setup(k) => k < 8 && s.sent == SetupCommands(cfg)[..k]
    case Skip(_) | Stream | Frame => s.sent == SetupCommands(cfg)
    case Closing(k) => k < 2 && s.sent == CLOSING[..k]
    case _ => true
  }

  /** How far the output is set up after `k` of the commands. */
  predicate SetSoFar(cfg: Config, d: Device, k: nat) {
    && (k >= 1 ==> d.startup.binaryImu) && (k >= 3 ==> d.startup.trigIn == NoTrigger)
    && (k >= 4 ==> d.startup.period == "0") && (k >= 5 ==> d.now.binaryImu)
    && (k >= 6 ==> d.startup.trigOut == RiseOnLast)
    && (k >= 7 ==> d.now.trigIn == if cfg.sync == Slave then OnRise else NoTrigger)
    && (k >= 8 ==> d.now.period == if cfg.sync == Slave then "0" else cfg.period)
  }

  /** What the device has been set to when it streams, and what the closing commands leave. */
  predicate OutputOk(cfg: Config, s: State) {
    match s.pc
    case Setup(k) => SetSoFar(cfg, s.dev, k)
    case Skip(_) | Stream | Frame => SetSoFar(cfg, s.dev, 8)
    case Closing(k) => k > 0 ==> s.dev.now.period == "0"
    case _ => true
  }

  predicate Tallied(cfg: Config, s: State) {
    && s.passes <= 3
    && (s.running ==> Negotiated(cfg, s))
    && (s.pc.Idle? || s.pc.Ended? ==> !s.running)
  }

  ghost predicate UpsOk(cfg: Config, events: seq<Event>) { forall i :: 0 <= i < |events| ==> UpOk(cfg, events[i]) }

  /** What needs no truthful device: the order of the callbacks, the state of the port, the commands sent, and what they
      have made of the device. */
  predicate Orderly(cfg: Config, s: State) {
    InPhase(s.pc, PhaseAfter(s.events)) && PortOk(s) && SentOk(cfg, s) && OutputOk(cfg, s)
  }

  ghost predicate Inv(cfg: Config, s: State) { Orderly(cfg, s) && UpsOk(cfg, s.events) && Tallied(cfg, s) }

  lemma StepKeepsPhase(cfg: Config, s: State, input: Input)
    requires InPhase(s.pc, PhaseAfter(s.events))
    ensures InPhase(Next(cfg, s, input).pc, PhaseAfter(Next(cfg, s, input).events))
  {
    hide Contains, LookupFrom, SetupCommands, ModeText, Obey, PhaseAfter;
    PhaseAppend(s.events, Begun);
    PhaseAppend(s.events, Up(s.begun, s.dev, s.passes));
    PhaseAppend(s.events, Down);
    match s.pc
    case Announce =>
    case Final =>
    case Idle =>
    case Ended =>
    case _ =>
  }

  lemma TurnKeepsNegotiated(cfg: Config, s: State, a: Answer)
    requires s.running && Negotiated(cfg, s) && Honest(cfg, s, Tick(a))
    ensures Turn(cfg, s, a).running ==> Negotiated(cfg, Turn(cfg, s, a))
  {
    hide Contains, LookupFrom, SetupCommands, ModeText, NamesOnly, Obey;
    match s.pc
    case AskInfo =>
      if !a.throws && !a.silent {
        LookupIsTruthful(a.line, s.dev.mode.inForce);
        if Lookup(a.line).Some? { TextsAreDistinct(Lookup(a.line).value, cfg.mode); }
        ModeTextIs(cfg);
      }
    case SetStart => ObeyTexts(s.dev, cfg.start);
    case SetMode => ObeyTexts(s.dev, ModeText(cfg));
    case Reboot => ObeyTexts(s.dev, "");
    case Connected => ObeyAtOnce(s.dev, "0");
    case _ =>
  }

  lemma ModeTextIs(cfg: Config)
    ensures ModeText(cfg) == MODES[cfg.mode].text
  {
  }

  lemma StepKeepsNegotiated(cfg: Config, s: State, input: Input)
    requires (s.running ==> Negotiated(cfg, s)) && Honest(cfg, s, input)
    ensures Next(cfg, s, input).running ==> Negotiated(cfg, Next(cfg, s, input))
  {
    hide Contains, LookupFrom, SetupCommands, ModeText, NamesOnly, Obey;
    match input
    case Start =>
    case Stop =>
    case Tick(a) => if s.running { TurnKeepsNegotiated(cfg, s, a); } else { hide Negotiated; }
  }

  lemma StepKeepsUps(cfg: Config, s: State, input: Input)
    requires UpsOk(cfg, s.events) && Tallied(cfg, s)
    ensures UpsOk(cfg, Next(cfg, s, input).events)
  {
    hide Contains, LookupFrom, SetupCommands, ModeText, Obey;
    match s.pc
    case Announce =>
    case Idle =>
    case Ended =>
    case Final =>
    case _ => { hide Negotiated, UpOk; }
  }

  lemma StepKeepsPort(cfg: Config, s: State, input: Input)
    requires PortOk(s)
    ensures PortOk(Next(cfg, s, input))
  {
  }

  lemma StepKeepsTally(cfg: Config, s: State, input: Input)
    requires Tallied(cfg, s) && Honest(cfg, s, input)
    ensures Tallied(cfg, Next(cfg, s, input))
  {
    StepKeepsNegotiated(cfg, s, input);
    PassesBounded(cfg, s, input);
  }

  lemma PassesBounded(cfg: Config, s: State, input: Input)
    requires Tallied(cfg, s)
    ensures Next(cfg, s, input).passes <= 3
    ensures Next(cfg, s, input).pc.Idle? || Next(cfg, s, input).pc.Ended? ==> !Next(cfg, s, input).running
  {
    hide Contains, LookupFrom, SetupCommands, ModeText, Obey, Settled;
    match s.pc
    case Connecting =>
    case _ => { hide Negotiated; }
  }

  /** Each of the setup commands takes the device one step further. */
  lemma SetupStep(cfg: Config, d: Device, k: nat)
    requires k < 8 && SetSoFar(cfg, d, k)
    ensures SetSoFar(cfg, Obey(d, SetupCommands(cfg)[k]), k + 1)
  {
    hide Obey;
    ObeyStartup(d);
    ObeyAtOnce(d, cfg.period);
  }

  /** None of them touches the start mode, the mode, or the trigger output in force. */
  lemma SetupKeeps(cfg: Config, d: Device, k: nat)
    requires k < 8
    ensures var e := Obey(d, SetupCommands(cfg)[k]);
      e.start == d.start && e.mode == d.mode && e.now.trigOut == d.now.trigOut
  {
    hide Obey;
    ObeyStartup(d);
    ObeyAtOnce(d, cfg.period);
  }

  lemma NothingSet(cfg: Config, d: Device)
    ensures SetSoFar(cfg, d, 0)
  {
  }

  lemma StepKeepsOutput(cfg: Config, s: State, input: Input)
    requires OutputOk(cfg, s)
    ensures OutputOk(cfg, Next(cfg, s, input))
  {
    hide Contains, LookupFrom, SetupCommands, ModeText, Obey;
    match s.pc
    case Setup(k) =>
      if k < 8 { SetupStep(cfg, s.dev, k); }
      hide SetSoFar;
    case Closing(k) => { hide SetSoFar; ObeyAtOnce(s.dev, "0"); }
    case _ => { hide SetSoFar; if s.pc.Announce? { NothingSet(cfg, s.dev); } }
  }

  lemma StepKeepsSent(cfg: Config, s: State, input: Input)
    requires SentOk(cfg, s)
    ensures SentOk(cfg, Next(cfg, s, input))
  {
    hide Contains, LookupFrom, SetupCommands, ModeText, Obey;
    var cmds := SetupCommands(cfg);
    if s.pc.Setup? {
      assert cmds[..s.pc.k + 1] == cmds[..s.pc.k] + [cmds[s.pc.k]];
      assert cmds[..8] == cmds;
    }
  }

  /** What every step keeps, whatever the device does. */
  lemma StepKeepsOrder(cfg: Config, s: State, input: Input)
    requires Orderly(cfg, s)
    ensures Orderly(cfg, Next(cfg, s, input))
  {
    hide Next, InPhase, PortOk, SentOk, OutputOk, PhaseAfter;
    StepKeepsPhase(cfg, s, input);
    StepKeepsPort(cfg, s, input);
    StepKeepsSent(cfg, s, input);
    StepKeepsOutput(cfg, s, input);
  }

  /** What every step keeps, with a device that tells the truth. */
  lemma StepKeepsInv(cfg: Config, s: State, input: Input)
    requires Inv(cfg, s) && Honest(cfg, s, input)
    ensures Inv(cfg, Next(cfg, s, input))
  {
    hide Next, Honest, Orderly, UpsOk, Tallied;
    StepKeepsOrder(cfg, s, input);
    StepKeepsUps(cfg, s, input);
    StepKeepsTally(cfg, s, input);
  }
}
