/** The device thread as it is written, proved to be a run of the step machine: what holds on every run of the machine
    holds for the thread. */
module DeviceThread {
  import opened Words
  import opened Negotiation
  import opened NegotiationRuns

  datatype Thrown = Thrown

  class Thread {
    const cfg: Config
    /** The device as it was before the first run. */
    const found: Device
    var running: bool
    var serial: Option<bool>
    var dev: Device
    var begun: Device
    var passes: nat
    var sent: seq<string>
    var events: seq<Event>
    /** Where the thread stands. */
    var pc: Pc
    /** Some time stop() is called: at the latest after this many steps. */
    var patience: nat
    /** Some time the device answers: it is silent in at most this many steps. */
    var silences: nat
    ghost var inputs: seq<Input>

    function Abs(): State
      reads this
    {
      State(pc, running, serial, dev, begun, passes, sent, events)
    }

    ghost predicate Valid()
      reads this
    {
      Abs() == Exec(cfg, found, inputs)
    }

    constructor (cfg: Config, dev: Device, patience: nat, silences: nat)
      ensures Valid() && pc.Idle? && this.cfg == cfg && this.dev == dev && events == []
    {
      this.cfg, found, this.dev, begun, this.patience, this.silences := cfg, dev, dev, dev, patience, silences;
      running, serial, passes, sent, events, pc, inputs := false, None, 0, [], [], Idle, [];
    }

    /** start(), when no run is going on. */
    method Start(patience: nat, silences: nat)
      requires Valid() && (pc.Idle? || pc.Ended?)
      modifies this
      ensures Valid() && old(inputs) <= inputs && pc.FindPort? && events == old(events) + [Begun]
    {
      hide Exec, Obey;
      ExecAppend(cfg, found, inputs, Input.Start);
      running, passes, sent, events, begun, pc := true, 0, [], events + [Begun], dev, FindPort;
      this.patience, this.silences, inputs := patience, silences, inputs + [Input.Start];
    }

    /** What the environment does in the next step. stop() may be called before it, at any time. */
    method Await() returns (a: Answer)
      requires Valid()
      modifies this`running, this`patience, this`silences, this`inputs
      ensures Valid() && old(inputs) <= inputs && silences <= old(silences) && (a.silent ==> silences < old(silences))
      ensures patience <= old(patience) && (running ==> old(running) && patience < old(patience))
    {
      hide Exec, Obey;
      if running {
        var stopped: bool := *;
        if stopped || patience == 0 {
          ExecAppend(cfg, found, inputs, Stop);
          running, inputs := false, inputs + [Stop];
        } else {
          patience := patience - 1;
        }
      }
      a := *;
      if a.silent && silences == 0 { a := a.(silent := false); }
      if a.silent { silences := silences - 1; }
    }

    /** What ends the exchange that the thread is in: it waits while the device is silent. */
    method Reply() returns (a: Answer)
      requires Valid()
      modifies this`running, this`patience, this`silences, this`inputs
      ensures Valid() && old(inputs) <= inputs && (a.throws || !Waits(Abs(), a))
      ensures patience <= old(patience) && (running ==> old(running) && patience < old(patience))
    {
      hide Exec, Obey;
      a := Await();
      while !a.throws && Waits(Abs(), a)
        invariant Valid() && old(inputs) <= inputs
        invariant patience <= old(patience) && (running ==> old(running) && patience < old(patience))
        decreases silences, a.silent
      {
        assert Turn(cfg, Abs(), a) == Abs();
        Took(Abs(), a);
        a := Await();
      }
    }

    /** The step that the thread has just taken is the machine's. */
    ghost method Took(before: State, a: Answer)
      requires before == Exec(cfg, found, inputs) && Abs() == Turn(cfg, before, a)
      modifies this`inputs
      ensures Valid() && old(inputs) <= inputs
    {
      hide Exec, Obey, Turn;
      ExecAppend(cfg, found, inputs, Tick(a));
      inputs := inputs + [Tick(a)];
    }

    /** The inner loop of run(): connects to the port that was found. */
    method Connect() returns (connected: bool)
      requires Valid() && pc.Connecting?
      modifies this
      ensures Valid() && old(inputs) <= inputs && pc == (if connected then Connected else Left)
      ensures patience <= old(patience) && (running ==> patience < old(patience))
    {
      hide Exec, Obey;
      while true
        invariant Valid() && old(inputs) <= inputs && pc.Connecting? && patience <= old(patience)
        decreases patience
      {
        var a := Await();
        ghost var before := Abs();
        if !running {
          pc := Left;
          Took(before, a);
          return false;
        }
        if a.opens {
          serial := Some(true);
          if a.yes {
            passes, pc := passes + 1, Connected;
            Took(before, a);
            return true;
          }
        }
        Took(before, a);
      }
    }

    /** verify_device_mode: Ok(false) after it has set the start mode and rebooted the device. */
    method VerifyDeviceMode() returns (r: Result<bool, Thrown>)
      requires Valid() && pc.AskStart?
      modifies this
      ensures Valid() && old(inputs) <= inputs && pc == (if r.Err? then Left else if r.value then AskInfo else FindPort)
      ensures patience <= old(patience)
    {
      hide Exec, Obey, Contains;
      var a := Reply();
      ghost var before := Abs();
      if a.throws {
        pc := Left;
        Took(before, a);
        return Err(Thrown);
      }
      if Contains(a.line, cfg.start) {
        pc := AskInfo;
        Took(before, a);
        return Ok(true);
      }
      pc := SetStart;
      Took(before, a);
      var stored := Command("flstart " + cfg.start);
      if stored.Err? { return Err(Thrown); }
      var rebooted := RebootDevice();
      r := if rebooted.Err? then Err(Thrown) else Ok(false);
    }

    /** Sends a command that changes a setting. */
    method Command(cmd: string) returns (r: Result<(), Thrown>)
      requires Valid() && (pc.SetStart? || pc.SetMode?)
      requires cmd == if pc.SetStart? then "flstart " + cfg.start else "flmode " + ModeText(cfg)
      modifies this
      ensures Valid() && old(inputs) <= inputs && pc == (if r.Ok? then Reboot else Left)
      ensures patience <= old(patience)
    {
      hide Exec, Obey, Contains, ModeText;
      var a := Reply();
      ghost var before := Abs();
      if a.yes || (running && !a.throws) { dev := Obey(dev, cmd); }
      if a.throws {
        pc := Left;
        Took(before, a);
        return Err(Thrown);
      }
      pc := Reboot;
      Took(before, a);
      r := Ok(());
    }

    method RebootDevice() returns (r: Result<(), Thrown>)
      requires Valid() && pc.Reboot?
      modifies this
      ensures Valid() && old(inputs) <= inputs && pc == (if r.Ok? then FindPort else Left)
      ensures patience <= old(patience)
    {
      hide Exec, Obey, Contains, ModeText;
      var a := Reply();
      ghost var before := Abs();
      if a.yes || (running && !a.throws) { dev := Obey(dev, "reboot"); }
      if a.throws {
        pc := Left;
        Took(before, a);
        return Err(Thrown);
      }
      serial, pc := Some(false), FindPort;
      Took(before, a);
      r := Ok(());
    }

    /** get_device_info and the comparison that follows it: Ok(false) after it has set the mode and rebooted. */
    method CheckMode() returns (r: Result<bool, Thrown>)
      requires Valid() && pc.AskInfo?
      modifies this
      ensures Valid() && old(inputs) <= inputs
      ensures pc == (if r.Err? then Left else if r.value then Announce else FindPort)
      ensures patience <= old(patience)
    {
      hide Exec, Obey, Contains, ModeText, LookupFrom;
      var a := Reply();
      ghost var before := Abs();
      if a.throws || !a.yes {
        pc := Left;
        Took(before, a);
        return Err(Thrown);
      }
      var mode := LookupMode(a.line);
      if mode.None? {
        pc := Left;
        Took(before, a);
        return Err(Thrown);
      }
      if mode.value == cfg.mode {
        pc := Announce;
        Took(before, a);
        return Ok(true);
      }
      pc := SetMode;
      Took(before, a);
      var stored := Command("flmode " + ModeText(cfg));
      if stored.Err? { return Err(Thrown); }
      var rebooted := RebootDevice();
      r := if rebooted.Err? then Err(Thrown) else Ok(false);
    }

    /** The head of the outer loop of run(): Ok(false) while no port is found, Err(Thrown) when the loop is left. */
    method FindDevice() returns (r: Result<bool, Thrown>)
      requires Valid() && pc.FindPort?
      modifies this
      ensures Valid() && old(inputs) <= inputs
      ensures pc == (if r.Err? then Left else if r.value then Connecting else FindPort)
      ensures patience <= old(patience) && (r.Ok? ==> patience < old(patience))
    {
      hide Exec, Obey;
      var a := Await();
      ghost var before := Abs();
      if !running || a.throws {
        pc := Left;
        Took(before, a);
        return Err(Thrown);
      }
      if a.yes { pc := Connecting; }
      Took(before, a);
      r := Ok(a.yes);
    }

    /** The test of `_running` behind the inner loop, and stop_if_streaming. */
    method StillRunning() returns (still: bool)
      requires Valid() && pc.Connected?
      modifies this
      ensures Valid() && old(inputs) <= inputs && pc == (if still then AskStart else Left)
      ensures patience <= old(patience)
    {
      hide Exec, Obey;
      var a := Await();
      ghost var before := Abs();
      still := running && !a.throws;
      if running && a.yes { dev := Obey(dev, QUIET); }
      pc := if running && !a.throws then AskStart else Left;
      Took(before, a);
    }

    /** The first part of run(): passes over the device until both settings are confirmed. */
    method Negotiate() returns (ready: bool)
      requires Valid() && pc.FindPort?
      modifies this
      ensures Valid() && old(inputs) <= inputs && pc == (if ready then Announce else Left)
    {
      hide Exec, Obey, Valid;
      while true
        invariant Valid() && old(inputs) <= inputs && pc.FindPort?
        decreases patience
      {
        var device := FindDevice();
        if device.Err? { return false; }
        if !device.value { continue; }
        var connected := Connect();
        if !connected { return false; }
        var still := StillRunning();
        if !still { return false; }
        var verified := VerifyDeviceMode();
        if verified.Err? { return false; }
        if !verified.value { continue; }
        var checked := CheckMode();
        if checked.Err? { return false; }
        if checked.value { return true; }
      }
    }

    /** The second part of run(): announces the connection, sets the device up and skips the first frames. */
    method SetUp() returns (ready: bool)
      requires Valid() && pc.Announce?
      modifies this
      ensures Valid() && old(inputs) <= inputs && pc == (if ready then Stream else Left)
      ensures ready ==>
        dev.now.binaryImu && PaceOf(dev.now) == if cfg.sync == Slave then OnTrigger else Every(cfg.period)
    {
      hide Exec, Obey, PaceOf, SetupCommands;
      ready := AnnounceConnection();
      if ready { ready := SendSetup(); }
      if ready { ready := SkipFrames(); }
      if ready { StreamingIsSetUp(cfg, found, inputs, Abs()); }
    }

    method AnnounceConnection() returns (announced: bool)
      requires Valid() && pc.Announce?
      modifies this
      ensures Valid() && old(inputs) <= inputs && pc == (if announced then Setup(0) else Left)
      ensures events == old(events) + if announced then [Up(begun, dev, passes)] else []
    {
      hide Exec, Obey, SetupCommands;
      var a := Await();
      ghost var before := Abs();
      if !running {
        pc := Left;
        Took(before, a);
        return false;
      }
      events := events + [Up(begun, dev, passes)];
      sent, pc := [], Setup(0);
      Took(before, a);
      announced := true;
    }

    method SendSetup() returns (done: bool)
      requires Valid() && pc == Setup(0)
      modifies this
      ensures Valid() && old(inputs) <= inputs && pc == (if done then Skip(cfg.rate) else Left)
    {
      hide Exec, Obey, SetupCommands;
      var cmds := SetupCommands(cfg);
      for k := 0 to 8
        invariant Valid() && old(inputs) <= inputs && pc == (if k < 8 then Setup(k) else Skip(cfg.rate))
      {
        var a := Reply();
        ghost var before := Abs();
        if a.yes || !a.throws { dev := Obey(dev, cmds[k]); }
        if a.throws {
          pc := Left;
          Took(before, a);
          return false;
        }
        sent := sent + [cmds[k]];
        pc := if k + 1 < 8 then Setup(k + 1) else Skip(cfg.rate);
        Took(before, a);
      }
      done := true;
    }

    method SkipFrames() returns (ready: bool)
      requires Valid() && pc == Skip(cfg.rate)
      modifies this
      ensures Valid() && old(inputs) <= inputs && pc == (if ready then Stream else Left)
    {
      hide Exec, Obey, SetupCommands;
      var skip := cfg.rate;
      while skip > 0
        invariant Valid() && old(inputs) <= inputs && pc == Skip(skip)
      {
        var a := Reply();
        ghost var before := Abs();
        if a.throws {
          pc := Left;
          Took(before, a);
          return false;
        }
        skip := skip - 1;
        pc := Skip(skip);
        Took(before, a);
      }
      var a := Await();
      ghost var before := Abs();
      pc := Stream;
      Took(before, a);
      ready := true;
    }

    /** The main loop of run(): one frame after the other. */
    method Receive()
      requires Valid() && pc.Stream?
      modifies this
      ensures Valid() && old(inputs) <= inputs && pc.Left?
    {
      hide Exec, Obey, SetupCommands;
      while true
        invariant Valid() && old(inputs) <= inputs && pc.Stream?
        decreases patience
      {
        var a := Await();
        ghost var before := Abs();
        if !running || a.throws {
          pc := Left;
          Took(before, a);
          return;
        }
        if a.silent {
          pc := Frame;
          Took(before, a);
          a := Reply();
          before := Abs();
          if a.throws {
            pc := Left;
            Took(before, a);
            return;
          }
          pc := Stream;
        }
        Took(before, a);
      }
    }

    /** The closing commands, outside the try block. */
    method Close() returns (closed: bool)
      requires Valid() && pc == Closing(0)
      modifies this
      ensures Valid() && old(inputs) <= inputs && pc == (if closed then Final else Crashed)
    {
      hide Exec, Obey, SetupCommands, ModeText;
      for k := 0 to 2
        invariant Valid() && old(inputs) <= inputs && pc == (if k < 2 then Closing(k) else Final)
      {
        var a := Reply();
        ghost var before := Abs();
        if serial == Some(true) && (a.yes || !a.throws) { dev := Obey(dev, CLOSING[k]); }
        if a.throws || serial != Some(true) {
          pc := Crashed;
          Took(before, a);
          return false;
        }
        sent := sent + [CLOSING[k]];
        pc := if k == 0 then Closing(1) else Final;
        Took(before, a);
      }
      closed := true;
    }

    /** The notice at the end of run(). */
    method Finish()
      requires Valid() && pc.Final?
      modifies this
      ensures Valid() && old(inputs) <= inputs && pc.Ended? && !running && events == old(events) + [Down]
    {
      hide Exec, Obey, SetupCommands, ModeText;
      var a := Await();
      ghost var before := Abs();
      events := events + [Down];
      if serial.Some? { serial := Some(false); }
      running, pc := false, Ended;
      Took(before, a);
    }

    /** Behind the try block: whether the closing commands are sent. */
    method Leave() returns (closing: bool)
      requires Valid() && pc.Left?
      modifies this
      ensures Valid() && old(inputs) <= inputs && pc == (if closing then Closing(0) else Final)
    {
      hide Exec, Obey, SetupCommands, ModeText;
      var a := Await();
      ghost var before := Abs();
      closing := !running && serial.Some?;
      sent, pc := [], if closing then Closing(0) else Final;
      Took(before, a);
    }

    /** run(): every execution is a run of the step machine that ends with the notice, or that an exception ends while
        it closes. */
    method Run()
      requires Valid() && pc.FindPort?
      modifies this
      ensures Valid() && old(inputs) <= inputs && (pc.Ended? || pc.Crashed?)
      ensures pc.Ended? ==> !running && events != [] && events[|events| - 1].Down?
    {
      hide Exec, Obey, Valid;
      var ready := Negotiate();
      if ready { ready := SetUp(); }
      if ready { Receive(); }
      var closing := Leave();
      if closing {
        var closed := Close();
        if !closed { return; }
      }
      Finish();
    }

    /** What CallbacksInOrder says of a run of the machine, for this thread and any device. */
    lemma ThreadKeepsOrder()
      requires Valid()
      ensures forall n :: 0 <= n <= |events| ==> PhaseAfter(events[..n]).Some?
      ensures forall i, j :: 0 <= i < j < |events| && events[i].Up? && events[j].Up? ==>
        exists k :: i < k < j && events[k].Down?
      ensures Ups(events) <= Begins(events)
      ensures pc.Ended? ==> Begins(events) == Downs(events)
      ensures pc.Ended? ==> events != [] && events[|events| - 1].Down?
    {
      CallbacksInOrder(cfg, found, inputs, Abs());
    }

    /** What NegotiationIsSafe says, if the device told the truth whenever it was listened to. */
    lemma ThreadIsSafe()
      requires Valid() && HonestRun(cfg, found, inputs)
      ensures forall i :: 0 <= i < |events| ==> UpOk(cfg, events[i])
      ensures passes <= 3
    {
      NegotiationIsSafe(cfg, found, inputs, Abs());
    }
  }
}
