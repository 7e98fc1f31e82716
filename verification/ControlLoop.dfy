/**
 One tick of the control loop: the mode asks for a setpoint, the PID controller
 follows it, and the inverter is sent a power frame. What every run of ticks and
 setting changes sends is bounded by the inverter's limit.
 */
module ControlLoop {
  import opened Bytes
  import Modes
  import Pid
  import V = VeBus

  /** What the devices report at a tick; `soc` fields are `None` for a device that gave no valid data. */
  datatype Reading = Reading(gridValid: bool, gridPower: real, batterySOC: Option<real>, inverterSOC: Option<real>)

  /** `slot` is where the driver writes setpoints, 0 while it has not connected. */
  datatype State = State(modes: Modes.Settings, pid: Option<Pid.Pid>, slot: nat)

  datatype Event =
    | Tick(reading: Reading, clock: Modes.Clock, now: real)
    | Configure(settings: Modes.Settings)
    | Connect(dialogue: V.Dialogue)

  /** A command given to the inverter driver, whether it came from the override, and the slot known at that moment. */
  datatype Command = Command(watts: real, manual: bool, slot: nat)

  // ----- One tick

  function Measured(s: Modes.Settings, r: Reading): Modes.Settings {
    if r.batterySOC.Some? then s.(soc := r.batterySOC.value)
    else if r.inverterSOC.Some? then s.(soc := r.inverterSOC.value)
    else s
  }

  /** The simulated load stands in for the grid meter only while that gives no valid data. */
  predicate Simulates(s: Modes.Settings, r: Reading) {
    s.simulatedLoadEnabled && !r.gridValid
  }

  function GridPower(s: Modes.Settings, r: Reading): real {
    if Simulates(s, r) then s.simulatedLoadValue else r.gridPower
  }

  /** The modes that hand their setpoint to the PID controller. */
  predicate Steers(m: Modes.OperatingMode) {
    m != Modes.ZeroGrid && m != Modes.Manual
  }

  function Steered(p: Pid.Pid, s: Modes.Settings, c: Modes.Clock, grid: real): Pid.Pid {
    if Steers(s.mode) then p.(setpoint := Modes.Setpoint(s, c, grid)) else p
  }

  function Ticked(st: State, lim: Pid.Limits, r: Reading, c: Modes.Clock, now: real): State {
    var s := Measured(st.modes, r);
    var grid := GridPower(s, r);
    var pid := if st.pid.None? then None else Some(Pid.Updated(Steered(st.pid.value, s, c, grid), lim, grid, now));
    State(s, pid, st.slot)
  }

  /** The PID output as the loop sees it after a tick: 0 without a controller or with a disabled one. */
  function OutputOf(p: Option<Pid.Pid>): real {
    if p.Some? && p.value.enabled then p.value.lastOutput else 0.0
  }

  /** What a tick that ended in `st` commands, if anything. */
  function CommandOf(st: State, r: Reading): Option<Command> {
    if r.inverterSOC.None? then None
    else if st.modes.overrideEnabled then Some(Command(st.modes.overrideValue, true, st.slot))
    else if r.gridValid || Simulates(st.modes, r) then Some(Command(OutputOf(st.pid), false, st.slot))
    else None
  }

  // ----- Runs

  function Step(st: State, lim: Pid.Limits, e: Event): State {
    match e
    case Tick(r, c, now) => Ticked(st, lim, r, c, now)
    case Configure(settings) => st.(modes := settings)
    case Connect(d) => st.(slot := V.Connecting(st.slot, d).slot)
  }

  function Sends(st: State, lim: Pid.Limits, e: Event): seq<Command> {
    match e
    case Tick(r, c, now) =>
      var cmd := CommandOf(Ticked(st, lim, r, c, now), r);
      if cmd.None? then [] else [cmd.value]
    case _ => []
  }

  /** All commands of a run, in order. */
  function Commands(st: State, lim: Pid.Limits, events: seq<Event>): seq<Command>
    decreases |events|
  {
    if events == [] then [] else Sends(st, lim, events[0]) + Commands(Step(st, lim, events[0]), lim, events[1..])
  }

  /** What a command writes: a power frame once a slot is known. */
  function Written(cmd: Command, maxPower: real): seq<seq<byte>> {
    if cmd.slot == 0 then [] else [V.PowerFrame(cmd.slot, V.PowerWord(cmd.watts, maxPower))]
  }

  function Frames(cmds: seq<Command>, maxPower: real): seq<seq<byte>> {
    if cmds == [] then [] else Written(cmds[0], maxPower) + Frames(cmds[1..], maxPower)
  }

  ghost predicate PidWithin(st: State, lim: Pid.Limits) {
    st.pid.Some? ==> Pid.Within(st.pid.value, lim)
  }

  lemma StepStaysWithin(st: State, lim: Pid.Limits, e: Event)
    requires lim.Sensible() && PidWithin(st, lim)
    ensures PidWithin(Step(st, lim, e), lim)
    ensures forall cmd :: cmd in Sends(st, lim, e) ==> cmd.manual || lim.minOutput <= cmd.watts <= lim.maxOutput
  {
    if e.Tick? && st.pid.Some? {
      var s := Measured(st.modes, e.reading);
      var grid := GridPower(s, e.reading);
      var p := Steered(st.pid.value, s, e.clock, grid);
      Pid.StepStaysWithin(p, lim, Pid.Update(grid, e.now));
      assert Pid.Apply(p, lim, Pid.Update(grid, e.now)) == Pid.Updated(p, lim, grid, e.now);
    }
  }

  /** Every connection asks for at most as many nodes as the scan does. */
  ghost predicate Dialogues(events: seq<Event>) {
    forall k :: 0 <= k < |events| && events[k].Connect? ==> |events[k].dialogue.scan| == V.SCAN_LIMIT
  }

  lemma StepKeepsSlotKnown(st: State, lim: Pid.Limits, e: Event)
    requires V.SlotKnown(st.slot) && (e.Connect? ==> |e.dialogue.scan| == V.SCAN_LIMIT)
    ensures V.SlotKnown(Step(st, lim, e).slot)
  {
    if e.Connect? {
      V.ConnectingKeepsSlotKnown(st.slot, e.dialogue);
    }
  }

  /** Every slot a run commands is none or one that a scan can find. */
  lemma {:induction false} CommandSlotsKnown(st: State, lim: Pid.Limits, events: seq<Event>, cmd: Command)
    requires V.SlotKnown(st.slot) && Dialogues(events) && cmd in Commands(st, lim, events)
    ensures V.SlotKnown(cmd.slot)
    decreases |events|
  {
    if cmd !in Sends(st, lim, events[0]) {
      StepKeepsSlotKnown(st, lim, events[0]);
      hide Step, Sends;
      CommandSlotsKnown(Step(st, lim, events[0]), lim, events[1..], cmd);
    }
  }

  /** Without the override a run never commands more than the PID limits allow, whatever
      the settings are changed to between ticks. */
  lemma {:induction false} CommandsStayWithin(st: State, lim: Pid.Limits, events: seq<Event>, cmd: Command)
    requires lim.Sensible() && PidWithin(st, lim) && cmd in Commands(st, lim, events)
    ensures cmd.manual || lim.minOutput <= cmd.watts <= lim.maxOutput
    decreases |events|
  {
    hide Step, Sends;
    StepStaysWithin(st, lim, events[0]);
    if cmd !in Sends(st, lim, events[0]) {
      CommandsStayWithin(Step(st, lim, events[0]), lim, events[1..], cmd);
    }
  }

  /** In every run from a driver that has not connected yet, whatever the PID limits are: what
      a command writes, nothing before a slot is known and one power frame after, decodes to
      that slot and to the negated whole watts of the command, held to the inverter's limit.
      A controller within PID limits no wider than the inverter's is never cut by that. */
  lemma EveryPowerFrameIsBounded(st: State, lim: Pid.Limits, maxPower: real, events: seq<Event>, cmd: Command)
    requires st.slot == 0 && Dialogues(events) && cmd in Commands(st, lim, events)
    requires 0.0 < maxPower <= 32767.0
    ensures var word := -Truncate(Clamp(cmd.watts, -maxPower, maxPower));
            && (cmd.slot == 0 || 129 <= cmd.slot <= 241)
            && |Written(cmd, maxPower)| == (if cmd.slot == 0 then 0 else 1)
            && (forall f :: f in Written(cmd, maxPower) ==> V.DecodePowerFrame(f) == Some((cmd.slot, word)))
            && -maxPower <= word as real <= maxPower
            && (lim.Sensible() && PidWithin(st, lim) && -maxPower <= lim.minOutput && lim.maxOutput <= maxPower ==>
                  cmd.manual || word == -Truncate(cmd.watts))
  {
    hide Commands, V.DecodePowerFrame, V.PowerFrame, V.PowerWord, Truncate, Clamp;
    CommandSlotsKnown(st, lim, events, cmd);
    if lim.Sensible() && PidWithin(st, lim) {
      CommandsStayWithin(st, lim, events, cmd);
    }
    V.PowerFrameDecodes(if cmd.slot == 0 then 1 else cmd.slot, cmd.watts, maxPower);
  }

  /** What a run has to command, told from the settings, the readings and a run of the PID controller: at each tick
      with a valid inverter and an override, valid grid data or a simulated load, the override's value if there
      is one, and otherwise what the enabled controller gives for the grid power metered, or
      simulated in its place, with the setpoint of a mode that steers; 0 without an enabled controller. */
  function DueCommands(s: Modes.Settings, pid: Option<Pid.Pid>, slot: nat, lim: Pid.Limits, events: seq<Event>)
    : seq<Command>
    decreases |events|
  {
    if events == [] then []
    else match events[0]
      case Tick(r, c, now) =>
        var charge := if r.batterySOC.Some? then r.batterySOC.value
                      else if r.inverterSOC.Some? then r.inverterSOC.value else s.soc;
        var t := s.(soc := charge);
        var grid := if s.simulatedLoadEnabled && !r.gridValid then s.simulatedLoadValue else r.gridPower;
        var q := Driven(pid, lim, UpdateOps(t, c, grid, now));
        var watts := if q.Some? && q.value.enabled then q.value.lastOutput else 0.0;
        (if r.inverterSOC.None? then []
         else if s.overrideEnabled then [Command(s.overrideValue, true, slot)]
         else if r.gridValid || s.simulatedLoadEnabled then [Command(watts, false, slot)]
         else [])
        + DueCommands(t, q, slot, lim, events[1..])
      case Configure(settings) => DueCommands(settings, pid, slot, lim, events[1..])
      case Connect(d) => DueCommands(s, pid, V.Connecting(slot, d).slot, lim, events[1..])
  }

  /** The calls of the controller at a tick: only the zero-grid and manual modes leave the setpoint alone. */
  function UpdateOps(s: Modes.Settings, c: Modes.Clock, grid: real, now: real): seq<Pid.Op> {
    if s.mode == Modes.ZeroGrid || s.mode == Modes.Manual then [Pid.Update(grid, now)]
    else [Pid.SetSetpoint(Modes.Setpoint(s, c, grid))] + [Pid.Update(grid, now)]
  }

  function Driven(pid: Option<Pid.Pid>, lim: Pid.Limits, ops: seq<Pid.Op>): Option<Pid.Pid> {
    if pid.None? then None else Some(Pid.Exec(pid.value, lim, ops))
  }

  /** A run commands exactly that: one command at each of its due ticks, in order, with the watts and the slot
      of that moment; any other tick leaves the inverter as it is. */
  lemma {:induction false} OneCommandPerDueTick(st: State, lim: Pid.Limits, events: seq<Event>)
    ensures Commands(st, lim, events) == DueCommands(st.modes, st.pid, st.slot, lim, events)
    decreases |events|
  {
    if events != [] {
      OneCommandPerDueTick(Step(st, lim, events[0]), lim, events[1..]);
      if events[0].Tick? {
        TickDrives(st, lim, events[0].reading, events[0].clock, events[0].now);
      }
      hide Modes.Setpoint, Pid.Updated;
    }
  }

  lemma TickDrives(st: State, lim: Pid.Limits, r: Reading, c: Modes.Clock, now: real)
    ensures var s := Measured(st.modes, r);
            Ticked(st, lim, r, c, now).pid == Driven(st.pid, lim, UpdateOps(s, c, GridPower(s, r), now))
  {
    hide Modes.Setpoint, Pid.Updated;
    if st.pid.Some? {
      var s := Measured(st.modes, r);
      var ops := UpdateOps(s, c, GridPower(s, r), now);
      var op := Pid.Update(GridPower(s, r), now);
      OneOp(st.pid.value, lim, op);
      if Steers(s.mode) {
        assert ops[0] == Pid.SetSetpoint(Modes.Setpoint(s, c, GridPower(s, r))) && ops[1..] == [op];
        OneOp(Pid.Apply(st.pid.value, lim, ops[0]), lim, op);
      }
    }
  }

  lemma OneOp(p: Pid.Pid, lim: Pid.Limits, op: Pid.Op)
    ensures Pid.Exec(p, lim, [op]) == Pid.Apply(p, lim, op)
  {
    assert [op][1..] == [];
  }

  /** The frames a run writes, byte by byte: for each command with a slot known one power frame, which carries the slot
      and the negated whole watts of the command held to the inverter's limit; none before. */
  lemma EachCommandIsOneFrame(st: State, lim: Pid.Limits, maxPower: real, events: seq<Event>, cmd: Command)
    requires st.slot == 0 && Dialogues(events) && 0.0 < maxPower <= 32767.0
    requires cmd in DueCommands(st.modes, st.pid, st.slot, lim, events)
    ensures var watts := if cmd.watts > maxPower then maxPower
                         else if cmd.watts < -maxPower then -maxPower else cmd.watts;
            var word := -Truncate(watts);
            var (lo, hi) := (word % 256, word / 256 % 256);
            && cmd.slot < 256
            && Written(cmd, maxPower)
               == if cmd.slot == 0 then []
                  else [[0x07, 0xFF, 0x58, 0x37, 0x02, cmd.slot, lo, hi, (1024 - 0x197 - cmd.slot - lo - hi) % 256]]
  {
    hide Commands, DueCommands, V.PowerFrame, V.DecodePowerFrame, Truncate;
    OneCommandPerDueTick(st, lim, events);
    CommandSlotsKnown(st, lim, events, cmd);
    if cmd.slot != 0 {
      V.PowerWordInNumbers(cmd.watts, maxPower);
      V.PowerFrameInBytes(cmd.slot, V.PowerWord(cmd.watts, maxPower));
    }
  }

  /** What a tick leaves and commands, apart from the simulated load settings themselves. */
  function Outcome(st: State, lim: Pid.Limits, r: Reading, c: Modes.Clock, now: real): (Option<Pid.Pid>, seq<Command>) {
    (Ticked(st, lim, r, c, now).pid, Sends(st, lim, Tick(r, c, now)))
  }

  function WithLoad(st: State, enabled: bool, value: real): State {
    st.(modes := st.modes.(simulatedLoadEnabled := enabled, simulatedLoadValue := value))
  }

  /** A simulated load is ignored while the grid meter gives valid data; while it does
      not, it acts exactly as a meter that reads its value. */
  lemma SimulatedLoadActsAsMeter(st: State, lim: Pid.Limits, r: Reading, c: Modes.Clock, now: real, value: real)
    ensures var metered := if r.gridValid then r else r.(gridValid := true, gridPower := value);
            Outcome(WithLoad(st, true, value), lim, r, c, now)
            == Outcome(WithLoad(st, false, 0.0), lim, metered, c, now)
  {
    SetpointIgnoresLoad(Measured(st.modes, r), c, r.gridPower, value);
    SetpointIgnoresLoad(Measured(st.modes, r), c, value, value);
  }

  lemma SetpointIgnoresLoad(s: Modes.Settings, c: Modes.Clock, grid: real, value: real)
    ensures Modes.Setpoint(s.(simulatedLoadEnabled := true, simulatedLoadValue := value), c, grid)
            == Modes.Setpoint(s.(simulatedLoadEnabled := false, simulatedLoadValue := 0.0), c, grid)
  {
  }

  ghost predicate OnlyZeroGrid(st: State, events: seq<Event>) {
    && !Steers(st.modes.mode)
    && forall k :: 0 <= k < |events| && events[k].Configure? ==> !Steers(events[k].settings.mode)
  }

  function Exec(st: State, lim: Pid.Limits, events: seq<Event>): State
    decreases |events|
  {
    if events == [] then st else Exec(Step(st, lim, events[0]), lim, events[1..])
  }

  /** The zero-grid and manual modes never set the controller's setpoint: after any run
      in them it is still the one an earlier mode left behind, 0 or not. */
  lemma {:induction false} ZeroGridKeepsTheOldSetpoint(st: State, lim: Pid.Limits, events: seq<Event>)
    requires st.pid.Some? && OnlyZeroGrid(st, events)
    ensures Exec(st, lim, events).pid.Some? && Exec(st, lim, events).pid.value.setpoint == st.pid.value.setpoint
    decreases |events|
  {
    if events != [] {
      ZeroGridKeepsTheOldSetpoint(Step(st, lim, events[0]), lim, events[1..]);
    }
  }

  /** In every other mode the setpoint after a tick is the one the mode asked for at that tick. */
  lemma OtherModesSteer(st: State, lim: Pid.Limits, r: Reading, c: Modes.Clock, now: real)
    requires st.pid.Some?
    ensures var q := Ticked(st, lim, r, c, now);
            q.pid.Some? && q.pid.value.setpoint ==
              if Steers(st.modes.mode) then Modes.Setpoint(q.modes, c, GridPower(q.modes, r)) else st.pid.value.setpoint
  {
    hide Modes.Setpoint;
  }

  /** The setpoint the last tick in a steering mode asked for, `before` when there was none:
      it takes the settings, the readings and the clock to know it, and nothing of the controller. */
  function LastAsked(s: Modes.Settings, events: seq<Event>, before: real): real
    decreases |events|
  {
    if events == [] then before
    else match events[0]
      case Tick(r, c, _) =>
        var t := Measured(s, r);
        LastAsked(t, events[1..], if Steers(s.mode) then Modes.Setpoint(t, c, GridPower(t, r)) else before)
      case Configure(settings) => LastAsked(settings, events[1..], before)
      case Connect(_) => LastAsked(s, events[1..], before)
  }

  /** After any run of ticks and settings changes the controller aims at what the last
      steering mode asked for at its last tick, whatever mode is in force now. */
  lemma {:induction false} SetpointIsTheLastAsked(st: State, lim: Pid.Limits, events: seq<Event>)
    requires st.pid.Some?
    ensures Exec(st, lim, events).pid.Some?
    ensures Exec(st, lim, events).pid.value.setpoint == LastAsked(st.modes, events, st.pid.value.setpoint)
    decreases |events|
  {
    if events != [] {
      if events[0].Tick? {
        OtherModesSteer(st, lim, events[0].reading, events[0].clock, events[0].now);
      }
      hide Modes.Setpoint, Pid.Updated;
      SetpointIsTheLastAsked(Step(st, lim, events[0]), lim, events[1..]);
    }
  }

  // ----- Ticks that send nothing

  /** A tick that sends nothing leaves the controller as it was if and only if there is none,
      or it is disabled and its setpoint is the one asked for already. */
  lemma SilentTickLeavesControllerIff(st: State, lim: Pid.Limits, r: Reading, c: Modes.Clock, now: real)
    requires Sends(st, lim, Tick(r, c, now)) == []
    requires st.pid.Some? && st.pid.value.enabled ==> st.pid.value.lastTime != Some(now)  // the clock has moved on
    ensures var s := Measured(st.modes, r);
            Ticked(st, lim, r, c, now).pid == st.pid <==>
              || st.pid.None?
              || (!st.pid.value.enabled
                  && (Steers(s.mode) ==> st.pid.value.setpoint == Modes.Setpoint(s, c, GridPower(s, r))))
  {
    hide Modes.Setpoint, Pid.Response, Pid.Tempered, Pid.Output, Pid.Accumulated, Pid.Deviation, Pid.Elapsed;
  }

  /** Ticks without grid data, all with the same power left in the reading. */
  ghost predicate Blind(events: seq<Event>, grid: real) {
    forall k :: 0 <= k < |events| ==>
      events[k].Tick? && !events[k].reading.gridValid && events[k].reading.gridPower == grid
  }

  function UpdatesAt(events: seq<Event>, grid: real): (ops: seq<Pid.Op>)
    requires Blind(events, grid)
    ensures Pid.AllAt(ops, grid) && |ops| == |events|
  {
    if events == [] then [] else [Pid.Update(grid, events[0].now)] + UpdatesAt(events[1..], grid)
  }

  lemma BlindStep(st: State, lim: Pid.Limits, e: Event)
    requires st.pid.Some? && !Steers(st.modes.mode) && !st.modes.overrideEnabled && !st.modes.simulatedLoadEnabled
    requires e.Tick? && !e.reading.gridValid
    ensures Sends(st, lim, e) == []
    ensures var t := Step(st, lim, e);
            && t.modes == st.modes.(soc := t.modes.soc)
            && t.pid == Some(Pid.Apply(st.pid.value, lim, Pid.Update(e.reading.gridPower, e.now)))
  {
    hide Pid.Updated;
  }

  /** While no grid data comes, without an override or a simulated load, nothing is sent, but
      the controller is updated at every tick with the power left in the reading, 0 for no
      data at all. Its integral goes on as if it were measured, for all the time of the
      ticks together, up to its limit. */
  lemma {:induction false} BlindTicksWindUp(st: State, lim: Pid.Limits, events: seq<Event>, grid: real)
    requires lim.Sensible() && PidWithin(st, lim) && st.pid.Some? && st.pid.value.enabled
    requires !Steers(st.modes.mode) && !st.modes.overrideEnabled && !st.modes.simulatedLoadEnabled
    requires Blind(events, grid) && grid >= 0.0
    ensures Commands(st, lim, events) == []
    ensures var (p, ops) := (st.pid.value, UpdatesAt(events, grid));
            && Exec(st, lim, events).pid == Some(Pid.Exec(p, lim, ops))
            && Pid.Exec(p, lim, ops).integral
               == Clamp(p.integral + Pid.Term(Pid.Deviation(p, lim, grid), Pid.Spent(p, lim, ops)),
                        -lim.maxIntegral, lim.maxIntegral)
  {
    BlindRun(st, lim, events, grid);
    Pid.IntegralOfConstantGrid(st.pid.value, lim, UpdatesAt(events, grid), grid);
  }

  lemma {:induction false} BlindRun(st: State, lim: Pid.Limits, events: seq<Event>, grid: real)
    requires st.pid.Some? && !Steers(st.modes.mode) && !st.modes.overrideEnabled && !st.modes.simulatedLoadEnabled
    requires Blind(events, grid)
    ensures Commands(st, lim, events) == []
    ensures Exec(st, lim, events).pid == Some(Pid.Exec(st.pid.value, lim, UpdatesAt(events, grid)))
    decreases |events|
  {
    hide Step, Sends, Pid.Apply;
    if events != [] {
      var next, op := Step(st, lim, events[0]), Pid.Update(grid, events[0].now);
      BlindStep(st, lim, events[0]);
      BlindRun(next, lim, events[1..], grid);
      var ops := UpdatesAt(events, grid);
      assert ops[0] == op && ops[1..] == UpdatesAt(events[1..], grid);
    }
  }

  // ----- The loop object

  class Loop {
    const modeCtrl: Modes.Controller
    const pidCtrl: Pid.Controller?
    const vbus: V.VEBus?

    constructor (modeCtrl: Modes.Controller, pidCtrl: Pid.Controller?, vbus: V.VEBus?)
      ensures this.modeCtrl == modeCtrl && this.pidCtrl == pidCtrl && this.vbus == vbus
    {
      this.modeCtrl, this.pidCtrl, this.vbus := modeCtrl, pidCtrl, vbus;
    }

    function Abstract(): State
      reads modeCtrl, pidCtrl, vbus
    {
      State(modeCtrl.State(), if pidCtrl == null then None else Some(pidCtrl.State()),
            if vbus == null then 0 else vbus.essSetpointRAM)
    }

    ghost function Lim(): Pid.Limits {
      if pidCtrl == null then Pid.Limits(0.0, 0.0, 0.0, 0.0, 0.0) else pidCtrl.lim
    }

    /** One tick; `answer` is what can be read after the power frame. */
    method RunTick(r: Reading, c: Modes.Clock, now: real, answer: seq<V.Read>)
      requires vbus != null ==> vbus.Valid()
      modifies modeCtrl`currentSOC, pidCtrl, vbus
      ensures Abstract() == Ticked(old(Abstract()), Lim(), r, c, now)
      ensures vbus != null ==> vbus.Valid()
      ensures vbus != null ==>
                vbus.sent == old(vbus.sent) + Frames(Sends(old(Abstract()), Lim(), Tick(r, c, now)), vbus.maxPower)
    {
      hide Modes.Setpoint, Modes.Report, Pid.Updated;
      var useSimulatedLoad := modeCtrl.simulatedLoadEnabled && !r.gridValid;
      var output, data := Decide(r, c, now, useSimulatedLoad);
      ghost var st := Abstract();
      ghost var cmd := CommandOf(st, r);
      assert Sends(old(Abstract()), Lim(), Tick(r, c, now)) == if cmd.None? then [] else [cmd.value];
      hide Ticked, Sends;
      if vbus != null {
        FewFrames(Command(data.overrideVal, true, vbus.essSetpointRAM), vbus.maxPower);
        FewFrames(Command(output, false, vbus.essSetpointRAM), vbus.maxPower);
        AppendNothing(vbus.sent);
        hide Frames;
        if r.inverterSOC.Some? {
          if data.override {
            var _ := vbus.SetPower(data.overrideVal, answer);
          } else if r.gridValid || useSimulatedLoad {
            var _ := vbus.SetPower(output, answer);
          }
        }
      }
    }

    /** The part of a tick before the inverter: the mode's setpoint and the controller's output. */
    method Decide(r: Reading, c: Modes.Clock, now: real, useSimulatedLoad: bool)
        returns (output: real, data: Modes.ModeData)
      requires useSimulatedLoad == Simulates(modeCtrl.State(), r)
      modifies modeCtrl`currentSOC, pidCtrl
      ensures Abstract() == Ticked(old(Abstract()), Lim(), r, c, now)
      ensures output == OutputOf(Abstract().pid)
      ensures data.override == modeCtrl.overrideEnabled && data.overrideVal == modeCtrl.overrideValue
    {
      hide Modes.Setpoint, Modes.Report, Pid.Updated;
      Measure(r);
      hide Measured;
      var gridPower := r.gridPower;
      if useSimulatedLoad {
        gridPower := modeCtrl.simulatedLoadValue;
      }
      var setpoint;
      setpoint, data := modeCtrl.Calculate(gridPower, c);
      output := 0.0;
      if pidCtrl != null {
        if modeCtrl.mode != Modes.ZeroGrid && modeCtrl.mode != Modes.Manual {
          pidCtrl.SetSetpoint(setpoint);
        }
        assert pidCtrl.State() == Steered(old(pidCtrl.State()), modeCtrl.State(), c, gridPower);
        output := pidCtrl.Update(gridPower, now);
      }
    }

    /** The battery monitor's state of charge goes before the inverter's. */
    method Measure(r: Reading)
      modifies modeCtrl`currentSOC
      ensures modeCtrl.State() == Measured(old(modeCtrl.State()), r)
    {
      if r.batterySOC.Some? {
        modeCtrl.UpdateSOC(r.batterySOC.value);
      }
      if r.inverterSOC.Some? && r.batterySOC.None? {
        modeCtrl.UpdateSOC(r.inverterSOC.value);
      }
    }
  }

  lemma FewFrames(cmd: Command, maxPower: real)
    ensures Frames([], maxPower) == [] && Frames([cmd], maxPower) == Written(cmd, maxPower)
  {
    assert Frames([cmd][1..], maxPower) == [];
    AppendNothing(Written(cmd, maxPower));
  }
}
