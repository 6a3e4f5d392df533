/**
 Commands: authorization, the lifecycle with its time stamps, and their execution and verification by a lamp node.
 A command id is acted on once, whatever is submitted under it later.
 */
module Commands {
  import opened Wrappers
  import opened Sorting
  import Control

  datatype CommandType =
    | SetMode | ForceOn | ForceOff | ReturnToAuto | ReadConfig | WriteConfig | TimeSync | Identify
    | AcknowledgeFault | StartRepair | VerifyRepair | CloseFault | Heartbeat

  datatype Subtype = LampOn | LampOff | ResetEnergy | SetModeSubtype | ReturnToAutoSubtype

  datatype Action =
    | ViewStatus | ControlLamp | AcknowledgeAction | Configure | ResetEnergyAction | StartRepairAction
    | VerifyRepairAction | CloseFaultAction | Administer | DeleteRecord

  datatype Role = Viewer | Operator | Engineer | Admin | Owner

  datatype Actor = Actor(role: Role, authenticated: bool)

  /** The mode parameter: missing, something that converts to an integer, or something that does not. */
  datatype ModeParameter = Missing | Code(n: int) | NotANumber

  datatype Command = Command(
    id: string,
    commandType: CommandType,
    subtype: Option<Subtype>,
    actor: Actor,
    mode: ModeParameter)

  datatype CommandState = Created | Received | Executed | Acknowledged | ActualStateVerified | Rejected | Failed

  datatype Authorization = Authorized | Unauthorized | NotKnown

  datatype CommandRecord = CommandRecord(
    command: Command,
    state: CommandState,
    authorization: Authorization,
    received: Option<int>,
    executed: Option<int>,
    acknowledged: Option<int>,
    verified: Option<int>)

  /** Which role may do what is a parameter. */
  type Grants = (Role, Action) -> bool

  function Authorize(granted: Grants, actor: Actor, action: Action): Authorization
  {
    if !actor.authenticated then NotKnown
    else if granted(actor.role, action) then Authorized
    else Unauthorized
  }

  function ActionFor(c: Command): Action
  {
    if c.subtype == Some(ResetEnergy) then ResetEnergyAction
    else
      match c.commandType
      case SetMode => Configure
      case ForceOn => ControlLamp
      case ForceOff => ControlLamp
      case ReturnToAuto => ControlLamp
      case ReadConfig => ViewStatus
      case WriteConfig => Configure
      case TimeSync => Administer
      case Identify => ViewStatus
      case AcknowledgeFault => AcknowledgeAction
      case StartRepair => StartRepairAction
      case VerifyRepair => VerifyRepairAction
      case CloseFault => CloseFaultAction
      case Heartbeat => ViewStatus
  }

  // ---------- the lifecycle ----------

  function Transitions(s: CommandState): set<CommandState>
  {
    match s
    case Created => {Received, Rejected}
    case Received => {Executed, Failed, Rejected}
    case Executed => {Acknowledged, Failed}
    case Acknowledged => {ActualStateVerified, Failed}
    case _ => {}
  }

  function Fresh(c: Command): CommandRecord
  {
    CommandRecord(c, Created, NotKnown, None, None, None, None)
  }

  function Advanced(r: CommandRecord, target: CommandState, ticks: int): CommandRecord
  {
    match target
    case Received => r.(state := target, received := Some(ticks))
    case Executed => r.(state := target, executed := Some(ticks))
    case Acknowledged => r.(state := target, acknowledged := Some(ticks))
    case ActualStateVerified => r.(state := target, verified := Some(ticks))
    case _ => r.(state := target)
  }

  /** Where a command ends, and which stages are stamped, by the three answers it got on its way. */
  function Final(c: Command, a: Authorization, ok: bool, verified: bool, ticks: int): CommandRecord
  {
    var stamp := Some(ticks);
    if a != Authorized then CommandRecord(c, Rejected, a, None, None, None, None)
    else if !ok then CommandRecord(c, Failed, a, stamp, None, None, None)
    else if !verified then CommandRecord(c, Failed, a, stamp, stamp, stamp, None)
    else CommandRecord(c, ActualStateVerified, a, stamp, stamp, stamp, stamp)
  }

  // ---------- what a lamp node does with a command ----------

  const MODES := [Control.AutoSensor, Control.AutoScheduleSensor, Control.FixedSchedule]

  /** The mode named by a code: positions from 0, and from -1 backwards as list indices are read. */
  function ModeFor(m: ModeParameter): Option<Control.ConfiguredMode>
  {
    match m
    case Missing => Some(MODES[0])
    case NotANumber => None
    case Code(n) =>
      if 0 <= n < |MODES| then Some(MODES[n])
      else if -|MODES| <= n < 0 then Some(MODES[|MODES| + n])
      else None
  }

  /** Codes -3 to 2 name modes, the negative ones counting from the end. */
  lemma ModeCodes(n: int)
    ensures ModeFor(Code(n)) == if -3 <= n < 3 then Some(MODES[n % 3]) else None
  {
  }

  predicate IsEnergyReset(c: Command)
  {
    c.commandType == SetMode && c.subtype == Some(ResetEnergy)
  }

  /** Whether a lamp node can carry the command out. */
  predicate Executable(c: Command)
  {
    match c.commandType
    case ForceOn => true
    case ForceOff => true
    case ReturnToAuto => true
    case SetMode => IsEnergyReset(c) || ModeFor(c.mode).Some?
    case _ => false
  }

  /** The change of the control model it makes. */
  function ControlEvent(c: Command): Option<Control.Event>
  {
    match c.commandType
    case ForceOn => Some(Control.ApplyOverride(Control.ForceOn))
    case ForceOff => Some(Control.ApplyOverride(Control.ForceOff))
    case ReturnToAuto => Some(Control.ClearOverride)
    case SetMode =>
      if IsEnergyReset(c) || ModeFor(c.mode).None? then None else Some(Control.SetMode(ModeFor(c.mode).value))
    case _ => None
  }

  function Steered(config: Control.Config, s: Control.Control, e: Option<Control.Event>): Control.Control
    requires config.schedule.Valid()
  {
    if e.Some? then Control.Step(config, s, e.value) else s
  }

  /** What the node finds when it checks the actual state after execution. */
  predicate Confirmed(c: Command, s: Control.Control, energy: real)
  {
    match c.commandType
    case ForceOn => s.lampOn
    case ForceOff => !s.lampOn
    case ReturnToAuto => s.override == Control.NoOverride
    case SetMode => IsEnergyReset(c) ==> energy == 0.0
    case _ => true
  }

  /** The energy of one measurement interval at the measured power, nothing without a reading. */
  function Consumption(power: Option<real>, interval: int, ticksPerHour: int): real
  {
    if power.None? || ticksPerHour == 0 then 0.0 else power.value * interval as real / ticksPerHour as real
  }

  /** An hour at a constant power consumes that power once, and consumption adds up over intervals. */
  lemma ConsumptionAddsUp(power: real, i: int, j: int, ticksPerHour: int)
    requires ticksPerHour != 0
    ensures Consumption(Some(power), ticksPerHour, ticksPerHour) == power
    ensures Consumption(Some(power), i + j, ticksPerHour)
         == Consumption(Some(power), i, ticksPerHour) + Consumption(Some(power), j, ticksPerHour)
  {
    var hour := ticksPerHour as real;
    assert (i + j) as real == i as real + j as real;
    assert power * (i + j) as real == power * i as real + power * j as real;
    assert (power * i as real + power * j as real) / hour == power * i as real / hour + power * j as real / hour;
  }

  datatype Node = Node(control: Control.Control, energy: real, records: map<string, CommandRecord>, ran: seq<string>)

  function Submit(config: Control.Config, granted: Grants, n: Node, c: Command, ticks: int): Node
    requires config.schedule.Valid()
  {
    if c.id in n.records then n
    else
      var a := Authorize(granted, c.actor, ActionFor(c));
      var record := Final(c, a, Executable(c), true, ticks);
      if a != Authorized then n.(records := n.records[c.id := record])
      else
        Node(
          Steered(config, n.control, ControlEvent(c)),
          if IsEnergyReset(c) then 0.0 else n.energy,
          n.records[c.id := record],
          n.ran + [c.id])
  }

  /** Verification never fails a command that was executed: the effect is there at once. */
  lemma ExecutedIsConfirmed(config: Control.Config, c: Command, s: Control.Control, energy: real)
    requires config.schedule.Valid() && Executable(c)
    ensures Confirmed(c, Steered(config, s, ControlEvent(c)), if IsEnergyReset(c) then 0.0 else energy)
  {
  }

  /** The n-th mode for code n, counted from the end for a negative one, and the first for none at all. */
  function ModeNamed(m: ModeParameter): Option<Control.ConfiguredMode>
  {
    if m == Missing || m == Code(0) || m == Code(-3) then Some(Control.AutoSensor)
    else if m == Code(1) || m == Code(-2) then Some(Control.AutoScheduleSensor)
    else if m == Code(2) || m == Code(-1) then Some(Control.FixedSchedule)
    else None
  }

  /** Exactly what an authorized new command does to the node. */
  lemma EffectsAre(config: Control.Config, granted: Grants, n: Node, c: Command, ticks: int)
    requires config.schedule.Valid() && c.id !in n.records
    requires Authorize(granted, c.actor, ActionFor(c)) == Authorized
    ensures var n' := Submit(config, granted, n, c, ticks);
      && n'.ran == n.ran + [c.id] && n'.control.protection == n.control.protection
      && match c.commandType {
        case ForceOn =>
          n'.control == n.control.(override := Control.ForceOn, lampOn := true) && n'.energy == n.energy
        case ForceOff =>
          n'.control == n.control.(override := Control.ForceOff, lampOn := false) && n'.energy == n.energy
        case ReturnToAuto =>
          n'.control == n.control.(override := Control.NoOverride) && n'.energy == n.energy
        case SetMode =>
          if c.subtype == Some(ResetEnergy) then n'.control == n.control && n'.energy == 0.0
          else
            && n'.energy == n.energy
            && n'.control == if ModeNamed(c.mode).Some? then n.control.(mode := ModeNamed(c.mode).value) else n.control
        case _ => n'.control == n.control && n'.energy == n.energy
      }
  {
  }

  /** Which grant each command needs. */
  function GrantNeeded(c: Command): Action
  {
    if c.subtype == Some(ResetEnergy) then ResetEnergyAction
    else if c.commandType in {ForceOn, ForceOff, ReturnToAuto} then ControlLamp
    else if c.commandType in {SetMode, WriteConfig} then Configure
    else if c.commandType == TimeSync then Administer
    else if c.commandType == AcknowledgeFault then AcknowledgeAction
    else if c.commandType == StartRepair then StartRepairAction
    else if c.commandType == VerifyRepair then VerifyRepairAction
    else if c.commandType == CloseFault then CloseFaultAction
    else ViewStatus
  }

  /** A command is authorized exactly for an authenticated actor whose role has the grant. */
  lemma AuthorizedIff(granted: Grants, c: Command)
    ensures Authorize(granted, c.actor, ActionFor(c)) == Authorized
       <==> c.actor.authenticated && granted(c.actor.role, GrantNeeded(c))
  {
  }

  class LampNode {
    const config: Control.Config
    const granted: Grants
    const control: Control.ControlModel
    var energy: real
    var records: map<string, CommandRecord>
    /** The ids the executor was called with. */
    ghost var ran: seq<string>

    constructor (config: Control.Config, granted: Grants)
      requires config.schedule.Valid()
      ensures Valid() && fresh(control) && this.config == config && this.granted == granted
      ensures State() == Node(Control.Initial(config), 0.0, map[], [])
    {
      this.config, this.granted := config, granted;
      control := new Control.ControlModel(config);
      energy, records, ran := 0.0, map[], [];
    }

    ghost predicate Valid()
    {
      config.schedule.Valid() && control.config == config
    }

    ghost function State(): Node
      reads this, control
    {
      Node(control.State(), energy, records, ran)
    }

    /** The guarded lifecycle step: refused, with nothing changed, when the table does not list the target. */
    method Transition(id: string, target: CommandState, ticks: int) returns (legal: bool)
      requires id in records
      modifies `records
      ensures legal <==> target in Transitions(old(records)[id].state)
      ensures records == if legal then old(records)[id := Advanced(old(records)[id], target, ticks)] else old(records)
    {
      var r := records[id];
      if target !in Transitions(r.state) {
        return false;
      }
      r := r.(state := target);
      match target {
        case Received => r := r.(received := Some(ticks));
        case Executed => r := r.(executed := Some(ticks));
        case Acknowledged => r := r.(acknowledged := Some(ticks));
        case ActualStateVerified => r := r.(verified := Some(ticks));
        case _ =>
      }
      records := records[id := r];
      return true;
    }

    /** `raised`: the second authorization check, made for an energy reset only, was not passed. */
    method Execute(c: Command) returns (ok: bool, raised: bool)
      requires Valid()
      modifies `energy, `ran, control
      ensures raised <==> IsEnergyReset(c) && Authorize(granted, c.actor, ResetEnergyAction) != Authorized
      ensures ran == old(ran) + [c.id]
      ensures !raised ==> ok == Executable(c)
      ensures !raised ==> energy == if IsEnergyReset(c) then 0.0 else old(energy)
      ensures !raised ==> control.State() == Steered(config, old(control.State()), ControlEvent(c))
    {
      ran := ran + [c.id];
      if c.commandType == ForceOn {
        control.Override(Control.ForceOn);
        return true, false;
      }
      if c.commandType == ForceOff {
        control.Override(Control.ForceOff);
        return true, false;
      }
      if c.commandType == ReturnToAuto {
        control.Clear();
        return true, false;
      }
      if c.commandType == SetMode {
        if c.subtype == Some(ResetEnergy) {
          if Authorize(granted, c.actor, ResetEnergyAction) != Authorized {
            return false, true;
          }
          energy := 0.0;
          return true, false;
        }
        var mode := ModeFor(c.mode);
        if mode.None? {
          return false, false;
        }
        control.SetConfiguredMode(mode.value);
        return true, false;
      }
      return false, false;
    }

    method Verify(c: Command) returns (ok: bool)
      ensures ok == Confirmed(c, control.State(), energy)
    {
      if c.commandType in {ForceOn, ForceOff} {
        return control.lampIsOn == (c.commandType == ForceOn);
      }
      if c.commandType == ReturnToAuto {
        return control.activeOverride == Control.NoOverride;
      }
      if c.commandType == SetMode && c.subtype == Some(ResetEnergy) {
        return energy == 0.0;
      }
      return true;
    }

    /** `raised` is never true: no illegal lifecycle step is tried and the executor does not raise. */
    method SubmitCommand(c: Command, ticks: int) returns (record: CommandRecord, raised: bool)
      requires Valid()
      modifies `energy, `records, `ran, control
      ensures !raised
      ensures State() == Submit(config, granted, old(State()), c, ticks)
      ensures c.id in records && record == records[c.id]
    {
      if c.id in records {
        return records[c.id], false;
      }
      var authorization := Authorize(granted, c.actor, ActionFor(c));
      records := records[c.id := Fresh(c).(authorization := authorization)];
      if authorization != Authorized {
        var legal := Transition(c.id, Rejected, ticks);
        return records[c.id], !legal;
      }
      raised := RunStages(c, ticks);
      return records[c.id], raised;
    }

    /** From receipt to the verified or failed end. */
    method RunStages(c: Command, ticks: int) returns (raised: bool)
      requires Valid() && Authorize(granted, c.actor, ActionFor(c)) == Authorized
      requires c.id in records && records[c.id] == Fresh(c).(authorization := Authorized)
      modifies `energy, `records, `ran, control
      ensures !raised
      ensures records == old(records)[c.id := Final(c, Authorized, Executable(c), true, ticks)]
      ensures ran == old(ran) + [c.id]
      ensures energy == if IsEnergyReset(c) then 0.0 else old(energy)
      ensures control.State() == Steered(config, old(control.State()), ControlEvent(c))
    {
      var received := Transition(c.id, Received, ticks);
      var ok, failed := Execute(c);
      assert received && !failed;
      if !ok {
        var refused := Transition(c.id, Failed, ticks);
        return !refused;
      }
      ExecutedIsConfirmed(config, c, old(control.State()), old(energy));
      var executed := Transition(c.id, Executed, ticks);
      var acknowledged := Transition(c.id, Acknowledged, ticks);
      var verified := Verify(c);
      var last := Transition(c.id, if verified then ActualStateVerified else Failed, ticks);
      return !executed || !acknowledged || !last;
    }

    /** `raised`: a division by zero ticks an hour, which nothing rules out at construction. */
    method Accumulate(power: Option<real>, interval: int, ticksPerHour: int) returns (raised: bool)
      modifies `energy
      ensures raised <==> power.Some? && ticksPerHour == 0
      ensures energy == old(energy) + Consumption(power, interval, ticksPerHour)
    {
      if power.None? {
        return false;
      }
      if ticksPerHour == 0 {
        return true;
      }
      energy := energy + power.value * interval as real / ticksPerHour as real;
      return false;
    }
  }

  // ---------- runs ----------

  datatype Input =
    | Submitted(command: Command, ticks: int)
    | Steer(event: Control.Event)
    | Consumed(power: Option<real>, interval: int, ticksPerHour: int)

  function Step(config: Control.Config, granted: Grants, n: Node, i: Input): Node
    requires config.schedule.Valid()
  {
    match i
    case Submitted(c, ticks) => Submit(config, granted, n, c, ticks)
    case Steer(e) => n.(control := Control.Step(config, n.control, e))
    case Consumed(power, interval, ticksPerHour) =>
      n.(energy := n.energy + Consumption(power, interval, ticksPerHour))
  }

  function Run(config: Control.Config, granted: Grants, n: Node, inputs: seq<Input>): Node
    requires config.schedule.Valid()
    decreases inputs
  {
    if inputs == [] then n else Run(config, granted, Step(config, granted, n, inputs[0]), inputs[1..])
  }

  /** The inputs without the commands whose id was seen before. */
  function WithoutRepeats(inputs: seq<Input>, seen: set<string>): seq<Input>
    decreases inputs
  {
    if inputs == [] then []
    else if inputs[0].Submitted? && inputs[0].command.id in seen then WithoutRepeats(inputs[1..], seen)
    else
      [inputs[0]]
      + WithoutRepeats(inputs[1..], if inputs[0].Submitted? then seen + {inputs[0].command.id} else seen)
  }

  /**
   Replaying command ids, with the same command or another one under the id, at any later time and with anything
   happening in between, changes nothing: control state, energy, records and executions are those of the stream
   without the repeats.
   */
  lemma {:induction false} ReplayIsHarmless(config: Control.Config, granted: Grants, n: Node, inputs: seq<Input>)
    requires config.schedule.Valid()
    ensures Run(config, granted, n, inputs) == Run(config, granted, n, WithoutRepeats(inputs, n.records.Keys))
    decreases inputs
  {
    if inputs != [] {
      var i, rest := inputs[0], inputs[1..];
      var next := Step(config, granted, n, i);
      ReplayIsHarmless(config, granted, next, rest);
      if !(i.Submitted? && i.command.id in n.records) {
        var seen := if i.Submitted? then n.records.Keys + {i.command.id} else n.records.Keys;
        assert next.records.Keys == seen;
        var kept := WithoutRepeats(rest, seen);
        assert WithoutRepeats(inputs, n.records.Keys) == [i] + kept;
        assert ([i] + kept)[1..] == kept;
      }
    }
  }

  /** How every record of a lamp node looks. */
  predicate Settled(granted: Grants, id: string, r: CommandRecord)
  {
    && r.command.id == id
    && r.authorization == Authorize(granted, r.command.actor, ActionFor(r.command))
    && (r.state == Rejected <==> r.authorization != Authorized)
    && (r.state == ActualStateVerified <==> r.authorization == Authorized && Executable(r.command))
    && (r.state == Failed <==> r.authorization == Authorized && !Executable(r.command))
    && (r.received.Some? <==> r.state != Rejected)
    && (r.executed.Some? <==> r.state == ActualStateVerified)
    && r.executed == r.acknowledged == r.verified
    && (r.executed.Some? ==> r.executed == r.received)
  }

  ghost predicate Sound(granted: Grants, n: Node)
  {
    && (forall id :: id in n.records ==> Settled(granted, id, n.records[id]))
    && Distinct(n.ran)
    && (forall id :: id in n.ran <==> id in n.records && n.records[id].authorization == Authorized)
  }

  lemma SubmitSound(config: Control.Config, granted: Grants, n: Node, c: Command, ticks: int)
    requires config.schedule.Valid() && Sound(granted, n)
    ensures Sound(granted, Submit(config, granted, n, c, ticks))
  {
    var n' := Submit(config, granted, n, c, ticks);
    if c.id !in n.records {
      assert c.id !in n.ran;
      assert forall id :: id in n'.ran <==> id in n.ran || (id == c.id && n'.ran != n.ran);
    }
  }

  /**
   In every run the executor is called at most once per command id and only for authorized commands, and the end
   state and the stamps of every record are exactly those of the stages its command went through.
   */
  lemma {:induction false} ExecutedAtMostOnce(config: Control.Config, granted: Grants, n: Node, inputs: seq<Input>)
    requires config.schedule.Valid() && Sound(granted, n)
    ensures Sound(granted, Run(config, granted, n, inputs))
    decreases inputs
  {
    if inputs != [] {
      if inputs[0].Submitted? {
        SubmitSound(config, granted, n, inputs[0].command, inputs[0].ticks);
      }
      ExecutedAtMostOnce(config, granted, Step(config, granted, n, inputs[0]), inputs[1..]);
    }
  }

  /** A record of a verified command of this type by an authenticated actor with the grant it needs. */
  predicate Licensed(granted: Grants, r: CommandRecord, t: CommandType)
  {
    && r.state == ActualStateVerified && r.command.commandType == t
    && r.command.actor.authenticated
    && granted(r.command.actor.role, if r.command.subtype == Some(ResetEnergy) then ResetEnergyAction
                                     else if t == SetMode then Configure else ControlLamp)
  }

  ghost predicate Forcing(granted: Grants, records: map<string, CommandRecord>, t: CommandType)
  {
    exists id :: id in records && Licensed(granted, records[id], t)
  }

  /** Some licensed command set this mode. */
  ghost predicate Setting(granted: Grants, records: map<string, CommandRecord>, mode: Control.ConfiguredMode)
  {
    exists id :: id in records && Licensed(granted, records[id], SetMode)
      && records[id].command.subtype != Some(ResetEnergy) && ModeNamed(records[id].command.mode) == Some(mode)
  }

  /** What the control state owes to a licensed command. */
  ghost predicate Licenses(config: Control.Config, granted: Grants, n: Node)
  {
    && (n.control.override == Control.ForceOn ==> Forcing(granted, n.records, ForceOn))
    && (n.control.override == Control.ForceOff ==> Forcing(granted, n.records, ForceOff))
    && (n.control.mode != config.mode ==> Setting(granted, n.records, n.control.mode))
  }

  lemma OneMoreRecord(granted: Grants, records: map<string, CommandRecord>, id: string, r: CommandRecord,
                      t: CommandType, mode: Control.ConfiguredMode)
    requires id !in records
    ensures Forcing(granted, records, t) || Licensed(granted, r, t) ==> Forcing(granted, records[id := r], t)
    ensures Setting(granted, records, mode) ==> Setting(granted, records[id := r], mode)
    ensures Licensed(granted, r, SetMode) && r.command.subtype != Some(ResetEnergy) ==>
      ModeNamed(r.command.mode) == Some(mode) ==> Setting(granted, records[id := r], mode)
  {
    var after := records[id := r];
    assert forall i :: i in records ==> i in after && after[i] == records[i];
    assert after[id] == r;
    if Setting(granted, records, mode) {
      var i :| i in records && Licensed(granted, records[i], SetMode)
        && records[i].command.subtype != Some(ResetEnergy) && ModeNamed(records[i].command.mode) == Some(mode);
      assert after[i] == records[i];
    }
  }

  lemma SubmitLicensed(config: Control.Config, granted: Grants, n: Node, c: Command, ticks: int)
    requires config.schedule.Valid() && Licenses(config, granted, n)
    ensures Licenses(config, granted, Submit(config, granted, n, c, ticks))
  {
    if c.id !in n.records {
      var n' := Submit(config, granted, n, c, ticks);
      AuthorizedIff(granted, c);
      OneMoreRecord(granted, n.records, c.id, n'.records[c.id], ForceOn, n'.control.mode);
      OneMoreRecord(granted, n.records, c.id, n'.records[c.id], ForceOff, n'.control.mode);
      if Authorize(granted, c.actor, ActionFor(c)) == Authorized {
        EffectsAre(config, granted, n, c, ticks);
      }
    }
  }

  /**
   Where nothing but commands acts on the control model: a lamp is forced, or its mode is not the configured one, only
   after a verified command that says so, of an authenticated actor whose role has the grant for it.
   */
  lemma {:induction false} ForcedByLicense(config: Control.Config, granted: Grants, n: Node, inputs: seq<Input>)
    requires config.schedule.Valid() && Licenses(config, granted, n)
    requires forall i :: 0 <= i < |inputs| ==> !inputs[i].Steer?
    ensures Licenses(config, granted, Run(config, granted, n, inputs))
    decreases inputs
  {
    if inputs != [] {
      if inputs[0].Submitted? {
        SubmitLicensed(config, granted, n, inputs[0].command, inputs[0].ticks);
      }
      ForcedByLicense(config, granted, Step(config, granted, n, inputs[0]), inputs[1..]);
    }
  }

  /** ... in particular on a new lamp node. */
  lemma NewNodeForcedByLicense(config: Control.Config, granted: Grants, inputs: seq<Input>)
    requires config.schedule.Valid()
    requires forall i :: 0 <= i < |inputs| ==> !inputs[i].Steer?
    ensures Licenses(config, granted, Run(config, granted, Node(Control.Initial(config), 0.0, map[], []), inputs))
  {
    ForcedByLicense(config, granted, Node(Control.Initial(config), 0.0, map[], []), inputs);
  }

  lemma NewNodeIsSound(granted: Grants, s: Control.Control)
    ensures Sound(granted, Node(s, 0.0, map[], []))
  {
  }

  /** ... in particular in every run of a new lamp node. */
  lemma NewNodeExecutesAtMostOnce(config: Control.Config, granted: Grants, inputs: seq<Input>)
    requires config.schedule.Valid()
    ensures Sound(granted, Run(config, granted, Node(Control.Initial(config), 0.0, map[], []), inputs))
  {
    NewNodeIsSound(granted, Control.Initial(config));
    ExecutedAtMostOnce(config, granted, Node(Control.Initial(config), 0.0, map[], []), inputs);
  }
}
