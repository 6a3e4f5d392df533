/**
 Lamp control: protection over override over the configured automatic mode, and light sensing with a dead band in
 which the lamp keeps its state.
 */
module Control {
  import opened Wrappers
  import opened Schedules

  datatype ConfiguredMode = AutoSensor | AutoScheduleSensor | FixedSchedule

  datatype OverrideState = NoOverride | ForceOn | ForceOff

  datatype OperatingMode = Automatic(mode: ConfiguredMode) | ForcedOn | ForcedOff

  datatype LampState = On | Off | Unknown

  datatype Protection = Protection(active: bool, forced: LampState)

  datatype ControlLayer = SafetyProtection | AuthorizedOverride | NormalAutomatic | SensorScheduleLogic

  datatype ControlDecision = ControlDecision(commanded: LampState, effective: OperatingMode, decidedBy: ControlLayer)

  datatype Config = Config(
    mode: ConfiguredMode,
    schedule: Schedule,
    lightOn: real,
    lightOff: real,
    outOfWindow: LampState)

  /** All that later decisions can depend on. */
  datatype Control = Control(mode: ConfiguredMode, override: OverrideState, protection: Protection, lampOn: bool)

  datatype Event =
    | Decide(light: Option<real>, ticks: int)
    | ApplyOverride(override: OverrideState)
    | ClearOverride
    | SetMode(mode: ConfiguredMode)
    | SetProtection(protection: Protection)

  function Initial(config: Config): Control
  {
    Control(config.mode, NoOverride, Protection(false, Off), false)
  }

  function StateOf(on: bool): LampState
  {
    if on then On else Off
  }

  /** What a light reading asks for; nothing when it is missing or inside the dead band. */
  function SensorRequest(config: Config, light: Option<real>): Option<bool>
  {
    if light.None? then None
    else if light.value <= config.lightOn then Some(true)
    else if light.value >= config.lightOff then Some(false)
    else None
  }

  /** The lamp state an event dictates under the given mode, override and protection, if it dictates one. */
  function Dictates(config: Config, mode: ConfiguredMode, override: OverrideState, protection: Protection, e: Event)
    : Option<bool>
    requires config.schedule.Valid()
  {
    match e
    case ApplyOverride(o) => if o == NoOverride then None else Some(o == ForceOn)
    case Decide(light, ticks) =>
      if protection.active then Some(protection.forced == On)
      else if override != NoOverride then Some(override == ForceOn)
      else if mode == FixedSchedule then Some(config.schedule.IsOn(ticks))
      else if mode == AutoScheduleSensor && !config.schedule.IsOn(ticks) then Some(config.outOfWindow == On)
      else SensorRequest(config, light)
    case _ => None
  }

  function Step(config: Config, c: Control, e: Event): Control
    requires config.schedule.Valid()
  {
    var d := Dictates(config, c.mode, c.override, c.protection, e);
    Control(
      if e.SetMode? then e.mode else c.mode,
      if e.ApplyOverride? then e.override else if e.ClearOverride? then NoOverride else c.override,
      if e.SetProtection? then e.protection else c.protection,
      if d.Some? then d.value else c.lampOn)
  }

  class ControlModel {
    const config: Config
    var protection: Protection
    var configuredMode: ConfiguredMode
    var activeOverride: OverrideState
    var lampIsOn: bool

    constructor (config: Config)
      ensures this.config == config && State() == Initial(config)
    {
      this.config := config;
      protection, configuredMode, activeOverride, lampIsOn := Protection(false, Off), config.mode, NoOverride, false;
    }

    function State(): Control
      reads this
    {
      Control(configuredMode, activeOverride, protection, lampIsOn)
    }

    function EffectiveMode(): OperatingMode
      reads this
    {
      match activeOverride
      case ForceOn => ForcedOn
      case ForceOff => ForcedOff
      case NoOverride => Automatic(configuredMode)
    }

    /** The sensor is not consulted because the schedule is off. */
    predicate OutOfWindow(ticks: int)
      requires config.schedule.Valid()
      reads this
    {
      configuredMode == AutoScheduleSensor && !config.schedule.IsOn(ticks)
    }

    method SetConfiguredMode(mode: ConfiguredMode)
      requires config.schedule.Valid()
      modifies this
      ensures State() == Step(config, old(State()), SetMode(mode))
    {
      configuredMode := mode;
    }

    method Override(override: OverrideState)
      requires config.schedule.Valid()
      modifies this
      ensures State() == Step(config, old(State()), ApplyOverride(override))
    {
      activeOverride := override;
      if override == ForceOn {
        lampIsOn := true;
      } else if override == ForceOff {
        lampIsOn := false;
      }
    }

    method Clear()
      requires config.schedule.Valid()
      modifies this
      ensures State() == Step(config, old(State()), ClearOverride)
    {
      activeOverride := NoOverride;
    }

    method Protect(active: bool, forced: LampState)
      requires config.schedule.Valid()
      modifies this
      ensures State() == Step(config, old(State()), SetProtection(Protection(active, forced)))
    {
      protection := Protection(active, forced);
    }

    /** A decision moves only the lamp, and reports the state the lamp is then in. */
    method MakeDecision(light: Option<real>, ticks: int) returns (d: ControlDecision)
      requires config.schedule.Valid()
      modifies `lampIsOn
      ensures State() == Step(config, old(State()), Decide(light, ticks))
      ensures d.effective ==
        if activeOverride == ForceOn then ForcedOn
        else if activeOverride == ForceOff then ForcedOff
        else Automatic(configuredMode)
      ensures d.decidedBy == SafetyProtection <==> protection.active
      ensures d.decidedBy == AuthorizedOverride <==> !protection.active && activeOverride != NoOverride
      ensures d.decidedBy == NormalAutomatic <==>
        && !protection.active && activeOverride == NoOverride
        && (configuredMode == FixedSchedule || OutOfWindow(ticks))
      ensures d.commanded ==
        if protection.active then protection.forced
        else if activeOverride == ForceOn then On
        else if activeOverride == ForceOff then Off
        else if configuredMode == FixedSchedule then (if config.schedule.IsOn(ticks) then On else Off)
        else if OutOfWindow(ticks) then config.outOfWindow
        else if light.Some? && light.value <= config.lightOn then On
        else if light.Some? && light.value >= config.lightOff then Off
        else if old(lampIsOn) then On else Off
      ensures lampIsOn <==> d.commanded == On
    {
      if protection.active {
        lampIsOn := protection.forced == On;
        return ControlDecision(protection.forced, EffectiveMode(), SafetyProtection);
      }
      if activeOverride == ForceOn {
        lampIsOn := true;
        return ControlDecision(On, ForcedOn, AuthorizedOverride);
      }
      if activeOverride == ForceOff {
        lampIsOn := false;
        return ControlDecision(Off, ForcedOff, AuthorizedOverride);
      }
      if configuredMode == FixedSchedule {
        var requested := config.schedule.IsOn(ticks);
        lampIsOn := requested;
        return ControlDecision(StateOf(requested), Automatic(FixedSchedule), NormalAutomatic);
      }
      if configuredMode == AutoScheduleSensor {
        if !config.schedule.IsOn(ticks) {
          lampIsOn := config.outOfWindow == On;
          return ControlDecision(config.outOfWindow, Automatic(AutoScheduleSensor), NormalAutomatic);
        }
        var inside := SensorDecision(light);
        return ControlDecision(inside, Automatic(AutoScheduleSensor), SensorScheduleLogic);
      }
      var decision := SensorDecision(light);
      return ControlDecision(decision, Automatic(AutoSensor), SensorScheduleLogic);
    }

    method SensorDecision(light: Option<real>) returns (s: LampState)
      modifies `lampIsOn
      ensures var r := SensorRequest(config, light); lampIsOn == if r.Some? then r.value else old(lampIsOn)
      ensures s == StateOf(lampIsOn)
    {
      if light.None? {
        return StateOf(lampIsOn);
      }
      if light.value <= config.lightOn {
        lampIsOn := true;
        return On;
      }
      if light.value >= config.lightOff {
        lampIsOn := false;
        return Off;
      }
      return StateOf(lampIsOn);
    }
  }

  // ---------- the lamp as a function of the history ----------

  function Run(config: Config, h: seq<Event>): Control
    requires config.schedule.Valid()
  {
    if h == [] then Initial(config) else Step(config, Run(config, h[..|h| - 1]), h[|h| - 1])
  }

  /** The mode last set. */
  function ModeIn(config: Config, h: seq<Event>): ConfiguredMode
  {
    if h == [] then config.mode
    else if h[|h| - 1].SetMode? then h[|h| - 1].mode
    else ModeIn(config, h[..|h| - 1])
  }

  /** The override last applied, unless it was cleared since. */
  function OverrideIn(h: seq<Event>): OverrideState
  {
    if h == [] || h[|h| - 1].ClearOverride? then NoOverride
    else if h[|h| - 1].ApplyOverride? then h[|h| - 1].override
    else OverrideIn(h[..|h| - 1])
  }

  function ProtectionIn(h: seq<Event>): Protection
  {
    if h == [] then Protection(false, Off)
    else if h[|h| - 1].SetProtection? then h[|h| - 1].protection
    else ProtectionIn(h[..|h| - 1])
  }

  /** The lamp state that event `k` of the history dictates, judged by what came before it. */
  function DictatedAt(config: Config, h: seq<Event>, k: nat): Option<bool>
    requires config.schedule.Valid() && k < |h|
  {
    Dictates(config, ModeIn(config, h[..k]), OverrideIn(h[..k]), ProtectionIn(h[..k]), h[k])
  }

  lemma {:induction false} SettingsInHistory(config: Config, h: seq<Event>)
    requires config.schedule.Valid()
    ensures var c := Run(config, h);
      c.mode == ModeIn(config, h) && c.override == OverrideIn(h) && c.protection == ProtectionIn(h)
  {
    if h != [] {
      SettingsInHistory(config, h[..|h| - 1]);
    }
  }

  /** The lamp shows what the latest decisive event dictated. */
  lemma {:induction false} LatestDecisiveEvent(config: Config, h: seq<Event>, k: nat)
    requires config.schedule.Valid() && k < |h|
    requires DictatedAt(config, h, k).Some?
    requires forall j :: k < j < |h| ==> DictatedAt(config, h, j).None?
    ensures Run(config, h).lampOn == DictatedAt(config, h, k).value
  {
    var before, last := h[..|h| - 1], |h| - 1;
    SettingsInHistory(config, before);
    if k < last {
      assert DictatedAt(config, h, last).None?;
      forall j | k <= j < last
        ensures DictatedAt(config, before, j) == DictatedAt(config, h, j)
      {
        assert before[..j] == h[..j];
      }
      LatestDecisiveEvent(config, before, k);
    }
  }

  /** Before the first decisive event the lamp is off. */
  lemma {:induction false} OffUntilDecided(config: Config, h: seq<Event>)
    requires config.schedule.Valid()
    requires forall j :: 0 <= j < |h| ==> DictatedAt(config, h, j).None?
    ensures !Run(config, h).lampOn
  {
    if h != [] {
      var before, last := h[..|h| - 1], |h| - 1;
      SettingsInHistory(config, before);
      assert DictatedAt(config, h, last).None?;
      forall j | 0 <= j < last
        ensures DictatedAt(config, before, j).None?
      {
        assert before[..j] == h[..j] && DictatedAt(config, h, j).None?;
      }
      OffUntilDecided(config, before);
    }
  }

  /** What a decision does to the lamp, by what the history left in force; nothing else changes. */
  lemma DecisionIs(config: Config, h: seq<Event>, light: Option<real>, ticks: int)
    requires config.schedule.Valid()
    ensures var c, r := Run(config, h), Run(config, h + [Decide(light, ticks)]);
      && r == c.(lampOn := r.lampOn)
      && (ProtectionIn(h).active ==> (r.lampOn <==> ProtectionIn(h).forced == On))
      && (!ProtectionIn(h).active && OverrideIn(h) != NoOverride ==> (r.lampOn <==> OverrideIn(h) == ForceOn))
    ensures !ProtectionIn(h).active && OverrideIn(h) == NoOverride ==>
      var c, r := Run(config, h), Run(config, h + [Decide(light, ticks)]);
      && (ModeIn(config, h) == FixedSchedule ==> (r.lampOn <==> config.schedule.IsOn(ticks)))
      && (ModeIn(config, h) == AutoScheduleSensor && !config.schedule.IsOn(ticks) ==>
            (r.lampOn <==> config.outOfWindow == On))
      && (ModeIn(config, h) == AutoSensor
          || (ModeIn(config, h) == AutoScheduleSensor && config.schedule.IsOn(ticks)) ==>
            r.lampOn == if light.Some? && light.value <= config.lightOn then true
                        else if light.Some? && light.value >= config.lightOff then false
                        else c.lampOn)
  {
    SettingsInHistory(config, h);
    assert (h + [Decide(light, ticks)])[..|h|] == h;
  }

  /** Of the other calls only a forced override moves the lamp, and it does so at once. */
  lemma CallIs(config: Config, h: seq<Event>, e: Event)
    requires config.schedule.Valid() && !e.Decide?
    ensures Run(config, h + [e]).lampOn ==
      if e == ApplyOverride(ForceOn) then true
      else if e == ApplyOverride(ForceOff) then false
      else Run(config, h).lampOn
  {
    assert (h + [e])[..|h|] == h;
  }

  /** A forced lamp stays as forced until the next override, clear or protection call. */
  lemma {:induction false} ForcedStays(config: Config, h: seq<Event>, o: OverrideState, more: seq<Event>)
    requires config.schedule.Valid() && o != NoOverride && !ProtectionIn(h).active
    requires forall i :: 0 <= i < |more| ==> more[i].Decide? || more[i].SetMode?
    ensures var all := h + [ApplyOverride(o)] + more;
      OverrideIn(all) == o && !ProtectionIn(all).active && (Run(config, all).lampOn <==> o == ForceOn)
  {
    var start := h + [ApplyOverride(o)];
    if more == [] {
      assert start + more == start && start[..|h|] == h;
      CallIs(config, h, ApplyOverride(o));
    } else {
      var n := |more| - 1;
      var before, e := start + more[..n], more[n];
      ForcedStays(config, h, o, more[..n]);
      assert start + more == before + [e] && (before + [e])[..|before|] == before;
      if e.Decide? {
        DecisionIs(config, before, e.light, e.ticks);
      } else {
        CallIs(config, before, e);
      }
    }
  }

  // ---------- no chatter in the dead band ----------

  /** An unforced, unprotected run of sensor decisions: the lamp after the readings, from the given state. */
  function Sensed(config: Config, on: bool, readings: seq<Option<real>>): bool
  {
    if readings == [] then on
    else
      var r := SensorRequest(config, readings[|readings| - 1]);
      if r.Some? then r.value else Sensed(config, on, readings[..|readings| - 1])
  }

  function Decisions(readings: seq<Option<real>>, ticks: int): seq<Event>
  {
    seq(|readings|, i requires 0 <= i < |readings| => Decide(readings[i], ticks + i))
  }

  /** Such a run is what the control model does in automatic sensor mode. */
  lemma {:induction false} SensorRun(config: Config, h: seq<Event>, readings: seq<Option<real>>, ticks: int)
    requires config.schedule.Valid()
    requires ModeIn(config, h) == AutoSensor && OverrideIn(h) == NoOverride && !ProtectionIn(h).active
    ensures var all := h + Decisions(readings, ticks);
      && Run(config, all) == Run(config, h).(lampOn := Sensed(config, Run(config, h).lampOn, readings))
  {
    SettingsInHistory(config, h);
    var all := h + Decisions(readings, ticks);
    if readings == [] {
      assert all == h;
    } else {
      var n := |readings| - 1;
      SensorRun(config, h, readings[..n], ticks);
      assert all[..|all| - 1] == h + Decisions(readings[..n], ticks);
    }
  }

  function Switchings(config: Config, on: bool, readings: seq<Option<real>>): nat
  {
    if readings == [] then 0
    else
      var before := readings[..|readings| - 1];
      Switchings(config, on, before) + if Sensed(config, on, before) != Sensed(config, on, readings) then 1 else 0
  }

  /** The readings that are there. */
  function Values(readings: seq<Option<real>>): seq<real>
  {
    if readings == [] then []
    else
      Values(readings[..|readings| - 1])
      + if readings[|readings| - 1].Some? then [readings[|readings| - 1].value] else []
  }

  function Distance(a: real, b: real): real
  {
    if a < b then b - a else a - b
  }

  /** The total up and down movement of the light level. */
  function Variation(v: seq<real>): real
  {
    if |v| <= 1 then 0.0 else Variation(v[..|v| - 1]) + Distance(v[|v| - 2], v[|v| - 1])
  }

  function DeadBand(config: Config): real
  {
    config.lightOff - config.lightOn
  }

  /** The width taken `n` times. */
  function Bands(width: real, n: nat): real
  {
    if n == 0 then 0.0 else Bands(width, n - 1) + width
  }

  lemma {:induction false} BandsAreMultiples(width: real, n: nat)
    ensures Bands(width, n) == n as real * width
  {
    if n > 0 {
      BandsAreMultiples(width, n - 1);
      assert n as real == (n - 1) as real + 1.0;
      assert ((n - 1) as real + 1.0) * width == (n - 1) as real * width + width;
    }
  }

  lemma NextValue(readings: seq<Option<real>>)
    requires readings != []
    ensures var v, w, last := Values(readings[..|readings| - 1]), Values(readings), readings[|readings| - 1];
      && (last.None? ==> w == v)
      && (last.Some? ==> |w| == |v| + 1 && w[|w| - 1] == last.value)
      && (last.Some? ==> Variation(w) == if v == [] then 0.0 else Variation(v) + Distance(v[|v| - 1], last.value))
  {
    var v, w := Values(readings[..|readings| - 1]), Values(readings);
    if readings[|readings| - 1].Some? {
      assert w[..|w| - 1] == v;
    }
  }

  /** The side of the dead band the light was last seen on: at or below the lower threshold is the on side. */
  function LastSide(config: Config, readings: seq<Option<real>>): Option<bool>
  {
    if readings == [] then None
    else
      var side := SensorRequest(config, readings[|readings| - 1]);
      if side.Some? then side else LastSide(config, readings[..|readings| - 1])
  }

  function FirstSide(config: Config, readings: seq<Option<real>>): Option<bool>
  {
    if readings == [] then None
    else
      var before := FirstSide(config, readings[..|readings| - 1]);
      if before.Some? then before else SensorRequest(config, readings[|readings| - 1])
  }

  /** How often the light passed the whole dead band, from one side to the other. */
  function Crossings(config: Config, readings: seq<Option<real>>): nat
  {
    if readings == [] then 0
    else
      var before := readings[..|readings| - 1];
      var here, there := SensorRequest(config, readings[|readings| - 1]), LastSide(config, before);
      Crossings(config, before) + if here.Some? && there.Some? && here != there then 1 else 0
  }

  lemma {:induction false} SidesShow(config: Config, on: bool, readings: seq<Option<real>>)
    ensures Sensed(config, on, readings)
         == if LastSide(config, readings).Some? then LastSide(config, readings).value else on
    ensures FirstSide(config, readings).Some? <==> LastSide(config, readings).Some?
  {
    if readings != [] {
      SidesShow(config, on, readings[..|readings| - 1]);
    }
  }

  /**
   The lamp switches exactly once for each full crossing of the dead band, and once more if the first decisive
   reading asks for the other state than the one the lamp started in.
   */
  lemma {:induction false} SwitchingsAreCrossings(config: Config, on: bool, readings: seq<Option<real>>)
    ensures Switchings(config, on, readings)
         == Crossings(config, readings) + if FirstSide(config, readings) == Some(!on) then 1 else 0
  {
    if readings != [] {
      SwitchingsAreCrossings(config, on, readings[..|readings| - 1]);
      SidesShow(config, on, readings[..|readings| - 1]);
    }
  }

  /** The movement left over once every crossing has used up one dead band. */
  function Unspent(config: Config, readings: seq<Option<real>>): real
  {
    Variation(Values(readings)) - Bands(DeadBand(config), Crossings(config, readings))
  }

  /** What is left over covers the way back to the side the light was last seen on. */
  predicate Solvent(config: Config, last: Option<real>, left: real, side: Option<bool>)
  {
    && left >= 0.0
    && (side.Some? ==> last.Some?)
    && (side.Some? && side.value ==> left >= last.value - config.lightOn)
    && (side.Some? && !side.value ==> left >= config.lightOff - last.value)
  }

  lemma StaysSolvent(config: Config, last: Option<real>, left: real, side: Option<bool>, to: real)
    requires config.lightOn < config.lightOff && Solvent(config, last, left, side)
    ensures var request := SensorRequest(config, Some(to));
      var moved := if last.Some? then Distance(last.value, to) else 0.0;
      var spent := if request.Some? && side.Some? && request != side then DeadBand(config) else 0.0;
      Solvent(config, Some(to), left + moved - spent, if request.Some? then request else side)
  {
  }

  function Last(v: seq<real>): Option<real>
  {
    if v == [] then None else Some(v[|v| - 1])
  }

  lemma UnspentNext(config: Config, readings: seq<Option<real>>)
    requires readings != [] && readings[|readings| - 1].Some?
    ensures var before, reading := readings[..|readings| - 1], readings[|readings| - 1];
      var request, side, last := SensorRequest(config, reading), LastSide(config, before), Last(Values(before));
      Unspent(config, readings) == Unspent(config, before)
        + (if last.Some? then Distance(last.value, reading.value) else 0.0)
        - (if request.Some? && side.Some? && request != side then DeadBand(config) else 0.0)
  {
    NextValue(readings);
  }

  lemma {:induction false} NothingOverspent(config: Config, readings: seq<Option<real>>)
    requires config.lightOn < config.lightOff
    ensures Solvent(config, Last(Values(readings)), Unspent(config, readings), LastSide(config, readings))
  {
    if readings != [] {
      var before, reading := readings[..|readings| - 1], readings[|readings| - 1];
      NextValue(readings);
      NothingOverspent(config, before);
      if reading.Some? {
        UnspentNext(config, readings);
        StaysSolvent(config, Last(Values(before)), Unspent(config, before), LastSide(config, before), reading.value);
      }
    }
  }

  lemma {:induction false} VariationIsMovement(v: seq<real>)
    ensures Variation(v) >= 0.0
  {
    if |v| > 1 {
      VariationIsMovement(v[..|v| - 1]);
    }
  }

  /** Every full crossing takes one width of the dead band of light movement. */
  lemma CrossingsAreEarned(config: Config, readings: seq<Option<real>>)
    requires config.lightOn < config.lightOff
    ensures Bands(DeadBand(config), Crossings(config, readings)) <= Variation(Values(readings))
  {
    NothingOverspent(config, readings);
  }

  lemma {:induction false} MoreBands(width: real, m: nat, n: nat)
    requires width > 0.0 && m <= n
    ensures Bands(width, m) <= Bands(width, n)
  {
    if m < n {
      MoreBands(width, m, n - 1);
    }
  }

  /** So switchings after the first never outnumber the widths of the dead band that the light has moved. */
  lemma SwitchingsAreEarned(config: Config, on: bool, readings: seq<Option<real>>)
    requires config.lightOn < config.lightOff
    ensures Switchings(config, on, readings) > 0 ==>
      Bands(DeadBand(config), Switchings(config, on, readings) - 1) <= Variation(Values(readings))
  {
    SwitchingsAreCrossings(config, on, readings);
    CrossingsAreEarned(config, readings);
    if Switchings(config, on, readings) > 0 {
      MoreBands(DeadBand(config), Switchings(config, on, readings) - 1, Crossings(config, readings));
    }
  }

  /** The light going back and forth between the two thresholds. */
  function Swinging(config: Config, n: nat): seq<Option<real>>
  {
    seq(n, i => Some(if i % 2 == 0 then config.lightOn else config.lightOff))
  }

  /** The bound is reached by every number of switchings, so no smaller one holds. */
  lemma {:induction false} SwingingIsTight(config: Config, n: nat)
    requires config.lightOn < config.lightOff && n > 0
    ensures var r := Swinging(config, n);
      && Switchings(config, false, r) == n && Sensed(config, false, r) == (n % 2 == 1)
      && Variation(Values(r)) == Bands(DeadBand(config), n - 1)
      && Values(r) != [] && Values(r)[|Values(r)| - 1] == if n % 2 == 1 then config.lightOn else config.lightOff
  {
    var r := Swinging(config, n);
    assert r[..n - 1] == Swinging(config, n - 1);
    NextValue(r);
    if n == 1 {
      assert r[..0] == [];
    } else {
      SwingingIsTight(config, n - 1);
    }
  }
}
