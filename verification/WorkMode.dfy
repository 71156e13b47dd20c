/** The registry of work modes and the one mode that may be active. */
module WorkMode {
  import opened Common

  const SX_WORK_MODE_MAX := 8

  /** A mode as it is handed in: any of its pointers may be missing. */
  datatype Mode = Mode(name: Option<string>, hasStart: bool, hasStop: bool)

  datatype Err = Ok | InvalidArg | NotFound | NoMem | HookFailed

  /** Calls of start and stop hooks, and how the start went. */
  datatype Call = Started(mode: Mode, ok: bool) | Stopped(mode: Mode)

  datatype Modes = Modes(modes: seq<Mode>, builtin: bool, current: Option<Mode>, calls: seq<Call>)

  datatype Op = Register(mode: Option<Mode>) | Start(name: Option<string>, ok: bool) | Stop

  const EMPTY := Modes([], false, None, [])
  const TCP_TRANSPARENT := Mode(Some("tcp_transparent"), true, true)
  const PROTOCOL_TEST := Mode(Some("protocol_test"), true, true)

  // ---------------------------------------------------------------- steps

  predicate Named(m: Mode, name: string) { m.name == Some(name) }

  function Find(modes: seq<Mode>, name: Option<string>): Option<Mode> {
    if name == None || name.value == "" || modes == [] then None
    else if Named(modes[0], name.value) then Some(modes[0])
    else Find(modes[1..], name)
  }

  function RegisterStep(s: Modes, mode: Option<Mode>): (Modes, Err) {
    if mode == None || mode.value.name == None || mode.value.name.value == "" || !mode.value.hasStart
    then (s, InvalidArg)
    else if Find(s.modes, mode.value.name).Some? then (s, Ok)
    else if |s.modes| >= SX_WORK_MODE_MAX then (s, NoMem)
    else (s.(modes := s.modes + [mode.value]), Ok)
  }

  function BuiltinStep(s: Modes): Modes {
    if s.builtin then s
    else
      var (t, err) := RegisterStep(s, Some(TCP_TRANSPARENT));
      if err != Ok then t
      else
        var (u, err') := RegisterStep(t, Some(PROTOCOL_TEST));
        if err' != Ok then u else u.(builtin := true)
  }

  function StopStep(s: Modes): Modes {
    if s.current == None then s
    else if !s.current.value.hasStop then s.(current := None)
    else s.(current := None, calls := s.calls + [Stopped(s.current.value)])
  }

  function StartStep(before: Modes, name: Option<string>, ok: bool): (Modes, Err) {
    var s := BuiltinStep(before);
    var mode := Find(s.modes, name);
    if mode == None then (s, NotFound)
    else if s.current.Some? && s.current.value.name == mode.value.name then (s, Ok)
    else
      var t := StopStep(s);
      var u := t.(calls := t.calls + [Started(mode.value, ok)]);
      if ok then (u.(current := mode), Ok) else (u, HookFailed)
  }

  function Step(s: Modes, op: Op): Modes {
    match op
    case Register(mode) => RegisterStep(s, mode).0
    case Start(name, ok) => StartStep(s, name, ok).0
    case Stop => StopStep(s)
  }

  function Run(ops: seq<Op>): Modes {
    if ops == [] then EMPTY else Step(Run(ops[..|ops| - 1]), ops[|ops| - 1])
  }

  // ---------------------------------------------------------------- what every run keeps

  ghost predicate GoodRegistry(modes: seq<Mode>) {
    && |modes| <= SX_WORK_MODE_MAX
    && (forall i :: 0 <= i < |modes| ==> modes[i].name.Some? && modes[i].name.value != "" && modes[i].hasStart)
    && (forall i, j :: 0 <= i < j < |modes| ==> modes[i].name != modes[j].name)
  }

  /** The hooks were called in pairs: a mode is stopped right after it was started, and after a
      successful start comes that mode's stop, or another start if the mode has no stop hook. */
  ghost predicate Paired(calls: seq<Call>) {
    && (forall i :: 0 <= i < |calls| && calls[i].Stopped? ==>
          calls[i].mode.hasStop && i > 0 && calls[i - 1] == Started(calls[i].mode, true))
    && (forall i :: 0 < i < |calls| && calls[i - 1].Started? && calls[i - 1].ok ==>
          calls[i] == Stopped(calls[i - 1].mode) || (!calls[i - 1].mode.hasStop && calls[i].Started?))
  }

  ghost predicate Inv(s: Modes) {
    && GoodRegistry(s.modes) && Paired(s.calls)
    && (s.current.Some? ==> s.calls != [] && s.calls[|s.calls| - 1] == Started(s.current.value, true))
    && (s.current == None && s.calls != [] ==>
          var last := s.calls[|s.calls| - 1]; last.Started? && last.ok ==> !last.mode.hasStop)
  }

  lemma {:induction false} FindFinds(modes: seq<Mode>, name: Option<string>)
    ensures var found := Find(modes, name);
            && (found.Some? ==> found.value in modes && found.value.name == name)
            && (found == None && name.Some? && name.value != "" ==>
                  forall i :: 0 <= i < |modes| ==> modes[i].name != name)
    decreases |modes|
  {
    if modes != [] {
      FindFinds(modes[1..], name);
      assert modes == [modes[0]] + modes[1..];
    }
  }

  lemma RegisterKeeps(s: Modes, mode: Option<Mode>)
    requires Inv(s)
    ensures Inv(RegisterStep(s, mode).0)
  {
    if mode.Some? {
      FindFinds(s.modes, mode.value.name);
    }
  }

  lemma BuiltinKeeps(s: Modes)
    requires Inv(s)
    ensures Inv(BuiltinStep(s))
  {
    hide Inv, RegisterStep;
    RegisterKeeps(s, Some(TCP_TRANSPARENT));
    var t := RegisterStep(s, Some(TCP_TRANSPARENT)).0;
    RegisterKeeps(t, Some(PROTOCOL_TEST));
    FlagKeeps(RegisterStep(t, Some(PROTOCOL_TEST)).0);
  }

  lemma FlagKeeps(s: Modes)
    ensures Inv(s) ==> Inv(s.(builtin := true))
  {
  }

  lemma StopKeeps(s: Modes)
    requires Inv(s)
    ensures Inv(StopStep(s)) && StopStep(s).current == None && StopStep(s).modes == s.modes
  {
  }

  lemma StepKeeps(s: Modes, op: Op)
    requires Inv(s)
    ensures Inv(Step(s, op))
  {
    match op
    case Register(mode) => RegisterKeeps(s, mode);
    case Stop => StopKeeps(s);
    case Start(name, ok) =>
      BuiltinKeeps(s);
      hide BuiltinStep;
      StopKeeps(BuiltinStep(s));
      LaunchKeeps(StopStep(BuiltinStep(s)), Find(BuiltinStep(s).modes, name), ok);
  }

  lemma LaunchKeeps(s: Modes, mode: Option<Mode>, ok: bool)
    requires Inv(s) && s.current == None
    ensures mode.Some? ==>
      Inv(s.(calls := s.calls + [Started(mode.value, ok)], current := if ok then mode else None))
  {
  }

  /** Whatever is registered, started and stopped, and whichever start hooks fail: names stay unique
      and at most eight, hooks come in pairs, and the active mode is the one started last. */
  lemma {:induction false} EveryRunPaired(ops: seq<Op>)
    ensures Inv(Run(ops))
    decreases |ops|
  {
    hide Step, Inv;
    if ops == [] {
      EmptyGood();
    } else {
      EveryRunPaired(ops[..|ops| - 1]);
      StepKeeps(Run(ops[..|ops| - 1]), ops[|ops| - 1]);
    }
  }

  lemma EmptyGood()
    ensures Inv(EMPTY)
  {
  }

  /** How many modes are running: successful starts less stops, among modes that have a stop hook. */
  function Running(calls: seq<Call>): int {
    if calls == [] then 0
    else
      var last := calls[|calls| - 1];
      Running(calls[..|calls| - 1]) +
      (match last case Started(mode, ok) => if ok && mode.hasStop then 1 else 0 case Stopped(_) => -1)
  }

  lemma {:induction false} AtMostOne(calls: seq<Call>)
    requires Paired(calls)
    ensures Running(calls) ==
            if calls != [] && calls[|calls| - 1].Started? && calls[|calls| - 1].ok && calls[|calls| - 1].mode.hasStop
            then 1 else 0
    decreases |calls|
  {
    if calls != [] {
      var n := |calls| - 1;
      var front := calls[..n];
      assert Paired(front);
      AtMostOne(front);
      if n > 0 && calls[n - 1].Started? && calls[n - 1].ok {
        assert calls[n] == Stopped(calls[n - 1].mode) || (!calls[n - 1].mode.hasStop && calls[n].Started?);
      }
    }
  }

  /** Never more than one, in any run, and one exactly while a mode with a stop hook is current. */
  lemma OneModeRuns(ops: seq<Op>)
    ensures
      var s := Run(ops);
      Running(s.calls) == if s.current.Some? && s.current.value.hasStop then 1 else 0
  {
    hide Run, Running;
    EveryRunPaired(ops);
    AtMostOne(Run(ops).calls);
  }

  // ---------------------------------------------------------------- what the operations mean

  ghost predicate Registered(modes: seq<Mode>, name: Option<string>) {
    exists i :: 0 <= i < |modes| && modes[i].name == name
  }

  lemma FoundIff(modes: seq<Mode>, name: Option<string>)
    ensures Find(modes, name).Some? <==> name.Some? && name.value != "" && Registered(modes, name)
  {
    FindFinds(modes, name);
    if Find(modes, name).Some? {
      var i :| 0 <= i < |modes| && modes[i] == Find(modes, name).value;
      assert modes[i].name == name;
    }
    if name == None || name.value == "" {
      assert Find(modes, name) == None;
    }
  }

  /** A mode without a name or a start hook is turned down, one whose name is taken changes nothing, a
      ninth does not fit, any other one is added. */
  lemma RegisterMeans(s: Modes, mode: Option<Mode>)
    ensures
      var (t, err) := RegisterStep(s, mode);
      var complete := mode.Some? && mode.value.name.Some? && mode.value.name.value != "" && mode.value.hasStart;
      && (err == InvalidArg <==> !complete)
      && (err == NoMem <==> complete && !Registered(s.modes, mode.value.name) && |s.modes| >= 8)
      && err in {Ok, InvalidArg, NoMem}
      && t == s.(modes := t.modes)
      && t.modes == s.modes + if err == Ok && !Registered(s.modes, mode.value.name) then [mode.value] else []
  {
    assert s.modes + [] == s.modes;
    if mode.Some? {
      FoundIff(s.modes, mode.value.name);
    }
  }

  lemma BuiltinMeans(s: Modes)
    ensures
      var t := BuiltinStep(s);
      && t == s.(modes := t.modes, builtin := t.builtin) && s.modes <= t.modes
      && (forall i :: |s.modes| <= i < |t.modes| ==> t.modes[i] in {TCP_TRANSPARENT, PROTOCOL_TEST})
      && (s.builtin ==> t == s)
      && (!s.builtin ==>
            (t.builtin <==>
               Registered(t.modes, Some("tcp_transparent")) && Registered(t.modes, Some("protocol_test")))
            && (!t.builtin ==> |t.modes| >= 8))
  {
    RegisterMeans(s, Some(TCP_TRANSPARENT));
    var t := RegisterStep(s, Some(TCP_TRANSPARENT)).0;
    RegisterMeans(t, Some(PROTOCOL_TEST));
    var u := RegisterStep(t, Some(PROTOCOL_TEST)).0;
    hide RegisterStep;
    StaysRegistered(s.modes, t.modes, Some("tcp_transparent"), TCP_TRANSPARENT);
    StaysRegistered(t.modes, u.modes, Some("protocol_test"), PROTOCOL_TEST);
    StaysRegistered(t.modes, u.modes, Some("tcp_transparent"), PROTOCOL_TEST);
    hide Registered;
  }

  lemma StaysRegistered(modes: seq<Mode>, more: seq<Mode>, name: Option<string>, mode: Mode)
    ensures more == modes ==> (Registered(more, name) <==> Registered(modes, name))
    ensures more == modes + [mode] ==> (Registered(more, name) <==> Registered(modes, name) || mode.name == name)
  {
    if more == modes + [mode] {
      if i :| 0 <= i < |modes| && modes[i].name == name {
        assert more[i].name == name;
      }
      if mode.name == name {
        assert more[|modes|].name == name;
      }
    }
  }

  /** After a start by any name both built-in modes are registered, unless the registry is full. */
  lemma BuiltinsThere(s: Modes, name: Option<string>, ok: bool)
    requires s.builtin ==>
      Registered(s.modes, Some("tcp_transparent")) && Registered(s.modes, Some("protocol_test"))
    ensures
      var t := StartStep(s, name, ok).0;
      (Registered(t.modes, Some("tcp_transparent")) && Registered(t.modes, Some("protocol_test"))) || |t.modes| >= 8
  {
    BuiltinMeans(s);
    hide BuiltinStep, Find, Registered;
  }

  function StopCalls(s: Modes): seq<Call> {
    if s.current.Some? && s.current.value.hasStop then [Stopped(s.current.value)] else []
  }

  /** A start by name: not found exactly if nothing of that name is registered; nothing happens if it is
      the active mode's; otherwise the active mode is stopped, the one found is started, and it is the
      active one exactly if that worked. */
  lemma StartMeans(s: Modes, name: Option<string>, ok: bool)
    ensures
      var (t, err) := StartStep(s, name, ok);
      var there := name.Some? && name.value != "" && Registered(t.modes, name);
      var active := s.current.Some? && s.current.value.name == name;
      && s.modes <= t.modes
      && (err == NotFound <==> !there)
      && (!there || active ==> t.current == s.current && t.calls == s.calls)
      && (there && active ==> err == Ok)
      && (there && !active ==>
            && err == (if ok then Ok else HookFailed)
            && exists m :: m in t.modes && m.name == name
                 && t.calls == s.calls + StopCalls(s) + [Started(m, ok)]
                 && t.current == if ok then Some(m) else None)
  {
    BuiltinMeans(s);
    var t := BuiltinStep(s);
    FindFinds(t.modes, name);
    FoundIff(t.modes, name);
    assert t.calls + [] == t.calls;
    hide BuiltinStep, Find, Registered;
  }

  /** A stop ends the active mode, with its hook if it has one. */
  lemma StopMeans(s: Modes)
    ensures StopStep(s) == s.(current := None, calls := s.calls + StopCalls(s))
  {
    assert s.calls + [] == s.calls;
  }

  // ---------------------------------------------------------------- the code

  class WorkModes {
    const sModes: array<Option<Mode>>
    var sModeCount: nat
    var sRegistered: bool
    var sCurrentMode: Option<Mode>
    var calls: seq<Call>

    ghost predicate Shows(s: Modes)
      reads this, sModes
    {
      && sModes.Length == SX_WORK_MODE_MAX && sModeCount == |s.modes| <= SX_WORK_MODE_MAX
      && (forall i :: 0 <= i < sModeCount ==> sModes[i] == Some(s.modes[i]))
      && sRegistered == s.builtin && sCurrentMode == s.current && calls == s.calls
    }

    constructor ()
      ensures Shows(EMPTY) && fresh(sModes)
    {
      sModes := new Option<Mode>[SX_WORK_MODE_MAX](_ => None);
      sModeCount, sRegistered, sCurrentMode, calls := 0, false, None, [];
    }

    method FindMode(name: Option<string>, ghost s: Modes) returns (found: Option<Mode>)
      requires Shows(s)
      ensures found == Find(s.modes, name)
    {
      if name == None || name.value == "" {
        return None;
      }
      for i := 0 to sModeCount
        invariant Find(s.modes, name) == Find(s.modes[i..], name)
      {
        assert s.modes[i..][1..] == s.modes[i + 1..];
        if sModes[i].Some? && Named(sModes[i].value, name.value) {
          return sModes[i];
        }
      }
      return None;
    }

    /** `sx_work_mode_register` */
    method RegisterMode(mode: Option<Mode>, ghost s: Modes) returns (err: Err)
      requires Shows(s)
      modifies this`sModeCount, sModes
      ensures Shows(RegisterStep(s, mode).0) && err == RegisterStep(s, mode).1
    {
      if mode == None || mode.value.name == None || mode.value.name.value == "" || !mode.value.hasStart {
        return InvalidArg;
      }
      var existing := FindMode(mode.value.name, s);
      if existing.Some? {
        return Ok;
      }
      if sModeCount >= SX_WORK_MODE_MAX {
        return NoMem;
      }
      sModes[sModeCount] := mode;
      sModeCount := sModeCount + 1;
      return Ok;
    }

    /** `sx_work_mode_register_builtin_modes` */
    method RegisterBuiltinModes(ghost s: Modes)
      requires Shows(s)
      modifies this`sModeCount, this`sRegistered, sModes
      ensures Shows(BuiltinStep(s))
    {
      hide RegisterStep;
      if sRegistered {
        return;
      }
      var err := RegisterMode(Some(TCP_TRANSPARENT), s);
      if err != Ok {
        return;
      }
      err := RegisterMode(Some(PROTOCOL_TEST), RegisterStep(s, Some(TCP_TRANSPARENT)).0);
      if err != Ok {
        return;
      }
      sRegistered := true;
    }

    /** `sx_work_mode_stop_current` */
    method StopCurrent(ghost s: Modes)
      requires Shows(s)
      modifies this`sCurrentMode, this`calls
      ensures Shows(StopStep(s))
    {
      if sCurrentMode == None {
        return;
      }
      var mode := sCurrentMode.value;
      sCurrentMode := None;
      if !mode.hasStop {
        return;
      }
      calls := calls + [Stopped(mode)];
    }

    /** `sx_work_mode_start_by_name`; `ok` is the answer of the start hook. */
    method StartByName(name: Option<string>, ok: bool, ghost s: Modes) returns (err: Err)
      requires Shows(s)
      modifies this, sModes
      ensures Shows(StartStep(s, name, ok).0) && err == StartStep(s, name, ok).1
    {
      hide BuiltinStep, Find;
      RegisterBuiltinModes(s);
      ghost var t := BuiltinStep(s);
      var mode := FindMode(name, t);
      if mode == None {
        return NotFound;
      }
      if sCurrentMode.Some? && sCurrentMode.value.name == mode.value.name {
        return Ok;
      }
      if sCurrentMode.Some? {
        StopCurrent(t);
      }
      calls := calls + [Started(mode.value, ok)];
      if !ok {
        return HookFailed;
      }
      sCurrentMode := mode;
      return Ok;
    }
  }
}
