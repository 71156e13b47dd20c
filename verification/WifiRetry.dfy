/** Reconnecting to Wi-Fi: a task that wakes up now and then, and event handlers that run whenever they
    like, share the two timestamps from which the back-off is computed. Times are milliseconds of a
    clock that does not run backwards; an event's `dt` is the time since the event before it. */
module WifiRetry {
  import opened Common

  const SECOND := 1000
  const MINUTE := 60 * SECOND
  const HOUR := 60 * MINUTE

  /** `due` is the reading with which the task decided to reconnect, during its short delay; `attempts`
      are the readings of the attempts since `first` was last set. */
  datatype Wifi = Wifi(
    connecting: bool, paused: bool, first: int, last: int, now: int, idle: nat,
    due: Option<int>, attempts: seq<int>)

  datatype Event =
    | Look(dt: nat, connected: bool, networkUp: bool)
    | Connect(dt: nat)
    | Disconnected(dt: nat)
    | GotIp(dt: nat)
    | StaStart(dt: nat)
    | InitSta(dt: nat)
    | InitTimeout(dt: nat)
    | Pause(dt: nat)
    | Resume(dt: nat)
    | Cleanup(dt: nat)

  const BOOT := Wifi(false, false, 0, 0, 0, 0, None, [])

  // ---------------------------------------------------------------- steps

  /** How long since the last attempt must have passed, by the length of the outage. */
  function Interval(elapsed: int): int {
    if elapsed < 10 * MINUTE then 10 * SECOND
    else if elapsed < HOUR then 30 * SECOND
    else 2 * MINUTE
  }

  function Begin(s: Wifi): Wifi { s.(connecting := true, first := s.now, last := s.now, attempts := []) }

  function LookStep(s: Wifi, connected: bool, networkUp: bool): Wifi {
    if s.due.Some? then s
    else if s.connecting && !s.paused then
      if connected then s.(connecting := false, first := 0, attempts := [])
      else if s.now - s.last >= Interval(s.now - s.first) then s.(due := Some(s.now))
      else s
    else if s.paused then s
    else
      var t := s.(idle := s.idle + 1);
      if t.idle % 300 == 0 && !connected && networkUp then Begin(t) else t
  }

  function ConnectStep(s: Wifi): Wifi {
    if s.due == None then s
    else if s.paused then s.(due := None)
    else s.(due := None, last := s.due.value, attempts := s.attempts + [s.due.value])
  }

  function Step(before: Wifi, e: Event): Wifi {
    var s := before.(now := before.now + e.dt);
    match e
    case Look(_, connected, networkUp) => LookStep(s, connected, networkUp)
    case Connect(_) => ConnectStep(s)
    case Disconnected(_) =>
      if s.first == 0 then Begin(s).(paused := false) else s.(connecting := true, paused := false)
    case GotIp(_) => s.(connecting := false, first := 0, attempts := [])
    case StaStart(_) => s.(connecting := true, last := s.now)
    case InitSta(_) => Begin(s)
    case InitTimeout(_) => s.(connecting := false)
    case Pause(_) => s.(paused := true)
    case Resume(_) => if !s.paused then s else s.(paused := false, last := if s.connecting then s.now else s.last)
    case Cleanup(_) => s.(due := None)
  }

  function Run(s: Wifi, events: seq<Event>): Wifi {
    if events == [] then s else Step(Run(s, events[..|events| - 1]), events[|events| - 1])
  }

  // ---------------------------------------------------------------- what every run keeps

  function Newest(s: Wifi): int { if s.attempts == [] then s.first else s.attempts[|s.attempts| - 1] }

  /** The first attempt may have been decided on before the outage began; every later one keeps the
      distance its own time demands. */
  ghost predicate Spaced(attempts: seq<int>, first: int) {
    && (attempts != [] && attempts[0] > first ==> attempts[0] - first >= Interval(attempts[0] - first))
    && (forall i :: 0 < i < |attempts| ==>
          attempts[i] >= first && attempts[i] - attempts[i - 1] >= Interval(attempts[i] - first))
  }

  ghost predicate DueOk(s: Wifi) {
    s.due.Some? ==>
      var c := s.due.value;
      && 10 * SECOND <= c <= s.now
      && (if s.attempts == [] then c <= s.first || c - s.first >= Interval(c - s.first)
          else c >= s.first && c - Newest(s) >= Interval(c - s.first))
  }

  ghost predicate Inv(s: Wifi) {
    && 0 <= s.first <= s.now && 0 <= s.last <= s.now && Newest(s) <= s.last
    && DueOk(s) && Spaced(s.attempts, s.first)
  }

  lemma StepKeeps(s: Wifi, e: Event)
    requires Inv(s)
    ensures Inv(Step(s, e))
  {
    hide Interval, Spaced;
    var t := s.(now := s.now + e.dt);
    SpacedNone(t.now);
    SpacedNone(0);
    match e
    case Look(_, connected, networkUp) => LookKeeps(t, connected, networkUp);
    case Connect(_) => ConnectKeeps(t);
    case Disconnected(_) =>
    case GotIp(_) => ForgetKeeps(t);
    case StaStart(_) =>
    case InitSta(_) =>
    case InitTimeout(_) =>
    case Pause(_) =>
    case Resume(_) =>
    case Cleanup(_) =>
  }

  lemma SpacedNone(first: int)
    ensures Spaced([], first)
  {
  }

  lemma ForgetKeeps(s: Wifi)
    requires Inv(s)
    ensures Inv(s.(connecting := false, first := 0, attempts := []))
  {
    hide Spaced;
    SpacedNone(0);
  }

  lemma LookKeeps(s: Wifi, connected: bool, networkUp: bool)
    requires Inv(s)
    ensures Inv(LookStep(s, connected, networkUp))
  {
    hide Spaced;
    SpacedNone(0);
    SpacedNone(s.now);
  }

  lemma ConnectKeeps(s: Wifi)
    requires Inv(s)
    ensures Inv(ConnectStep(s))
  {
    hide Interval;
    if s.due.Some? && !s.paused {
      var a := ConnectStep(s).attempts;
      forall i | 0 < i < |a|
        ensures a[i] >= s.first && a[i] - a[i - 1] >= Interval(a[i] - s.first)
      {
        assert i < |s.attempts| ==> a[i] == s.attempts[i] && a[i - 1] == s.attempts[i - 1];
      }
    }
  }

  lemma {:induction false} RunKeeps(events: seq<Event>)
    ensures Inv(Run(BOOT, events))
    decreases |events|
  {
    hide Step;
    if events != [] {
      RunKeeps(events[..|events| - 1]);
      StepKeeps(Run(BOOT, events[..|events| - 1]), events[|events| - 1]);
    }
  }

  // ---------------------------------------------------------------- not too often

  /** How many attempts fall into `[lo, hi)` of the outage. */
  function Count(attempts: seq<int>, first: int, lo: int, hi: int): nat {
    if attempts == [] then 0
    else Count(attempts[..|attempts| - 1], first, lo, hi) + if lo <= attempts[|attempts| - 1] - first < hi then 1 else 0
  }

  /** `n` attempts at least `gap` apart, none before `from`, take `from + (n - 1) * gap`. */
  lemma {:induction false} TierTakes(attempts: seq<int>, first: int, lo: int, hi: int, from: int, gap: int)
    requires Spaced(attempts, first) && lo <= from && gap > 0
    requires forall e :: lo <= e < hi ==> Interval(e) == gap
    requires forall i :: 0 <= i < |attempts| && lo <= attempts[i] - first < hi ==> attempts[i] - first >= from
    ensures
      var c := Count(attempts, first, lo, hi);
      c > 0 ==> Reach(c, from, gap) <= attempts[|attempts| - 1] - first && Reach(c, from, gap) < hi
    decreases |attempts|
  {
    if attempts != [] {
      hide Interval, Reach;
      var n := |attempts| - 1;
      var front := attempts[..n];
      TierTakes(front, first, lo, hi, from, gap);
      var c, x := Count(front, first, lo, hi), attempts[n] - first;
      ReachNext(c, from, gap);
      if n > 0 {
        Gap(attempts, first, n);
        assert c > 0 && lo <= x < hi ==> Interval(x) == gap;
      }
    }
  }

  /** The earliest time at which a `count`-th attempt can be. */
  function Reach(count: nat, from: int, gap: int): int { from + (count - 1) * gap }

  lemma ReachNext(count: nat, from: int, gap: int)
    requires gap > 0
    ensures Reach(count + 1, from, gap) == Reach(count, from, gap) + gap && Reach(1, from, gap) == from
    ensures count > 0 ==> Reach(count, from, gap) >= from
  {
    assert count * gap == (count - 1) * gap + gap;
  }

  lemma Gap(attempts: seq<int>, first: int, i: int)
    requires Spaced(attempts, first) && 0 < i < |attempts|
    ensures attempts[i] - attempts[i - 1] >= Interval(attempts[i] - first) > 0
  {
  }

  /** Whether the newest outage began while the task was in its delay with an attempt decided on, and
      whether that attempt was made. */
  datatype Carry = No | Pending | Made

  /** The step in which an outage begins, setting both timestamps. */
  predicate Begins(s: Wifi, e: Event) {
    || e.InitSta?
    || (e.Disconnected? && s.first == 0)
    || (e.Look? && s.due == None && !s.connecting && !s.paused
        && (s.idle + 1) % 300 == 0 && !e.connected && e.networkUp)
  }

  /** The step in which the connection is there, or found to be. */
  predicate Ends(s: Wifi, e: Event) {
    e.GotIp? || (e.Look? && s.due == None && s.connecting && !s.paused && e.connected)
  }

  function NextCarry(c: Carry, s: Wifi, e: Event): Carry {
    if Begins(s, e) then (if s.due.Some? then Pending else No)
    else if Ends(s, e) then No
    else if c == Pending && e.Connect? then (if s.paused then No else Made)
    else if c == Pending && e.Cleanup? then No
    else c
  }

  /** Read off the events: an outage began with an attempt under way, which then was made. */
  function CarryOf(events: seq<Event>): Carry {
    if events == [] then No
    else
      var front := events[..|events| - 1];
      NextCarry(CarryOf(front), Run(BOOT, front), events[|events| - 1])
  }

  predicate Carried(s: Wifi) { s.attempts != [] && s.attempts[0] <= s.first }

  predicate CarryOk(s: Wifi, c: Carry) {
    && (c == Pending <==> s.due.Some? && s.attempts == [] && s.due.value <= s.first)
    && (c == Made <==> Carried(s))
  }

  lemma CarryStep(s: Wifi, c: Carry, e: Event)
    requires Inv(s) && CarryOk(s, c)
    ensures CarryOk(Step(s, e), NextCarry(c, s, e))
  {
    hide Spaced;
  }

  /** An attempt counted for an outage was decided on before it exactly if the outage began during the
      delay before an attempt that was made. */
  lemma {:induction false} CarriedIff(events: seq<Event>)
    ensures CarryOk(Run(BOOT, events), CarryOf(events))
    decreases |events|
  {
    hide Step, NextCarry, CarryOk;
    if events == [] {
      NothingCarried();
    } else {
      var front := events[..|events| - 1];
      CarriedIff(front);
      RunKeeps(front);
      CarryStep(Run(BOOT, front), CarryOf(front), events[|events| - 1]);
    }
  }

  lemma NothingCarried()
    ensures CarryOk(BOOT, No)
  {
  }

  lemma {:induction false} NoneBefore(s: Wifi, i: nat)
    requires Inv(s) && !Carried(s) && i < |s.attempts|
    ensures s.attempts[i] - s.first >= 10 * SECOND
  {
    if i > 0 {
      NoneBefore(s, i - 1);
      Gap(s.attempts, s.first, i);
    }
  }

  /** Whenever the task wakes up and whatever the handlers do meanwhile, pauses and scans included: at
      most 59 attempts in the first ten minutes of an outage (60 if it began with one under way that was
      made), 100 in the rest of the first hour, then one per two minutes. */
  lemma AttemptBounds(events: seq<Event>, seconds: nat)
    requires seconds >= 3600
    ensures
      var s := Run(BOOT, events);
      && Count(s.attempts, s.first, 0, 10 * MINUTE) <= (if CarryOf(events) == Made then 60 else 59)
      && Count(s.attempts, s.first, 10 * MINUTE, HOUR) <= 100
      && Count(s.attempts, s.first, HOUR, seconds * SECOND + 1) <= 1 + (seconds - 3600) / 120
  {
    var s := Run(BOOT, events);
    RunKeeps(events);
    CarriedIff(events);
    hide Run, Count, Spaced, CarryOf;
    var from := if Carried(s) then 0 else 10 * SECOND;
    if !Carried(s) {
      forall i | 0 <= i < |s.attempts| ensures s.attempts[i] - s.first >= 10 * SECOND {
        NoneBefore(s, i);
      }
    }
    TierTakes(s.attempts, s.first, 0, 10 * MINUTE, from, 10 * SECOND);
    TierTakes(s.attempts, s.first, 10 * MINUTE, HOUR, 10 * MINUTE, 30 * SECOND);
    TierTakes(s.attempts, s.first, HOUR, seconds * SECOND + 1, HOUR, 2 * MINUTE);
  }

  // ---------------------------------------------------------------- the bounds are met

  function Turns(n: nat): seq<Event> {
    if n == 0 then [] else Turns(n - 1) + [Look(10 * SECOND, false, true), Connect(0)]
  }

  /** Ready to try again, with nothing under way. */
  predicate Waiting(s: Wifi) { s.connecting && !s.paused && s.due == None }

  lemma OneTurn(s: Wifi)
    requires Waiting(s) && s.last == s.now && s.now >= s.first && s.now - s.first + 10 * SECOND < 10 * MINUTE
    ensures
      var at := s.now + 10 * SECOND;
      Step(Step(s, Look(10 * SECOND, false, true)), Connect(0)) ==
      s.(now := at, last := at, attempts := s.attempts + [at])
  {
  }

  lemma CountSnoc(attempts: seq<int>, at: int, first: int, lo: int, hi: int)
    requires lo <= at - first < hi
    ensures Count(attempts + [at], first, lo, hi) == Count(attempts, first, lo, hi) + 1
  {
    assert (attempts + [at])[..|attempts|] == attempts;
  }

  lemma {:induction false} TurnsAttempt(s: Wifi, n: nat)
    requires Waiting(s) && s.last == s.now && s.now >= s.first && s.now - s.first + n * 10 * SECOND < 10 * MINUTE
    ensures
      var t := Run(s, Turns(n));
      && Waiting(t) && t.first == s.first && t.last == t.now == s.now + n * 10 * SECOND
      && s.attempts <= t.attempts && (n > 0 && s.attempts == [] ==> t.attempts != [] && t.attempts[0] > t.first)
      && Count(t.attempts, s.first, 0, 10 * MINUTE) == Count(s.attempts, s.first, 0, 10 * MINUTE) + n
  {
    if n > 0 {
      TurnsAttempt(s, n - 1);
      var t := Run(s, Turns(n - 1));
      RunTwo(s, Turns(n - 1), Look(10 * SECOND, false, true), Connect(0));
      OneTurn(t);
      hide Step, Run, Count;
      CountSnoc(t.attempts, t.now + 10 * SECOND, s.first, 0, 10 * MINUTE);
    }
  }

  lemma RunTwo(s: Wifi, events: seq<Event>, e: Event, f: Event)
    ensures Run(s, events + [e, f]) == Step(Step(Run(s, events), e), f)
  {
    hide Step;
    var all := events + [e, f];
    assert all[..|all| - 1] == events + [e] && (events + [e])[..|events|] == events;
  }

  lemma {:induction false} RunAppend(s: Wifi, a: seq<Event>, b: seq<Event>)
    ensures Run(s, a + b) == Run(Run(s, a), b)
    decreases |b|
  {
    hide Step;
    if b == [] {
      assert a + b == a;
    } else {
      assert (a + b)[..|a + b| - 1] == a + b[..|b| - 1];
      RunAppend(s, a, b[..|b| - 1]);
    }
  }

  /** Both bounds for the first ten minutes are met: waking up every ten seconds makes 59 attempts, and
      60 when the connection came and went while the task was in its short delay. */
  lemma BoundsMet()
    ensures
      var s := Run(BOOT, [InitSta(1)] + Turns(59));
      CarryOf([InitSta(1)] + Turns(59)) != Made && Count(s.attempts, s.first, 0, 10 * MINUTE) == 59
    ensures
      var s := Run(BOOT, CARRIED + Turns(59));
      CarryOf(CARRIED + Turns(59)) == Made && Count(s.attempts, s.first, 0, 10 * MINUTE) == 60
  {
    CarriedIff([InitSta(1)] + Turns(59));
    CarriedIff(CARRIED + Turns(59));
    hide Turns, Run, Step, CarryOf;
    var begin := [InitSta(1)];
    RunOne(BOOT, InitSta(1));
    RunAppend(BOOT, begin, Turns(59));
    var s := AFTER_INIT;
    assert Step(BOOT, InitSta(1)) == s by { InitStep(); }
    TurnsAttempt(s, 59);
    CarriedStart();
    RunAppend(BOOT, CARRIED, Turns(59));
    TurnsAttempt(AFTER_CARRIED, 59);
    CountOne();
  }

  const AFTER_INIT := Wifi(true, false, 1, 1, 1, 0, None, [])
  const AFTER_CARRIED := Wifi(true, false, 10001, 10001, 10001, 0, None, [10001])
  const CARRIED := [InitSta(1)] + [Look(10 * SECOND, false, true), GotIp(0)] + [Disconnected(0), Connect(0)]

  lemma InitStep()
    ensures Step(BOOT, InitSta(1)) == AFTER_INIT
  {
  }

  lemma CountOne()
    ensures Count([10001], 10001, 0, 10 * MINUTE) == 1
  {
    assert [10001][..0] == [];
    CountSnoc([], 10001, 10001, 0, 10 * MINUTE);
    assert [] + [10001] == [10001];
  }

  const BETWEEN := Wifi(false, false, 0, 1, 10001, 0, Some(10001), [])

  lemma ComeAndGo()
    ensures Step(Step(AFTER_INIT, Look(10 * SECOND, false, true)), GotIp(0)) == BETWEEN
    ensures Step(Step(BETWEEN, Disconnected(0)), Connect(0)) == AFTER_CARRIED
  {
    assert Step(BETWEEN, Disconnected(0)) == Wifi(true, false, 10001, 10001, 10001, 0, Some(10001), []);
  }

  lemma CarriedStart()
    ensures Run(BOOT, CARRIED) == AFTER_CARRIED
  {
    InitStep();
    ComeAndGo();
    hide Run, Step;
    RunOne(BOOT, InitSta(1));
    RunTwo(BOOT, [InitSta(1)], Look(10 * SECOND, false, true), GotIp(0));
    RunTwo(BOOT, [InitSta(1)] + [Look(10 * SECOND, false, true), GotIp(0)], Disconnected(0), Connect(0));
  }

  // ---------------------------------------------------------------- and often enough

  datatype Wakeup = Wakeup(dt: nat, networkUp: bool)

  /** One turn of the task in an outage without pauses; `dt` is the time since it last looked. */
  function Turn(s: Wifi, w: Wakeup): Wifi {
    Step(Step(s, Look(w.dt, false, w.networkUp)), Connect(0))
  }

  function Outage(s: Wifi, wakeups: seq<Wakeup>): Wifi {
    if wakeups == [] then s else Turn(Outage(s, wakeups[..|wakeups| - 1]), wakeups[|wakeups| - 1])
  }

  lemma TurnTries(s: Wifi, w: Wakeup)
    requires Waiting(s) && s.now + w.dt - s.first < 10 * MINUTE
    ensures
      var now := s.now + w.dt;
      Turn(s, w) == if now - s.last >= 10 * SECOND then s.(now := now, last := now, attempts := s.attempts + [now])
                    else s.(now := now)
  {
  }

  lemma TurnClock(s: Wifi, w: Wakeup)
    ensures Turn(s, w).now == s.now + w.dt
  {
  }

  lemma OneMore(n: nat, period: nat)
    ensures (n + 1) * (10 * SECOND + period) == n * (10 * SECOND + period) + 10 * SECOND + period
  {
  }

  /** If the task looks at least every `period` milliseconds, an outage of less than ten minutes is
      shorter than `attempts * (10 s + period) + 10 s`: attempts are made, and keep being made. */
  lemma {:induction false} TriesOften(s: Wifi, wakeups: seq<Wakeup>, period: nat)
    requires Waiting(s) && s.attempts == [] && s.first == s.last == s.now
    requires forall i :: 0 <= i < |wakeups| ==> wakeups[i].dt <= period
    requires Outage(s, wakeups).now - s.first < 10 * MINUTE
    ensures
      var t := Outage(s, wakeups);
      && Waiting(t) && t.first == s.first
      && t.last - t.first <= |t.attempts| * (10 * SECOND + period)
      && t.now - t.last < 10 * SECOND
    decreases |wakeups|
  {
    if wakeups != [] {
      var w, front := wakeups[|wakeups| - 1], wakeups[..|wakeups| - 1];
      var t := Outage(s, front);
      hide Turn;
      TurnClock(t, w);
      TriesOften(s, front, period);
      TurnTries(t, w);
      OneMore(|t.attempts|, period);
    }
  }

  // ---------------------------------------------------------------- what each event means

  /** What the task makes of a look: an attempt is decided on exactly if a connection is wanted, nothing
      is paused or under way, it is not there, and ten seconds have passed since the last attempt in the
      first ten minutes of the outage, thirty in the first hour, two minutes later on; a connection found
      ends the outage; every 300th look with nothing to do that finds the connection gone though it was
      reported begins one. Otherwise a look changes nothing but the count of idle ones. */
  lemma LookMeans(s: Wifi, dt: nat, connected: bool, networkUp: bool)
    requires s.due == None
    ensures
      var t, now := Step(s, Look(dt, connected, networkUp)), s.now + dt;
      var outage, since := now - s.first, now - s.last;
      var retrying, idle := s.connecting && !s.paused, !s.connecting && !s.paused;
      && t.now == now && t.paused == s.paused
      && (t.due == Some(now) <==>
            && retrying && !connected
            && (if outage < 600000 then since >= 10000 else if outage < 3600000 then since >= 30000
                else since >= 120000))
      && (t.due.Some? ==> t == s.(now := now, due := Some(now)))
      && (retrying && connected ==> t == s.(now := now, connecting := false, first := 0, attempts := []))
      && (retrying && !connected && t.due == None ==> t == s.(now := now))
      && (s.paused ==> t == s.(now := now))
      && (idle && (s.idle + 1) % 300 == 0 && !connected && networkUp ==>
            t == Wifi(true, false, now, now, now, s.idle + 1, None, []))
      && (idle && !((s.idle + 1) % 300 == 0 && !connected && networkUp) ==> t == s.(now := now, idle := s.idle + 1))
  {
  }

  /** What the handlers write: a pause is ended by a resume, which restarts the interval if a connection
      is wanted, or by a disconnect, which starts the outage's clock if it does not run; */
  lemma HandlersMean(s: Wifi, dt: nat)
    ensures
      var u := s.(now := s.now + dt);
      && Step(s, Pause(dt)) == u.(paused := true)
      && Step(s, Resume(dt)) == u.(paused := false, last := if s.paused && s.connecting then u.now else s.last)
      && (s.first != 0 ==> Step(s, Disconnected(dt)) == u.(connecting := true, paused := false))
      && (s.first == 0 ==>
            Step(s, Disconnected(dt)) == Wifi(true, false, u.now, u.now, u.now, s.idle, s.due, []))
  {
  }

  /** an address ends the outage, initialising the station begins one, its start restarts the interval, a
      timeout gives the connection up; */
  lemma StartsMean(s: Wifi, dt: nat)
    ensures
      var u := s.(now := s.now + dt);
      && Step(s, GotIp(dt)) == u.(connecting := false, first := 0, attempts := [])
      && Step(s, StaStart(dt)) == u.(connecting := true, last := u.now)
      && Step(s, InitSta(dt)) == Wifi(true, s.paused, u.now, u.now, u.now, s.idle, s.due, [])
      && Step(s, InitTimeout(dt)) == u.(connecting := false)
  {
  }

  /** an attempt decided on is made, with the reading that decided on it, unless there is a pause by then
      or the task is deleted. */
  lemma ConnectMeans(s: Wifi, dt: nat)
    ensures
      var u := s.(now := s.now + dt, due := None);
      && Step(s, Cleanup(dt)) == u
      && (s.due == None || s.paused ==> Step(s, Connect(dt)) == u)
      && (s.due.Some? && !s.paused ==>
            Step(s, Connect(dt)) == u.(last := s.due.value, attempts := s.attempts + [s.due.value]))
  {
  }

  predicate Pausing(e: Event) { e.Pause? }

  predicate Unpausing(e: Event) { e.Resume? || e.Disconnected? }

  /** Reconnecting is paused exactly if some pause was followed by neither a resume nor a disconnect. */
  lemma {:induction false} PausedIff(events: seq<Event>)
    ensures Run(BOOT, events).paused <==> Since(events, Pausing, Unpausing)
    decreases |events|
  {
    if events != [] {
      var front, e := events[..|events| - 1], events[|events| - 1];
      PausedIff(front);
      PausedStep(Run(BOOT, front), e);
      hide Step, Since;
      SinceSnoc(front, e, Pausing, Unpausing);
      assert events == front + [e];
    }
  }

  lemma PausedStep(s: Wifi, e: Event)
    ensures Step(s, e).paused <==> e.Pause? || (s.paused && !e.Resume? && !e.Disconnected?)
  {
  }

  /** While reconnecting is paused no attempt is made. */
  lemma {:induction false} NoneWhilePaused(s: Wifi, events: seq<Event>)
    requires s.paused && forall i :: 0 <= i < |events| ==> !events[i].Resume? && !events[i].Disconnected?
    ensures Run(s, events).paused && forall a :: a in Run(s, events).attempts ==> a in s.attempts
    decreases |events|
  {
    if events != [] {
      NoneWhilePaused(s, events[..|events| - 1]);
    }
  }

  /** Every attempt was made before, or is decided on ten seconds or more after time r. */
  ghost predicate NotBefore(s: Wifi, r: int, old': seq<int>) {
    && s.last >= r && s.now >= r && (s.due.Some? ==> s.due.value >= r + 10 * SECOND)
    && forall a :: a in s.attempts ==> a in old' || a >= r + 10 * SECOND
  }

  lemma {:induction false} StaysNotBefore(s: Wifi, events: seq<Event>, r: int, old': seq<int>)
    requires NotBefore(s, r, old')
    ensures NotBefore(Run(s, events), r, old')
    decreases |events|
  {
    if events != [] {
      StaysNotBefore(s, events[..|events| - 1], r, old');
    }
  }

  /** A pause that ends while a connection is wanted starts the interval afresh: whatever happens then,
      no attempt is decided on in the next ten seconds. */
  lemma RestAfterResume(s: Wifi, dt: nat, events: seq<Event>)
    requires s.paused && s.connecting && s.due == None
    ensures forall a :: a in Run(Step(s, Resume(dt)), events).attempts ==>
      a in s.attempts || a >= s.now + dt + 10 * SECOND
  {
    var t := Step(s, Resume(dt));
    StaysNotBefore(t, events, t.now, s.attempts);
    hide Run;
  }

  // ---------------------------------------------------------------- the code

  /** The static variables of the Wi-Fi module and the local ones of the retry task. */
  class Station {
    var sWifiConnecting: bool
    var sWifiReconnectPaused: bool
    var sFirstDisconnectTime: int
    var sLastRetryTime: int
    var clock: int
    var connectedLogCounter: nat
    var due: Option<int>
    var attempts: seq<int>

    function View(): Wifi
      reads this
    {
      Wifi(sWifiConnecting, sWifiReconnectPaused, sFirstDisconnectTime, sLastRetryTime, clock, connectedLogCounter,
           due, attempts)
    }

    constructor ()
      ensures View() == BOOT
    {
      sWifiConnecting, sWifiReconnectPaused, sFirstDisconnectTime, sLastRetryTime := false, false, 0, 0;
      clock, connectedLogCounter, due, attempts := 0, 0, None, [];
    }

    /** `event_handler`, `WIFI_EVENT_STA_DISCONNECTED` */
    method OnDisconnected(dt: nat)
      modifies this
      ensures View() == Step(old(View()), Disconnected(dt))
    {
      clock := clock + dt;
      sWifiReconnectPaused := false;
      if sFirstDisconnectTime == 0 {
        sFirstDisconnectTime := clock;
        sLastRetryTime := sFirstDisconnectTime;
        sWifiConnecting := true;
        attempts := [];
      } else {
        sWifiConnecting := true;
      }
    }

    /** `resume_wifi_reconnect` */
    method ResumeReconnect(dt: nat)
      modifies this
      ensures View() == Step(old(View()), Resume(dt))
    {
      clock := clock + dt;
      if sWifiReconnectPaused {
        sWifiReconnectPaused := false;
        if sWifiConnecting {
          sLastRetryTime := clock;
        }
      }
    }

    method Interfere(script: seq<Event>)
      modifies this
      ensures View() == Run(old(View()), script)
    {
      hide Run;
      var t := Run(View(), script);
      sWifiConnecting, sWifiReconnectPaused := t.connecting, t.paused;
      sFirstDisconnectTime, sLastRetryTime := t.first, t.last;
      clock, connectedLogCounter, due, attempts := t.now, t.idle, t.due, t.attempts;
    }

    /** The top half of one turn of `wifi_retry_task`, up to the short delay. */
    method LookAround(dt: nat, connected: bool, networkUp: bool)
      requires due == None
      modifies this
      ensures View() == Step(old(View()), Look(dt, connected, networkUp))
    {
      clock := clock + dt;
      if sWifiConnecting && !sWifiReconnectPaused {
        var currentTime := clock;
        var timeSinceFirstDisconnect := currentTime - sFirstDisconnectTime;
        var timeSinceLastRetry := currentTime - sLastRetryTime;
        if connected {
          sWifiConnecting := false;
          sFirstDisconnectTime := 0;
          attempts := [];
        } else if timeSinceFirstDisconnect < 10 * MINUTE {
          if timeSinceLastRetry >= 10 * SECOND {
            due := Some(currentTime);
          }
        } else if timeSinceFirstDisconnect < HOUR {
          if timeSinceLastRetry >= 30 * SECOND {
            due := Some(currentTime);
          }
        } else {
          if timeSinceLastRetry >= 2 * MINUTE {
            due := Some(currentTime);
          }
        }
      } else if sWifiReconnectPaused {
      } else {
        connectedLogCounter := connectedLogCounter + 1;
        if connectedLogCounter % 300 == 0 && !connected && networkUp {
          sWifiConnecting := true;
          sFirstDisconnectTime := clock;
          sLastRetryTime := sFirstDisconnectTime;
          attempts := [];
        }
      }
    }

    /** After the delay: try, unless reconnecting has been paused meanwhile. */
    method TryConnect(dt: nat)
      modifies this
      ensures View() == Step(old(View()), Connect(dt))
    {
      clock := clock + dt;
      if due.Some? {
        if !sWifiReconnectPaused {
          attempts := attempts + [due.value];
          sLastRetryTime := due.value;
        }
        due := None;
      }
    }

    /** One turn of `wifi_retry_task`; `during` happens in its short delay, `after` until the next. */
    method RetryTurn(look: Event, during: seq<Event>, delay: nat, after: seq<Event>)
      requires look.Look? && due == None
      modifies this
      ensures View() == Run(old(View()), [look] + during + [Connect(delay)] + after)
    {
      TurnUnfolds(View(), look, during, Connect(delay), after);
      hide Run, Step;
      LookAround(look.dt, look.connected, look.networkUp);
      Interfere(during);
      TryConnect(delay);
      Interfere(after);
    }
  }

  lemma TurnUnfolds(s: Wifi, look: Event, during: seq<Event>, connect: Event, after: seq<Event>)
    ensures Run(s, [look] + during + [connect] + after) ==
            Run(Step(Run(Step(s, look), during), connect), after)
  {
    hide Step, Run;
    RunAppend(s, [look] + during + [connect], after);
    RunAppend(s, [look] + during, [connect]);
    RunAppend(s, [look], during);
    RunOne(s, look);
    RunOne(Run(s, [look] + during), connect);
  }

  lemma RunOne(s: Wifi, e: Event)
    ensures Run(s, [e]) == Step(s, e)
  {
    hide Step;
    assert [e][..0] == [];
  }
}
