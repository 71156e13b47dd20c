/** The network LEDs, set by a timer callback every 100 ms from three flags of the network manager. The
    callback reads each flag several times and without a lock; every read is an argument of its own. */
module Led {
  datatype Flags = Flags(connected: bool, intranet: bool, wifi: bool)

  /** What one callback reads: each flag when it is compared with the last value, when it is stored (if
      it differs), when it is used, and the interface once more when its LED is set. */
  datatype Reads = Reads(seen: Flags, kept: Flags, used: Flags, lit: bool)

  const NEVER := Flags(false, false, false)

  // ---------------------------------------------------------------- what the LEDs show

  /** No flag changed in the middle of the callback. */
  predicate Steady(r: Reads) { r.seen == r.kept == r.used && r.lit == r.used.wifi }

  /** For how many callbacks, the newest included, the flags have been what they are; 0 if some flag
      changed in the middle of a callback and none between two callbacks since. */
  function Streak(ticks: seq<Reads>): nat {
    if ticks == [] || !Steady(ticks[|ticks| - 1]) then 0
    else
      var front, r := ticks[..|ticks| - 1], ticks[|ticks| - 1];
      if front == [] then 1
      else if Steady(front[|front| - 1]) && front[|front| - 1].used != r.used then 1
      else if Streak(front) > 0 then Streak(front) + 1
      else 0
  }

  /** On without a break outside the intranet; inside it two short flashes every two seconds. */
  predicate Lit(f: Flags, t: nat) { f.connected && (f.intranet ==> t % 20 == 0 || t % 20 == 2) }

  /** The LED of the active interface is as it should be after so many callbacks, the other one off. */
  ghost predicate Shows(f: Flags, streak: nat, wifiOn: bool, lanOn: bool) {
    && streak > 0
    && (if f.wifi then wifiOn else lanOn) == Lit(f, streak - 1)
    && !(if f.wifi then lanOn else wifiOn)
  }

  /** The last flags stored, where the flash cycle of 20 callbacks stands, and the two LEDs. */
  datatype Panel = Panel(last: Flags, phase: int, wifiOn: bool, lanOn: bool)

  function Either(b: bool, x: bool, y: bool): bool { if b then x else y }

  /** A flag is stored if it is seen to differ. */
  function Stored(last: Flags, r: Reads): Flags {
    Flags(Either(last.connected != r.seen.connected, r.kept.connected, last.connected),
          Either(last.intranet != r.seen.intranet, r.kept.intranet, last.intranet),
          Either(last.wifi != r.seen.wifi, r.kept.wifi, last.wifi))
  }

  /** One that changes only between the comparison and the store is not, and is noticed next time. */
  lemma StoredMeans(last: Flags, r: Reads)
    ensures
      var now := Stored(last, r);
      && now.connected == (if r.seen.connected == last.connected then last.connected else r.kept.connected)
      && now.intranet == (if r.seen.intranet == last.intranet then last.intranet else r.kept.intranet)
      && now.wifi == (if r.seen.wifi == last.wifi then last.wifi else r.kept.wifi)
  {
  }

  /** Where the cycle stands once changes have been noticed. */
  function Noticed(p: Panel, r: Reads): int { if r.seen != p.last then 0 else p.phase }

  /** Whether the callback is about to light an LED. */
  predicate Lights(p: Panel, r: Reads) {
    r.used.connected && (r.used.intranet ==> Noticed(p, r) == 0 || Noticed(p, r) == 2)
  }

  function Next(p: Panel, r: Reads): Panel {
    Panel(
      Stored(p.last, r),
      if r.used.connected && r.used.intranet then (Noticed(p, r) + 1) % 20 else 0,
      if r.lit then Lights(p, r) else r.used.wifi && p.wifiOn,
      if r.lit then !r.used.wifi && p.lanOn else Lights(p, r))
  }

  function Run(ticks: seq<Reads>, wifiOn: bool, lanOn: bool): Panel {
    if ticks == [] then Panel(NEVER, 0, wifiOn, lanOn)
    else Next(Run(ticks[..|ticks| - 1], wifiOn, lanOn), ticks[|ticks| - 1])
  }

  // ---------------------------------------------------------------- what every run shows

  lemma {:induction false} InStep(ticks: seq<Reads>, wifiOn: bool, lanOn: bool)
    ensures
      var p := Run(ticks, wifiOn, lanOn);
      && (ticks != [] && Steady(ticks[|ticks| - 1]) ==> p.last == ticks[|ticks| - 1].used)
      && (Streak(ticks) > 0 ==>
            && p.phase == (if p.last.connected && p.last.intranet then Streak(ticks) % 20 else 0)
            && Shows(p.last, Streak(ticks), p.wifiOn, p.lanOn))
    decreases |ticks|
  {
    if ticks != [] {
      var front, r := ticks[..|ticks| - 1], ticks[|ticks| - 1];
      InStep(front, wifiOn, lanOn);
      if Streak(ticks) > 0 {
        NextPhase(Streak(ticks));
        StreakNext(ticks);
        hide Streak;
        StepInStep(Run(front, wifiOn, lanOn), r, Streak(front), Streak(ticks));
      }
    }
  }

  lemma NextPhase(streak: nat)
    requires streak > 0
    ensures streak % 20 == ((streak - 1) % 20 + 1) % 20
  {
  }

  lemma StreakNext(ticks: seq<Reads>)
    requires Streak(ticks) > 0
    ensures
      var front, r := ticks[..|ticks| - 1], ticks[|ticks| - 1];
      && Steady(r)
      && (front == [] ==> Streak(ticks) == 1)
      && (front != [] ==> Steady(front[|front| - 1]))
      && (front != [] && front[|front| - 1].used != r.used ==> Streak(ticks) == 1)
      && (front != [] && front[|front| - 1].used == r.used ==> Streak(front) > 0 && Streak(ticks) == Streak(front) + 1)
  {
    hide Steady;
  }

  lemma StepInStep(p: Panel, r: Reads, before: nat, streak: nat)
    requires Steady(r) && streak > 0
    requires streak % 20 == ((streak - 1) % 20 + 1) % 20
    requires p.last != r.used ==> streak == 1
    requires p.last == r.used ==> streak == before + 1
    requires p.last == r.used ==> p.phase == if p.last.connected && p.last.intranet then before % 20 else 0
    ensures
      var q := Next(p, r);
      && q.last == r.used
      && q.phase == (if q.last.connected && q.last.intranet then streak % 20 else 0)
      && Shows(q.last, streak, q.wifiOn, q.lanOn)
  {
  }

  /** While the flags keep still during callbacks, at every callback of any run the LED of the active
      interface is on as flags and time since their last change say, and the other one is off. */
  lemma SteadyShows(ticks: seq<Reads>, wifiOn: bool, lanOn: bool)
    requires Streak(ticks) > 0
    ensures
      var p := Run(ticks, wifiOn, lanOn);
      Shows(ticks[|ticks| - 1].used, Streak(ticks), p.wifiOn, p.lanOn)
  {
    InStep(ticks, wifiOn, lanOn);
    StreakNext(ticks);
  }

  /** Both LEDs are on after a callback exactly if the interface changes between its last two reads, the
      LED that is not switched off is on before it, and the flags and the cycle call for light. */
  lemma BothIff(ticks: seq<Reads>, r: Reads, wifiOn: bool, lanOn: bool)
    ensures
      var p, q := Run(ticks, wifiOn, lanOn), Run(ticks + [r], wifiOn, lanOn);
      q.wifiOn && q.lanOn <==> r.used.wifi != r.lit && (if r.used.wifi then p.wifiOn else p.lanOn) && Lights(p, r)
  {
    assert (ticks + [r])[..|ticks|] == ticks;
    hide Lights, Stored, Noticed;
  }

  /** Which happens: connected by Wi-Fi, and then by cable from one read to the next. */
  lemma BothHappens()
    ensures
      var wifi := Flags(true, false, true);
      var p := Run([Reads(wifi, wifi, wifi, true)] + [Reads(wifi, wifi, wifi, false)], false, false);
      p.wifiOn && p.lanOn
  {
    var wifi := Flags(true, false, true);
    var r := Reads(wifi, wifi, wifi, true);
    assert [r][..0] == [];
    BothIff([r], Reads(wifi, wifi, wifi, false), false, false);
  }

  /** Where the flash cycle stands, from the two counters. */
  function Phase(step: int, wait: int): int { if step < 4 then step else 4 + wait }

  ghost predicate CountersOk(step: int, wait: int) {
    0 <= step <= 4 && 0 <= wait < 16 && (step < 4 ==> wait == 0)
  }

  // ---------------------------------------------------------------- the code

  class Leds {
    var intranetFlashStep: int
    var intranetWaitCounter: int
    var lastIntranetMode: bool
    var lastNetworkConnected: bool
    var lastWifiActive: bool
    var wifiOn: bool
    var lanOn: bool

    ghost function Last(): Flags
      reads this
    {
      Flags(lastNetworkConnected, lastIntranetMode, lastWifiActive)
    }

    ghost function View(): Panel
      reads this
    {
      Panel(Last(), Phase(intranetFlashStep, intranetWaitCounter), wifiOn, lanOn)
    }

    ghost predicate Valid()
      reads this
    {
      CountersOk(intranetFlashStep, intranetWaitCounter)
    }

    constructor (wifiOn: bool, lanOn: bool)
      ensures Valid() && View() == Panel(NEVER, 0, wifiOn, lanOn)
    {
      intranetFlashStep, intranetWaitCounter := 0, 0;
      lastIntranetMode, lastNetworkConnected, lastWifiActive := false, false, false;
      this.wifiOn, this.lanOn := wifiOn, lanOn;
    }

    method SetLed(wifi: bool, on: bool)
      modifies this`wifiOn, this`lanOn
      ensures if wifi then wifiOn == on && lanOn == old(lanOn) else lanOn == on && wifiOn == old(wifiOn)
    {
      if wifi {
        wifiOn := on;
      } else {
        lanOn := on;
      }
    }

    /** The counters start over whenever one of the flags is seen to have changed. */
    method NoticeChanges(r: Reads)
      requires Valid()
      modifies this`intranetFlashStep, this`intranetWaitCounter, this`lastIntranetMode, this`lastNetworkConnected,
               this`lastWifiActive
      ensures Valid() && Last() == Stored(old(Last()), r)
      ensures Phase(intranetFlashStep, intranetWaitCounter) ==
              if r.seen != old(Last()) then 0 else old(Phase(intranetFlashStep, intranetWaitCounter))
    {
      hide Either;
      NoticeConnected(r.seen.connected, r.kept.connected);
      NoticeIntranet(r.seen.intranet, r.kept.intranet);
      NoticeWifi(r.seen.wifi, r.kept.wifi);
    }

    method NoticeConnected(seen: bool, kept: bool)
      requires Valid()
      modifies this`intranetFlashStep, this`intranetWaitCounter, this`lastNetworkConnected
      ensures Valid()
      ensures lastNetworkConnected == Either(old(lastNetworkConnected) != seen, kept, old(lastNetworkConnected))
      ensures Phase(intranetFlashStep, intranetWaitCounter) ==
              if seen != old(lastNetworkConnected) then 0 else old(Phase(intranetFlashStep, intranetWaitCounter))
    {
      if lastNetworkConnected != seen {
        lastNetworkConnected := kept;
        intranetFlashStep, intranetWaitCounter := 0, 0;
      }
    }

    method NoticeIntranet(seen: bool, kept: bool)
      requires Valid()
      modifies this`intranetFlashStep, this`intranetWaitCounter, this`lastIntranetMode
      ensures Valid() && lastIntranetMode == Either(old(lastIntranetMode) != seen, kept, old(lastIntranetMode))
      ensures Phase(intranetFlashStep, intranetWaitCounter) ==
              if seen != old(lastIntranetMode) then 0 else old(Phase(intranetFlashStep, intranetWaitCounter))
    {
      if lastIntranetMode != seen {
        lastIntranetMode := kept;
        intranetFlashStep, intranetWaitCounter := 0, 0;
      }
    }

    method NoticeWifi(seen: bool, kept: bool)
      requires Valid()
      modifies this`intranetFlashStep, this`intranetWaitCounter, this`lastWifiActive
      ensures Valid() && lastWifiActive == Either(old(lastWifiActive) != seen, kept, old(lastWifiActive))
      ensures Phase(intranetFlashStep, intranetWaitCounter) ==
              if seen != old(lastWifiActive) then 0 else old(Phase(intranetFlashStep, intranetWaitCounter))
    {
      if lastWifiActive != seen {
        lastWifiActive := kept;
        intranetFlashStep, intranetWaitCounter := 0, 0;
      }
    }

    /** One step of the flash cycle. No step other than 0 to 4 is ever reached. */
    method Flash(wifi: bool)
      requires CountersOk(intranetFlashStep, intranetWaitCounter)
      modifies this`intranetFlashStep, this`intranetWaitCounter, this`wifiOn, this`lanOn
      ensures CountersOk(intranetFlashStep, intranetWaitCounter)
      ensures
        var phase := old(Phase(intranetFlashStep, intranetWaitCounter));
        && Phase(intranetFlashStep, intranetWaitCounter) == (phase + 1) % 20
        && (if wifi then wifiOn else lanOn) == (phase == 0 || phase == 2)
      ensures if wifi then lanOn == old(lanOn) else wifiOn == old(wifiOn)
    {
      if intranetFlashStep == 0 {
        SetLed(wifi, true);
        intranetFlashStep := 1;
        intranetWaitCounter := 0;
      } else if intranetFlashStep == 1 {
        SetLed(wifi, false);
        intranetFlashStep := 2;
      } else if intranetFlashStep == 2 {
        SetLed(wifi, true);
        intranetFlashStep := 3;
      } else if intranetFlashStep == 3 {
        SetLed(wifi, false);
        intranetFlashStep := 4;
        intranetWaitCounter := 0;
      } else {
        assert intranetFlashStep == 4;
        SetLed(wifi, false);
        intranetWaitCounter := intranetWaitCounter + 1;
        if intranetWaitCounter >= 16 {
          intranetFlashStep := 0;
          intranetWaitCounter := 0;
        }
      }
    }

    /** `time_sync_led_callback` */
    method TimeSyncLedCallback(r: Reads)
      requires Valid()
      modifies this
      ensures Valid() && View() == Next(old(View()), r)
    {
      hide Stored;
      NoticeChanges(r);
      LightLed(r);
    }

    /** The second half of the callback: one LED off, the other as connection and cycle say. */
    method LightLed(r: Reads)
      requires CountersOk(intranetFlashStep, intranetWaitCounter)
      modifies this`intranetFlashStep, this`intranetWaitCounter, this`wifiOn, this`lanOn
      ensures CountersOk(intranetFlashStep, intranetWaitCounter)
      ensures
        var phase := old(Phase(intranetFlashStep, intranetWaitCounter));
        && Phase(intranetFlashStep, intranetWaitCounter) ==
           (if r.used.connected && r.used.intranet then (phase + 1) % 20 else 0)
        && (if r.lit then wifiOn else lanOn) ==
           (r.used.connected && (r.used.intranet ==> phase == 0 || phase == 2))
      ensures (if r.lit then lanOn else wifiOn) ==
              (r.lit != r.used.wifi && if r.lit then old(lanOn) else old(wifiOn))
    {
      if r.used.wifi {
        lanOn := false;
      } else {
        wifiOn := false;
      }
      if r.used.connected {
        if r.used.intranet {
          Flash(r.lit);
        } else {
          SetLed(r.lit, true);
          intranetFlashStep, intranetWaitCounter := 0, 0;
        }
      } else {
        SetLed(r.lit, false);
        intranetFlashStep, intranetWaitCounter := 0, 0;
      }
    }
  }

  /** The callback over any sequence of reads: the panel before the first and after each of them. */
  method RunLeds(ticks: seq<Reads>, wifiOn: bool, lanOn: bool) returns (wifi: seq<bool>, lan: seq<bool>)
    ensures |wifi| == |lan| == |ticks| + 1
    ensures forall k :: 0 <= k <= |ticks| ==>
      var p := Run(ticks[..k], wifiOn, lanOn); wifi[k] == p.wifiOn && lan[k] == p.lanOn
  {
    var leds := new Leds(wifiOn, lanOn);
    wifi, lan := [wifiOn], [lanOn];
    for n := 0 to |ticks|
      invariant leds.Valid() && fresh(leds) && leds.View() == Run(ticks[..n], wifiOn, lanOn)
      invariant |wifi| == |lan| == n + 1
      invariant forall k :: 0 <= k <= n ==>
        var p := Run(ticks[..k], wifiOn, lanOn); wifi[k] == p.wifiOn && lan[k] == p.lanOn
    {
      hide Next;
      assert ticks[..n + 1][..n] == ticks[..n];
      leds.TimeSyncLedCallback(ticks[n]);
      wifi, lan := wifi + [leds.wifiOn], lan + [leds.lanOn];
    }
  }
}
