/** The network manager's event loop: a status record, the snapshot / slow check / re-lock /
    discard-if-changed evaluation, and the protocol manager it drives. Pings, name resolution, NVS
    and the access-point manager answer through `Env`; what other tasks do to the status while the
    lock is away during a check is an argument too. */
module NetworkManager {
  import opened Common
  import opened ProtocolManager

  datatype Interface = NoIf | Wifi | Eth

  datatype Status = Status(
    activeIf: Interface, netState: NetState, apOn: bool,
    wifiConnected: bool, wifiGotIp: bool, ethGotIp: bool, ethStaticIpValid: bool,
    gatewayPingOk: bool, internetPingOk: bool,
    ip: string, netmask: string, gateway: string)

  /** The global flags older code reads. */
  datatype Legacy = Legacy(connected: bool, intranet: bool, wifiActive: bool)

  datatype Event =
    | Boot
    | WifiConnected | WifiDisconnected | WifiGotIp(ip: string, netmask: string, gateway: string)
    | EthLinkUp | EthLinkDown | EthGotIp(ip: string, netmask: string, gateway: string)
    | EthStaticIpReady(ip: string, netmask: string, gateway: string)
    | ApStarted | ApStopped | PeriodicCheck

  datatype Env = Env(
    configuredWifi: bool, apOn: bool, gatewayReplies: string -> bool, internetUp: bool, config: Config)

  datatype Sys = Sys(status: Status, legacy: Legacy, protocols: Protocols)

  const NO_IP := "---"
  const POWER_ON := Sys(
    Status(NoIf, Down, false, false, false, false, false, false, false, "", "", ""),
    Legacy(false, false, false), Protocols(OFF, []))

  // ---------------------------------------------------------------- specification

  function LegacyOf(s: Status): Legacy {
    Legacy(s.netState != Down, s.netState == Local, s.activeIf == Wifi)
  }

  /** `sync_legacy_flags` */
  function Synced(x: Sys, env: Env): Sys {
    x.(legacy := LegacyOf(x.status), status := x.status.(apOn := env.apOn))
  }

  lemma SyncedParts(x: Sys, env: Env)
    ensures Synced(x, env).protocols == x.protocols
  {
  }

  /** The access-point manager is asked whether it is on, whatever an event said. */
  lemma SyncedAsks(x: Sys, on: bool, env: Env)
    ensures Synced(x.(status := x.status.(apOn := on)), env) == Synced(x, env)
  {
  }

  function WithIp(s: Status, ip: string, netmask: string, gateway: string): Status {
    s.(ip := ip, netmask := netmask, gateway := gateway)
  }

  /** `ping_ip_string` */
  predicate Ping(ip: string, env: Env) {
    ip != "" && ip != NO_IP && ip != "0.0.0.0" && env.gatewayReplies(ip)
  }

  datatype Verdict = Verdict(state: NetState, gatewayOk: bool, internetOk: bool)

  function EvaluateWifi(s: Status, env: Env): Verdict {
    if !s.wifiConnected || !s.wifiGotIp then Verdict(Down, false, false)
    else if !Ping(s.gateway, env) then Verdict(Down, false, false)
    else Verdict(if env.internetUp then External else Local, true, env.internetUp)
  }

  function EvaluateEth(s: Status, env: Env): Verdict {
    if !s.ethGotIp && !s.ethStaticIpValid then Verdict(Down, false, false)
    else Verdict(if env.internetUp then External else Local, false, env.internetUp)
  }

  function VerdictOn(s: Status, env: Env): Verdict {
    match s.activeIf
    case Wifi => EvaluateWifi(s, env)
    case Eth => EvaluateEth(s, env)
    case NoIf => Verdict(Down, false, false)
  }

  /** `status_matches_snapshot_locked` */
  predicate SameBase(s: Status, t: Status) {
    && s.activeIf == t.activeIf && s.wifiConnected == t.wifiConnected && s.wifiGotIp == t.wifiGotIp
    && s.ethGotIp == t.ethGotIp && s.ethStaticIpValid == t.ethStaticIpValid
    && s.ip == t.ip && s.gateway == t.gateway
  }

  /** The result of a check is written down and the protocols are told. */
  function Apply(x: Sys, v: Verdict, env: Env): Sys {
    var s := x.status.(gatewayPingOk := v.gatewayOk, internetPingOk := v.internetOk, netState := v.state);
    var y := Synced(x.(status := s), env);
    if x.status.netState != v.state || v.state != Down then
      y.(protocols := OnNetworkState(x.protocols, x.status.netState, v.state, env.config))
    else y
  }

  /** `evaluate_current_state`, when the status has become `now` by the time the lock is retaken. */
  function Evaluate(x: Sys, now: Status, env: Env): Sys {
    if !SameBase(now, x.status) then x.(status := now)
    else Apply(x.(status := now), VerdictOn(x.status, env), env)
  }

  function GoDown(x: Sys, env: Env): Sys {
    var y := Synced(x.(status := x.status.(netState := Down)), env);
    if x.status.netState == Down then y
    else y.(protocols := OnNetworkState(x.protocols, x.status.netState, Down, env.config))
  }

  predicate Drops(s: Status, e: Event) { e.WifiDisconnected? || (e.EthLinkDown? && !s.ethStaticIpValid) }

  predicate NeedsCheck(s: Status, e: Event) {
    e.WifiGotIp? || e.EthGotIp? || e.EthStaticIpReady? || e.PeriodicCheck? || (e.EthLinkDown? && s.ethStaticIpValid)
  }

  /** What `handle_event` writes to the status before it sets the network state or has it checked. */
  function Written(s: Status, e: Event, env: Env): Status {
    match e
    case Boot =>
      WithIp(s.(activeIf := if env.configuredWifi then Wifi else Eth, netState := Down), NO_IP, NO_IP, NO_IP)
    case WifiConnected => s.(activeIf := Wifi, wifiConnected := true)
    case WifiDisconnected =>
      var t := s.(activeIf := Wifi, wifiConnected := false, wifiGotIp := false,
                  gatewayPingOk := false, internetPingOk := false);
      WithIp(t, NO_IP, NO_IP, NO_IP)
    case WifiGotIp(ip, netmask, gateway) =>
      WithIp(s.(activeIf := Wifi, wifiConnected := true, wifiGotIp := true), ip, netmask, gateway)
    case EthLinkUp => s.(activeIf := Eth)
    case EthLinkDown =>
      var t := s.(activeIf := Eth, ethGotIp := false, internetPingOk := false);
      if s.ethStaticIpValid then t else WithIp(t, NO_IP, NO_IP, NO_IP)
    case EthGotIp(ip, netmask, gateway) => WithIp(s.(activeIf := Eth, ethGotIp := true), ip, netmask, gateway)
    case EthStaticIpReady(ip, netmask, gateway) =>
      WithIp(s.(activeIf := Eth, ethStaticIpValid := true), ip, netmask, gateway)
    case ApStarted => s
    case ApStopped => s
    case PeriodicCheck => s
  }

  /** The critical section of `handle_event` with the protocol update that may follow it. */
  function Record(x: Sys, e: Event, env: Env): Sys {
    var y := x.(status := Written(x.status, e, env));
    if Drops(x.status, e) then GoDown(y, env) else if NeedsCheck(x.status, e) then y else Synced(y, env)
  }

  /** One event, when nobody else writes the status during the check. */
  function Handle(x: Sys, e: Event, env: Env): Sys {
    var y := Record(x, e, env);
    if NeedsCheck(x.status, e) then Evaluate(y, y.status, env) else y
  }

  // ---------------------------------------------------------------- the firmware object

  class Manager {
    var status: Status
    var legacy: Legacy
    const protocols: ProtocolManager.Manager

    ghost function View(): Sys
      reads this, protocols
    {
      Sys(status, legacy, protocols.View())
    }

    constructor ()
      ensures View() == POWER_ON && fresh(protocols)
    {
      status, legacy := POWER_ON.status, POWER_ON.legacy;
      protocols := new ProtocolManager.Manager();
    }

    method SyncLegacyFlags(env: Env)
      modifies this
      ensures View() == Synced(old(View()), env)
    {
      legacy := Legacy(status.netState != Down, status.netState == Local, status.activeIf == Wifi);
      status := status.(apOn := env.apOn);
    }

    method SetNetworkState(newState: NetState, env: Env) returns (changed: bool, oldState: NetState)
      modifies this
      ensures View() == Synced(old(View()).(status := old(status).(netState := newState)), env)
      ensures oldState == old(status).netState && changed == (oldState != newState)
    {
      oldState := status.netState;
      if oldState == newState {
        SyncLegacyFlags(env);
        return false, oldState;
      }
      status := status.(netState := newState);
      SyncLegacyFlags(env);
      changed := true;
    }

    /** The slow part of `evaluate_current_state`, on the snapshot and without the lock. */
    method Check(snapshot: Status, env: Env) returns (v: Verdict)
      ensures v == VerdictOn(snapshot, env)
    {
      v := Verdict(Down, false, false);
      if snapshot.activeIf == Wifi {
        v := EvaluateWifi(snapshot, env);
      } else if snapshot.activeIf == Eth {
        v := EvaluateEth(snapshot, env);
      }
    }

    method ApplyVerdict(v: Verdict, env: Env)
      modifies this, protocols
      ensures View() == Apply(old(View()), v, env)
    {
      hide OnNetworkState, Synced;
      status := status.(gatewayPingOk := v.gatewayOk, internetPingOk := v.internetOk);
      SyncedParts(View().(status := status.(netState := v.state)), env);
      var stateChanged, oldState := SetNetworkState(v.state, env);
      if stateChanged || v.state != Down {
        protocols.HandleNetworkState(oldState, v.state, env.config);
      }
    }

    /** `evaluate_current_state`; `meanwhile` is what the status becomes while the lock is away. */
    method EvaluateCurrentState(env: Env, meanwhile: Status)
      modifies this, protocols
      ensures View() == Evaluate(old(View()), meanwhile, env)
    {
      hide Apply, VerdictOn, SameBase;
      var snapshot := status;
      var v := Check(snapshot, env);
      status := meanwhile;
      if !SameBase(status, snapshot) {
        return;
      }
      ApplyVerdict(v, env);
    }

    /** The critical section of `handle_event`. */
    method Update(e: Event, env: Env) returns (stateChanged: bool, oldState: NetState, shouldEvaluate: bool)
      modifies this
      ensures
        var y := old(View()).(status := Written(old(status), e, env));
        View() == if Drops(old(status), e) then Synced(y.(status := y.status.(netState := Down)), env)
                  else if NeedsCheck(old(status), e) then y
                  else Synced(y, env)
      ensures shouldEvaluate == NeedsCheck(old(status), e)
      ensures stateChanged == (Drops(old(status), e) && old(status).netState != Down)
      ensures stateChanged ==> oldState == old(status).netState
    {
      hide OnNetworkState, Synced;
      shouldEvaluate, stateChanged, oldState := false, false, Down;
      match e
      case Boot =>
        status := status.(activeIf := if env.configuredWifi then Wifi else Eth, netState := Down);
        status := WithIp(status, NO_IP, NO_IP, NO_IP);
        SyncLegacyFlags(env);
      case WifiConnected =>
        status := status.(activeIf := Wifi, wifiConnected := true);
        SyncLegacyFlags(env);
      case WifiDisconnected =>
        status := status.(activeIf := Wifi, wifiConnected := false, wifiGotIp := false,
                          gatewayPingOk := false, internetPingOk := false);
        status := WithIp(status, NO_IP, NO_IP, NO_IP);
        stateChanged, oldState := SetNetworkState(Down, env);
      case WifiGotIp(ip, netmask, gateway) =>
        status := WithIp(status.(activeIf := Wifi, wifiConnected := true, wifiGotIp := true), ip, netmask, gateway);
        shouldEvaluate := true;
      case EthLinkUp =>
        status := status.(activeIf := Eth);
        SyncLegacyFlags(env);
      case EthLinkDown =>
        status := status.(activeIf := Eth, ethGotIp := false, internetPingOk := false);
        if status.ethStaticIpValid {
          shouldEvaluate := true;
        } else {
          status := WithIp(status, NO_IP, NO_IP, NO_IP);
          stateChanged, oldState := SetNetworkState(Down, env);
        }
      case EthGotIp(ip, netmask, gateway) =>
        status := WithIp(status.(activeIf := Eth, ethGotIp := true), ip, netmask, gateway);
        shouldEvaluate := true;
      case EthStaticIpReady(ip, netmask, gateway) =>
        status := WithIp(status.(activeIf := Eth, ethStaticIpValid := true), ip, netmask, gateway);
        shouldEvaluate := true;
      case ApStarted =>
        SyncedAsks(View(), true, env);
        status := status.(apOn := true);
        SyncLegacyFlags(env);
      case ApStopped =>
        SyncedAsks(View(), false, env);
        status := status.(apOn := false);
        SyncLegacyFlags(env);
      case PeriodicCheck =>
        shouldEvaluate := true;
    }

    method HandleEvent(e: Event, env: Env)
      modifies this, protocols
      ensures View() == Handle(old(View()), e, env)
    {
      WrittenState(status, e, env);
      hide OnNetworkState, Evaluate, Written;
      var stateChanged, oldState, shouldEvaluate := Update(e, env);
      if stateChanged {
        protocols.HandleNetworkState(oldState, Down, env.config);
      }
      if shouldEvaluate {
        EvaluateCurrentState(env, status);
      }
    }
  }

  // ---------------------------------------------------------------- runs of events

  datatype Occurrence = Occurrence(event: Event, env: Env)

  function Run(events: seq<Occurrence>): Sys {
    if events == [] then POWER_ON
    else Handle(Run(events[..|events| - 1]), events[|events| - 1].event, events[|events| - 1].env)
  }

  /** What holds between events. */
  ghost predicate Good(x: Sys) {
    && Consistent(x.protocols)
    && Follows(x.protocols.flags, x.status.netState)
    && (x.status.netState == External <==> x.status.internetPingOk)
    && (x.legacy.connected <==> x.status.netState != Down)
    && (x.legacy.intranet <==> x.status.netState == Local)
    && (x.legacy.wifiActive <==> x.status.activeIf == Wifi)
  }

  /** Why comparing those fields is enough: nothing else enters a verdict. And what a verdict says: the
      network is up exactly if its interface is ready, for Wi-Fi with a gateway that answers, and
      external exactly if the internet answers then; each ping is reported as it went. */
  lemma VerdictFromBase(s: Status, t: Status, env: Env)
    ensures SameBase(s, t) ==> VerdictOn(s, env) == VerdictOn(t, env)
    ensures
      var v := VerdictOn(s, env);
      && (v.state != Down <==>
            (s.activeIf == Wifi && s.wifiConnected && s.wifiGotIp && Ping(s.gateway, env))
            || (s.activeIf == Eth && (s.ethGotIp || s.ethStaticIpValid)))
      && (v.state == External <==> v.state != Down && env.internetUp)
      && v.internetOk == (v.state == External)
      && v.gatewayOk == (v.state != Down && s.activeIf == Wifi)
  {
    hide Ping;
  }

  /** What may have changed without a result being discarded: what is reported, and the netmask. */
  lemma SameBaseMeans(s: Status, t: Status)
    ensures SameBase(s, t) <==>
            t == s.(apOn := t.apOn, netState := t.netState, gatewayPingOk := t.gatewayPingOk,
                    internetPingOk := t.internetPingOk, netmask := t.netmask)
  {
  }

  /** The status was checked while other tasks changed it: the verdict is applied exactly when the
      compared fields still are what was checked, and then it is about the status as it is now. */
  lemma AppliedOnlyIfCurrent(x: Sys, now: Status, env: Env)
    ensures !SameBase(now, x.status) ==> Evaluate(x, now, env) == x.(status := now)
    ensures SameBase(now, x.status) ==>
      var y, v := Evaluate(x, now, env), VerdictOn(now, env);
      var t := y.status;
      && t == now.(netState := v.state, gatewayPingOk := v.gatewayOk, internetPingOk := v.internetOk, apOn := env.apOn)
      && y.protocols == OnNetworkState(x.protocols, now.netState, v.state, env.config)
      && (t.netState != Down && t.activeIf == Wifi ==> t.wifiConnected && t.wifiGotIp && Ping(t.gateway, env))
      && (t.netState != Down && t.activeIf == Eth ==> t.ethGotIp || t.ethStaticIpValid)
  {
    VerdictFromBase(x.status, now, env);
    VerdictFromBase(now, now, env);
    SameStateNothing(x.protocols, env.config);
    hide OnNetworkState, LegacyOf, Ping, VerdictOn;
  }

  lemma SameStateNothing(p: Protocols, c: Config)
    ensures OnNetworkState(p, Down, Down, c) == p
  {
  }

  lemma ApplyParts(x: Sys, v: Verdict, env: Env)
    ensures
      var y := Apply(x, v, env);
      && y.status.netState == v.state && y.status.internetPingOk == v.internetOk
      && y.status.activeIf == x.status.activeIf
      && y.legacy == Legacy(v.state != Down, v.state == Local, x.status.activeIf == Wifi)
      && y.protocols == OnNetworkState(x.protocols, x.status.netState, v.state, env.config)
  {
    SameStateNothing(x.protocols, env.config);
    hide OnNetworkState;
  }

  lemma ApplyKeeps(x: Sys, v: Verdict, env: Env)
    requires Consistent(x.protocols) && Follows(x.protocols.flags, x.status.netState)
    requires v.internetOk == (v.state == External)
    ensures Good(Apply(x, v, env))
  {
    TransitionKeeps(x.protocols, x.status.netState, v.state, env.config);
    ApplyParts(x, v, env);
    hide OnNetworkState, Consistent, Follows, Apply;
  }

  /** A check keeps the protocols in step with the network state whatever other tasks do to the base
      fields in the meantime; `netState` and the ping results are written by the event loop only. */
  lemma EvaluateKeeps(x: Sys, now: Status, env: Env)
    requires Consistent(x.protocols) && Follows(x.protocols.flags, x.status.netState)
    requires now.netState == x.status.netState && now.internetPingOk == x.status.internetPingOk
    ensures
      var y := Evaluate(x, now, env);
      && Consistent(y.protocols)
      && Follows(y.protocols.flags, y.status.netState)
      && (SameBase(now, x.status) ==> Good(y))
      && ((x.status.netState == External <==> x.status.internetPingOk) ==>
            (y.status.netState == External <==> y.status.internetPingOk))
  {
    VerdictFromBase(x.status, x.status, env);
    hide OnNetworkState, Consistent, Follows, VerdictOn, SameBase, Apply;
    ApplyKeeps(x.(status := now), VerdictOn(x.status, env), env);
  }

  lemma GoDownParts(x: Sys, env: Env)
    ensures
      var y := GoDown(x, env);
      && y.status == x.status.(netState := Down, apOn := env.apOn)
      && y.legacy == Legacy(false, false, x.status.activeIf == Wifi)
      && y.protocols == OnNetworkState(x.protocols, x.status.netState, Down, env.config)
  {
    SameStateNothing(x.protocols, env.config);
    hide OnNetworkState;
  }

  lemma GoDownKeeps(x: Sys, env: Env)
    requires Consistent(x.protocols) && Follows(x.protocols.flags, x.status.netState) && !x.status.internetPingOk
    ensures Good(GoDown(x, env))
  {
    TransitionKeeps(x.protocols, x.status.netState, Down, env.config);
    GoDownParts(x, env);
    hide OnNetworkState, Consistent, Follows, GoDown;
  }

  lemma SyncKeeps(x: Sys, s: Status, env: Env)
    requires Good(x) && s.netState == x.status.netState && s.internetPingOk == x.status.internetPingOk
    ensures Good(Synced(x.(status := s), env))
  {
    hide Consistent, Follows;
  }

  lemma HandleKeeps(x: Sys, e: Event, env: Env)
    requires Good(x) && (e == Boot ==> x.status.netState == Down)
    ensures Good(Handle(x, e, env))
  {
    WrittenState(x.status, e, env);
    var y := x.(status := Written(x.status, e, env));
    hide Consistent, Follows, Evaluate, GoDown, Written, Synced;
    if NeedsCheck(x.status, e) {
      assert Handle(x, e, env) == Evaluate(y, y.status, env);
      EvaluateKeeps(y, y.status, env);
    } else if Drops(x.status, e) {
      GoDownKeeps(y, env);
    } else {
      SyncKeeps(x, y.status, env);
    }
  }

  /** A boot event keeps things in step exactly when the network was down: it resets the state
      without telling the protocol manager. */
  lemma BootKeepsIffDown(x: Sys, env: Env)
    requires Good(x)
    ensures Good(Handle(x, Boot, env)) <==> x.status.netState == Down
  {
    hide Consistent;
  }

  /** A boot event behind another one, and the state it leaves: protocols run in a network that is down. */
  lemma LateBootBreaks(env: Env)
    requires env.internetUp
    ensures
      var events := [Occurrence(EthStaticIpReady("10.0.0.2", "255.0.0.0", "10.0.0.1"), env)] + [Occurrence(Boot, env)];
      !Good(Run(events)) && Run(events).status.netState == Down && Run(events).protocols.flags.localStarted
  {
    var up, boot := Occurrence(EthStaticIpReady("10.0.0.2", "255.0.0.0", "10.0.0.1"), env), Occurrence(Boot, env);
    assert [up] + [boot] == [up, boot] && [up, boot][..1] == [up] && [up][..0] == [];
    EthComesUp(env);
    hide Consistent;
    assert Run([up]) == Handle(POWER_ON, up.event, env);
  }

  lemma EthComesUp(env: Env)
    requires env.internetUp
    ensures
      var x := Handle(POWER_ON, EthStaticIpReady("10.0.0.2", "255.0.0.0", "10.0.0.1"), env);
      x.status.netState == External && x.protocols.flags.localStarted
  {
    hide StartExternal, Consistent;
    var c := env.config;
    assert StartLocal(POWER_ON.protocols, c).flags.localStarted;
    assert StartExternal(StartLocal(POWER_ON.protocols, c), c).flags.localStarted by {
      ExternalKeepsLocal(StartLocal(POWER_ON.protocols, c), c);
    }
  }

  lemma ExternalKeepsLocal(p: Protocols, c: Config)
    ensures StartExternal(p, c).flags.localStarted == p.flags.localStarted
  {
  }

  ghost predicate BootFirstOnly(events: seq<Occurrence>) {
    forall i :: 0 < i < |events| ==> events[i].event != Boot
  }

  /** Over every run with boot at most at the front: protocols off while the network is down, local
      protocols on otherwise, MQTT only when external, TCP server and client never both, starts and
      stops alternating, flags agreeing with the state, external exactly when the ping worked. */
  lemma {:induction false} EveryRunGood(events: seq<Occurrence>)
    requires BootFirstOnly(events)
    ensures Good(Run(events))
    decreases |events|
  {
    hide Handle;
    if events == [] {
      GoodAtPowerOn();
    } else {
      var front, last := events[..|events| - 1], events[|events| - 1];
      EveryRunGood(front);
      if last.event == Boot {
        assert front == [];
      }
      HandleKeeps(Run(front), last.event, last.env);
    }
  }

  /** Over the same runs, UDP starts and stops strictly alternate, and so do successful MQTT starts
      and stops. */
  lemma EveryRunAlternates(events: seq<Occurrence>)
    requires BootFirstOnly(events)
    ensures Alternates(Run(events).protocols.log, UdpStart, UdpKill)
    ensures Alternates(Run(events).protocols.log, MqttStart, MqttStop)
  {
    hide Alternates, Run;
    EveryRunGood(events);
    UnbrokenAlternates(Run(events).protocols.log, UdpStart, UdpKill);
    UnbrokenAlternates(Run(events).protocols.log, MqttStart, MqttStop);
  }

  /** What a check that finds the network up leaves running: the TCP side is chosen once, when the
      network comes up, and stays whatever the configuration says later; MQTT is tried again at every
      check that finds the internet until it runs, and goes when only the local network is left. */
  lemma UpRunsConfigured(x: Sys, env: Env)
    requires Good(x) && VerdictOn(x.status, env).state != Down
    ensures
      var before, after, c := x.protocols.flags, Handle(x, PeriodicCheck, env).protocols.flags, env.config;
      && (x.status.netState == Down ==>
            && (after.tcpServer <==> c.nvsOk && c.useTcp && c.hasMode && c.tcpMode == TCP_MODE_SERVER)
            && (after.tcpClient <==> c.nvsOk && c.useTcp && (c.hasMode ==> c.tcpMode == TCP_MODE_CLIENT)))
      && (x.status.netState != Down ==> after.tcpServer == before.tcpServer && after.tcpClient == before.tcpClient)
      && (after.mqtt <==>
            VerdictOn(x.status, env).state == External && (before.mqtt || (c.nvsOk && c.mqttWanted && c.mqttStarts)))
      && (VerdictOn(x.status, env).state == External && !before.mqtt && c.nvsOk && c.mqttWanted ==>
            var log := Handle(x, PeriodicCheck, env).protocols.log;
            log != [] && log[|log| - 1] == if c.mqttStarts then MqttStart else MqttFailed)
  {
    hide PhaseOf, Watch;
  }

  lemma GoodAtPowerOn()
    ensures Good(POWER_ON)
  {
  }

  // ---------------------------------------------------------------- the status read off the events

  predicate HasAddress(e: Event) { e.WifiGotIp? || e.EthGotIp? || e.EthStaticIpReady? }

  predicate ToWifi(o: Occurrence) {
    (o.event.Boot? && o.env.configuredWifi) || o.event.WifiConnected? || o.event.WifiDisconnected? || o.event.WifiGotIp?
  }

  predicate ToEth(o: Occurrence) {
    || (o.event.Boot? && !o.env.configuredWifi)
    || o.event.EthLinkUp? || o.event.EthLinkDown? || o.event.EthGotIp? || o.event.EthStaticIpReady?
  }

  predicate WifiJoins(o: Occurrence) { o.event.WifiConnected? || o.event.WifiGotIp? }

  predicate WifiAddressed(o: Occurrence) { o.event.WifiGotIp? }

  predicate WifiLost(o: Occurrence) { o.event.WifiDisconnected? }

  predicate EthAddressed(o: Occurrence) { o.event.EthGotIp? }

  predicate EthLost(o: Occurrence) { o.event.EthLinkDown? }

  predicate EthFixed(o: Occurrence) { o.event.EthStaticIpReady? }

  predicate Never(o: Occurrence) { false }

  ghost predicate ReadOff(events: seq<Occurrence>, s: Status) {
    && (s.activeIf == Wifi <==> Since(events, ToWifi, ToEth))
    && (s.activeIf == Eth <==> Since(events, ToEth, ToWifi))
    && (s.wifiConnected <==> Since(events, WifiJoins, WifiLost))
    && (s.wifiGotIp <==> Since(events, WifiAddressed, WifiLost))
    && (s.ethGotIp <==> Since(events, EthAddressed, EthLost))
    && (s.ethStaticIpValid <==> Since(events, EthFixed, Never))
  }

  /** Over every run: the interface is the one the last event that names one names; Wi-Fi is connected
      and has an address since the events that say so unless it was lost later, Ethernet likewise; a
      static address is valid for good. */
  lemma {:induction false} StatusReadOff(events: seq<Occurrence>)
    ensures ReadOff(events, Run(events).status)
    decreases |events|
  {
    if events == [] {
      assert Run(events) == POWER_ON;
    } else {
      var front, o := events[..|events| - 1], events[|events| - 1];
      assert events == front + [o];
      StatusReadOff(front);
      HandleFields(Run(front), o.event, o.env);
      hide Handle, ReadOff, Changed;
      ReadOffSnoc(front, o, Run(front).status, Run(events).status);
    }
  }

  /** What one event does to what a verdict depends on. */
  ghost predicate Changed(s: Status, o: Occurrence, t: Status) {
    && t.activeIf == (if ToWifi(o) then Wifi else if ToEth(o) then Eth else s.activeIf)
    && t.wifiConnected == (WifiJoins(o) || (s.wifiConnected && !WifiLost(o)))
    && t.wifiGotIp == (WifiAddressed(o) || (s.wifiGotIp && !WifiLost(o)))
    && t.ethGotIp == (EthAddressed(o) || (s.ethGotIp && !EthLost(o)))
    && t.ethStaticIpValid == (EthFixed(o) || s.ethStaticIpValid)
  }

  lemma ReadOffSnoc(front: seq<Occurrence>, o: Occurrence, s: Status, t: Status)
    requires ReadOff(front, s) && Changed(s, o, t)
    ensures ReadOff(front + [o], t)
  {
    hide Since;
    SinceSnoc(front, o, ToWifi, ToEth);
    SinceSnoc(front, o, ToEth, ToWifi);
    SinceSnoc(front, o, WifiJoins, WifiLost);
    SinceSnoc(front, o, WifiAddressed, WifiLost);
    SinceSnoc(front, o, EthAddressed, EthLost);
    SinceSnoc(front, o, EthFixed, Never);
    assert !(ToWifi(o) && ToEth(o));
    hide ToWifi, ToEth, WifiJoins, WifiAddressed, WifiLost, EthAddressed, EthLost, EthFixed;
  }

  lemma HandleFields(x: Sys, e: Event, env: Env)
    ensures Changed(x.status, Occurrence(e, env), Handle(x, e, env).status)
  {
    RecordFields(x, e, env);
    CheckOnlyReports(Record(x, e, env), env);
    hide VerdictOn, Evaluate, Record;
  }

  /** A check changes nothing in the status but what it finds. */
  lemma CheckOnlyReports(x: Sys, env: Env)
    ensures
      var v := VerdictOn(x.status, env);
      Evaluate(x, x.status, env).status ==
      x.status.(netState := v.state, gatewayPingOk := v.gatewayOk, internetPingOk := v.internetOk, apOn := env.apOn)
  {
    hide OnNetworkState, VerdictOn;
  }

  lemma RecordFields(x: Sys, e: Event, env: Env)
    ensures Changed(x.status, Occurrence(e, env), Record(x, e, env).status)
  {
    WrittenFields(x.status, e, env);
    RecordStatus(x, e, env);
    hide Written, Record;
  }

  lemma RecordAddress(x: Sys, e: Event, env: Env)
    ensures AddressChange(x.status, e, Record(x, e, env).status)
  {
    WrittenAddress(x.status, e, env);
    RecordStatus(x, e, env);
    hide Written, Record;
  }

  lemma RecordState(x: Sys, e: Event, env: Env)
    ensures
      var s, t := x.status, Record(x, e, env).status;
      && (if e.Boot? || Drops(s, e) then t.netState == Down else t.netState == s.netState)
      && (t.gatewayPingOk <==> s.gatewayPingOk && !e.WifiDisconnected?)
      && (t.internetPingOk <==> s.internetPingOk && !e.WifiDisconnected? && !e.EthLinkDown?)
      && (!NeedsCheck(s, e) ==> t.apOn == env.apOn)
      && (e.PeriodicCheck? ==> t == s)
  {
    WrittenState(x.status, e, env);
    RecordStatus(x, e, env);
    hide Written, Record;
  }

  lemma RecordStatus(x: Sys, e: Event, env: Env)
    ensures
      var s, w := x.status, Written(x.status, e, env);
      Record(x, e, env).status ==
      if Drops(s, e) then w.(netState := Down, apOn := env.apOn)
      else if NeedsCheck(s, e) then w
      else w.(apOn := env.apOn)
  {
    GoDownParts(x.(status := Written(x.status, e, env)), env);
    hide GoDown, Written;
  }

  lemma WrittenFields(s: Status, e: Event, env: Env)
    ensures Changed(s, Occurrence(e, env), Written(s, e, env))
  {
  }

  lemma WrittenAddress(s: Status, e: Event, env: Env)
    ensures AddressChange(s, e, Written(s, e, env))
  {
  }

  lemma WrittenState(s: Status, e: Event, env: Env)
    ensures
      var t := Written(s, e, env);
      && t.netState == (if e.Boot? then Down else s.netState)
      && (t.gatewayPingOk <==> s.gatewayPingOk && !e.WifiDisconnected?)
      && (t.internetPingOk <==> s.internetPingOk && !e.WifiDisconnected? && !e.EthLinkDown?)
      && (e.PeriodicCheck? ==> t == s)
  {
  }

  ghost predicate AddressChange(s: Status, e: Event, t: Status) {
    if HasAddress(e) then t.ip == e.ip && t.netmask == e.netmask && t.gateway == e.gateway
    else if e.Boot? || Drops(s, e) then
      t.ip == t.netmask == t.gateway == NO_IP
    else t.ip == s.ip && t.netmask == s.netmask && t.gateway == s.gateway
  }

  /** Event j takes the address away: a boot, Wi-Fi lost, or the Ethernet link lost if there never was a
      static address. */
  ghost predicate Clears(events: seq<Occurrence>, j: nat)
    requires j < |events|
  {
    || events[j].event.Boot? || events[j].event.WifiDisconnected?
    || (events[j].event.EthLinkDown? && forall k :: 0 <= k < j ==> !events[k].event.EthStaticIpReady?)
  }

  /** Over every run address, netmask and gateway are those of the last event that brought some, unless
      a later one took them away; */
  lemma {:induction false} AddressKept(events: seq<Occurrence>, i: nat)
    requires i < |events| && HasAddress(events[i].event)
    requires forall j :: i < j < |events| ==> !HasAddress(events[j].event) && !Clears(events, j)
    ensures
      var s, e := Run(events).status, events[i].event;
      s.ip == e.ip && s.netmask == e.netmask && s.gateway == e.gateway
    decreases |events|
  {
    var front, o := events[..|events| - 1], events[|events| - 1];
    HandleAddress(Run(front), o.event, o.env);
    if i < |front| {
      NoStaticYet(front);
      forall j | i < j < |front| ensures !HasAddress(front[j].event) && !Clears(front, j) {
        assert !Clears(events, j);
        ClearsInFront(events, |front|, j);
      }
      AddressKept(front, i);
      assert !Clears(events, |front|);
      assert o.event.EthLinkDown? ==> !(forall k :: 0 <= k < |front| ==> !front[k].event.EthStaticIpReady?);
    }
    hide Handle;
  }

  /** then there are none, */
  lemma {:induction false} AddressGone(events: seq<Occurrence>, i: nat)
    requires i < |events| && Clears(events, i)
    requires forall j :: i < j < |events| ==> !HasAddress(events[j].event)
    ensures var s := Run(events).status; s.ip == s.netmask == s.gateway == NO_IP
    decreases |events|
  {
    var front, o := events[..|events| - 1], events[|events| - 1];
    HandleAddress(Run(front), o.event, o.env);
    NoStaticYet(front);
    if i < |front| {
      ClearsInFront(events, |front|, i);
      AddressGone(front, i);
    } else {
      assert o.event.EthLinkDown? ==> forall k :: 0 <= k < |front| ==> front[k] == events[k];
    }
    hide Handle;
  }

  /** nor before the first such event. */
  lemma {:induction false} AddressNotYet(events: seq<Occurrence>)
    requires forall j :: 0 <= j < |events| ==> !HasAddress(events[j].event) && !Clears(events, j)
    ensures var s := Run(events).status; s.ip == s.netmask == s.gateway == ""
    decreases |events|
  {
    if events != [] {
      var front, o := events[..|events| - 1], events[|events| - 1];
      HandleAddress(Run(front), o.event, o.env);
      forall j | 0 <= j < |front| ensures !HasAddress(front[j].event) && !Clears(front, j) {
        assert !Clears(events, j);
        ClearsInFront(events, |front|, j);
      }
      NoStaticYet(front);
      assert !Clears(events, |front|);
      AddressNotYet(front);
    }
    hide Handle;
  }

  lemma ClearsInFront(events: seq<Occurrence>, n: nat, j: nat)
    requires j < n <= |events|
    ensures Clears(events[..n], j) <==> Clears(events, j)
  {
    assert forall k :: 0 <= k < n ==> events[..n][k] == events[k];
  }

  lemma NoStaticYet(events: seq<Occurrence>)
    ensures Run(events).status.ethStaticIpValid <==>
            !(forall k :: 0 <= k < |events| ==> !events[k].event.EthStaticIpReady?)
  {
    StatusReadOff(events);
    hide Run;
    if k :| 0 <= k < |events| && events[k].event.EthStaticIpReady? {
      assert EthFixed(events[k]);
    }
  }

  lemma HandleAddress(x: Sys, e: Event, env: Env)
    ensures AddressChange(x.status, e, Handle(x, e, env).status)
  {
    RecordAddress(x, e, env);
    CheckOnlyReports(Record(x, e, env), env);
    hide VerdictOn, Evaluate, Record;
  }

  /** What one event makes of the network state: an address brings the network up if for Wi-Fi its
      gateway answers, for Ethernet at once, external if the internet answers; losing Wi-Fi, or Ethernet
      without a static address, takes it down; other events but a check leave it alone. The ping of the
      gateway is reported at every check and forgotten when Wi-Fi is lost. */
  lemma EventDecides(x: Sys, e: Event, env: Env)
    ensures
      var s, t := x.status, Handle(x, e, env).status;
      var up := if env.internetUp then External else Local;
      && (e.WifiGotIp? ==>
            t.netState ==
            if e.gateway != "" && e.gateway != "---" && e.gateway != "0.0.0.0" && env.gatewayReplies(e.gateway) then up
            else Down)
      && (e.EthGotIp? || e.EthStaticIpReady? || (e.EthLinkDown? && s.ethStaticIpValid) ==> t.netState == up)
      && (e.Boot? || Drops(s, e) ==> t.netState == Down)
      && (e.PeriodicCheck? ==> t.netState == VerdictOn(s, env).state)
      && (e.WifiConnected? || e.EthLinkUp? || e.ApStarted? || e.ApStopped? ==> t.netState == s.netState)
      && (NeedsCheck(s, e) ==>
            (t.gatewayPingOk <==> t.netState != Down && t.activeIf == Wifi)
            && (t.internetPingOk <==> t.netState == External))
      && (!NeedsCheck(s, e) ==>
            (t.gatewayPingOk <==> s.gatewayPingOk && !e.WifiDisconnected?)
            && (t.internetPingOk <==> s.internetPingOk && !e.WifiDisconnected? && !e.EthLinkDown?))
      && t.apOn == env.apOn
  {
    var y := Record(x, e, env);
    RecordFields(x, e, env);
    RecordAddress(x, e, env);
    RecordState(x, e, env);
    CheckOnlyReports(y, env);
    VerdictFromBase(y.status, y.status, env);
    hide VerdictOn, Evaluate, Record;
  }

  predicate WifiSide(e: Event) { !(e.EthLinkUp? || e.EthLinkDown? || e.EthGotIp? || e.EthStaticIpReady?) }

  /** Event g brought Wi-Fi the address it has now. */
  ghost predicate Fresh(events: seq<Occurrence>, g: nat) {
    && g < |events| && events[g].event.WifiGotIp?
    && forall j :: g < j < |events| ==>
         !events[j].event.WifiGotIp? && !events[j].event.WifiDisconnected? && !events[j].event.Boot?
  }

  /** Event c was the last check. */
  ghost predicate LastCheck(events: seq<Occurrence>, c: nat) {
    && c < |events| && (events[c].event.WifiGotIp? || events[c].event.PeriodicCheck?)
    && forall j :: c < j < |events| ==> !events[j].event.WifiGotIp? && !events[j].event.PeriodicCheck?
  }

  /** Wi-Fi has an address and its gateway answered the last check. */
  ghost predicate Reachable(events: seq<Occurrence>, g: nat, c: nat) {
    Fresh(events, g) && LastCheck(events, c) && g <= c && Ping(events[g].event.gateway, events[c].env)
  }

  lemma FreshOnce(events: seq<Occurrence>, g: nat, g': nat)
    requires Fresh(events, g) && Fresh(events, g')
    ensures g == g'
  {
  }

  lemma FreshSnoc(front: seq<Occurrence>, o: Occurrence, g: nat)
    ensures Fresh(front + [o], g) <==>
            if g < |front| then
              Fresh(front, g) && !o.event.WifiGotIp? && !o.event.WifiDisconnected? && !o.event.Boot?
            else g == |front| && o.event.WifiGotIp?
  {
    var events := front + [o];
    assert forall j :: 0 <= j < |front| ==> events[j] == front[j];
    if g < |front| && Fresh(events, g) {
      assert events[|front|] == o;
    }
  }

  lemma LastCheckSnoc(front: seq<Occurrence>, o: Occurrence, c: nat)
    ensures LastCheck(front + [o], c) <==>
            if c < |front| then LastCheck(front, c) && !o.event.WifiGotIp? && !o.event.PeriodicCheck?
            else c == |front| && (o.event.WifiGotIp? || o.event.PeriodicCheck?)
  {
    var events := front + [o];
    assert forall j :: 0 <= j < |front| ==> events[j] == front[j];
    if c < |front| && LastCheck(events, c) {
      assert events[|front|] == o;
    }
  }

  /** Events that leave both address and last check in force. */
  predicate KeepsUp(e: Event) { e.WifiConnected? || e.ApStarted? || e.ApStopped? }

  lemma ReachableSnoc(front: seq<Occurrence>, o: Occurrence, g: nat, c: nat)
    requires WifiSide(o.event)
    ensures
      var e, events, n := o.event, front + [o], |front|;
      && (Reachable(events, g, c) ==>
            && (e.WifiGotIp? ==> g == c == n)
            && (e.PeriodicCheck? ==> Fresh(front, g) && c == n && Ping(front[g].event.gateway, o.env))
            && (!e.WifiGotIp? && !e.PeriodicCheck? ==> Reachable(front, g, c) && KeepsUp(e))
            && Ping(events[g].event.gateway, events[c].env))
      && (Reachable(front, g, c) && KeepsUp(e) ==> Reachable(events, g, c))
  {
    FreshSnoc(front, o, g);
    LastCheckSnoc(front, o, c);
    assert forall j: nat :: j < |front| ==> (front + [o])[j] == front[j];
  }

  /** Without Ethernet events: what the status says of an address event no later event undid, and that a
      gateway which can be pinged comes from one. */
  ghost predicate WifiAddress(events: seq<Occurrence>, s: Status) {
    && !s.ethGotIp && !s.ethStaticIpValid
    && (forall g: nat :: Fresh(events, g) ==>
          s.activeIf == Wifi && s.wifiConnected && s.wifiGotIp && s.gateway == events[g].event.gateway)
    && ((forall g: nat :: !Fresh(events, g)) ==> s.gateway == "" || s.gateway == NO_IP)
  }

  ghost predicate WifiUp(events: seq<Occurrence>) {
    exists g: nat, c: nat :: Reachable(events, g, c)
  }

  lemma WifiAddressSnoc(front: seq<Occurrence>, o: Occurrence, x: Sys)
    requires WifiAddress(front, x.status) && WifiSide(o.event)
    ensures WifiAddress(front + [o], Handle(x, o.event, o.env).status)
  {
    var e, events := o.event, front + [o];
    HandleFields(x, e, o.env);
    HandleAddress(x, e, o.env);
    hide Handle;
    forall g: nat ensures Fresh(events, g) <==>
            if g < |front| then Fresh(front, g) && !e.WifiGotIp? && !e.WifiDisconnected? && !e.Boot?
            else g == |front| && e.WifiGotIp? { FreshSnoc(front, o, g); }
    assert forall j: nat :: j < |front| ==> events[j] == front[j];
    assert events[|front|] == o;
    assert e.WifiGotIp? ==> Fresh(events, |front|);
    hide Fresh;
  }

  lemma WifiUpSnoc(front: seq<Occurrence>, o: Occurrence, x: Sys)
    requires WifiAddress(front, x.status) && WifiSide(o.event) && (x.status.netState != Down <==> WifiUp(front))
    ensures Handle(x, o.event, o.env).status.netState != Down <==> WifiUp(front + [o])
  {
    var e, events, n := o.event, front + [o], |front|;
    EventDecides(x, e, o.env);
    VerdictFromBase(x.status, x.status, o.env);
    hide Handle, VerdictOn;
    forall g: nat, c: nat ensures Reachable(events, g, c) ==>
      && (e.WifiGotIp? ==> g == c == n && Ping(e.gateway, o.env))
      && (e.PeriodicCheck? ==> Fresh(front, g) && Ping(front[g].event.gateway, o.env))
      && (!e.WifiGotIp? && !e.PeriodicCheck? ==> Reachable(front, g, c) && KeepsUp(e))
    {
      ReachableSnoc(front, o, g, c);
    }
    forall g: nat, c: nat ensures Reachable(front, g, c) && KeepsUp(e) ==> Reachable(events, g, c) {
      ReachableSnoc(front, o, g, c);
    }
    if e.WifiGotIp? {
      FreshSnoc(front, o, n);
      LastCheckSnoc(front, o, n);
      assert Ping(e.gateway, o.env) ==> Reachable(events, n, n);
    } else if e.PeriodicCheck? {
      LastCheckSnoc(front, o, n);
      if g: nat :| Fresh(front, g) {
        FreshSnoc(front, o, g);
        assert Ping(front[g].event.gateway, o.env) ==> Reachable(events, g, n);
      }
    }
  }

  /** Without Ethernet events the network is up if and only if Wi-Fi has an address, not taken away since,
      and the gateway that came with it answered the last check. */
  lemma {:induction false} WifiOnlyRuns(events: seq<Occurrence>)
    requires forall i :: 0 <= i < |events| ==> WifiSide(events[i].event)
    ensures WifiAddress(events, Run(events).status)
    ensures Run(events).status.netState != Down <==> exists g: nat, c: nat :: Reachable(events, g, c)
    decreases |events|
  {
    hide Handle, WifiAddress, Reachable;
    if events == [] {
      NothingYet();
    } else {
      var front, o := events[..|events| - 1], events[|events| - 1];
      assert events == front + [o];
      WifiOnlyRuns(front);
      WifiAddressSnoc(front, o, Run(front));
      WifiUpSnoc(front, o, Run(front));
    }
  }

  lemma NothingYet()
    ensures WifiAddress([], POWER_ON.status) && !WifiUp([])
  {
  }
}
