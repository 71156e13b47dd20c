/** The protocol manager: five flags that follow the network state, and the protocol starts and
    stops they cause. `log` lists those calls in order; NVS contents and the outcome of the MQTT
    start are arguments. */
module ProtocolManager {
  import opened Common

  datatype NetState = Down | Local | External

  /** What NVS says. `tcpMode` is the number in "tcpconn", if there is one. */
  datatype Config = Config(nvsOk: bool, useTcp: bool, hasMode: bool, tcpMode: int, mqttWanted: bool, mqttStarts: bool)

  const TCP_MODE_SERVER := 0
  const TCP_MODE_CLIENT := 1

  datatype Act = UdpStart | UdpKill | TcpServerStart | TcpServerStop | TcpClientStart | TcpClientStop
               | MqttStart | MqttFailed | MqttStop

  datatype Flags = Flags(localStarted: bool, externalStarted: bool, tcpServer: bool, tcpClient: bool, mqtt: bool)

  datatype Protocols = Protocols(flags: Flags, log: seq<Act>)

  const OFF := Flags(false, false, false, false, false)

  // ---------------------------------------------------------------- specification

  function StartLocal(p: Protocols, c: Config): Protocols {
    if p.flags.localStarted then p
    else if !c.nvsOk || !c.useTcp then Protocols(p.flags.(localStarted := true), p.log + [UdpStart])
    else
      var mode := if c.hasMode then c.tcpMode else TCP_MODE_CLIENT;
      var server := mode == TCP_MODE_SERVER && !p.flags.tcpServer;
      var client := mode == TCP_MODE_CLIENT && !p.flags.tcpClient;
      Protocols(
        p.flags.(localStarted := true, tcpServer := p.flags.tcpServer || server,
                 tcpClient := p.flags.tcpClient || client),
        p.log + [UdpStart] + (if server then [TcpServerStart] else []) + if client then [TcpClientStart] else [])
  }

  function StartExternal(p: Protocols, c: Config): Protocols {
    if p.flags.externalStarted || !c.nvsOk then p
    else if c.mqttWanted && !p.flags.mqtt then
      Protocols(p.flags.(mqtt := c.mqttStarts, externalStarted := c.mqttStarts),
                p.log + [if c.mqttStarts then MqttStart else MqttFailed])
    else p.(flags := p.flags.(externalStarted := p.flags.mqtt))
  }

  function StopLocal(p: Protocols): Protocols {
    if !p.flags.localStarted && !p.flags.tcpServer && !p.flags.tcpClient then p
    else Protocols(p.flags.(localStarted := false, tcpServer := false, tcpClient := false),
                   p.log + [UdpKill, TcpClientStop, TcpServerStop])
  }

  function StopExternal(p: Protocols): Protocols {
    if !p.flags.externalStarted && !p.flags.mqtt then p
    else Protocols(p.flags.(externalStarted := false, mqtt := false), p.log + [MqttStop])
  }

  function OnNetworkState(p: Protocols, from: NetState, to: NetState, c: Config): Protocols {
    if from == to then
      match to
      case Down => p
      case Local => StartLocal(p, c)
      case External => StartExternal(StartLocal(p, c), c)
    else
      match to
      case Down => StopLocal(StopExternal(p))
      case Local =>
        var q := if from == Down then StartLocal(p, c) else p;
        if from == External then StopExternal(q) else q
      case External =>
        StartExternal(if from == Down then StartLocal(p, c) else p, c)
  }

  // ---------------------------------------------------------------- the firmware object

  class Manager {
    var localStarted: bool
    var externalStarted: bool
    var tcpServerStarted: bool
    var tcpClientStarted: bool
    var mqttStarted: bool
    var log: seq<Act>

    ghost function View(): Protocols
      reads this
    {
      Protocols(Flags(localStarted, externalStarted, tcpServerStarted, tcpClientStarted, mqttStarted), log)
    }

    constructor ()
      ensures View() == Protocols(OFF, [])
    {
      localStarted, externalStarted := false, false;
      tcpServerStarted, tcpClientStarted, mqttStarted := false, false, false;
      log := [];
    }

    method StartLocalProtocols(c: Config)
      modifies this
      ensures View() == StartLocal(old(View()), c)
    {
      if localStarted {
        return;
      }
      log := log + [UdpStart];
      if !c.nvsOk {
        localStarted := true;
        return;
      }
      if c.useTcp {
        var tcpMode := TCP_MODE_CLIENT;
        if c.hasMode {
          tcpMode := c.tcpMode;
        }
        if tcpMode == TCP_MODE_SERVER && !tcpServerStarted {
          log := log + [TcpServerStart];
          tcpServerStarted := true;
        }
        if tcpMode == TCP_MODE_CLIENT && !tcpClientStarted {
          log := log + [TcpClientStart];
          tcpClientStarted := true;
        }
      }
      localStarted := true;
    }

    method StartExternalProtocols(c: Config)
      modifies this
      ensures View() == StartExternal(old(View()), c)
    {
      if externalStarted {
        return;
      }
      if !c.nvsOk {
        return;
      }
      if c.mqttWanted && !mqttStarted {
        if c.mqttStarts {
          log := log + [MqttStart];
          mqttStarted := true;
        } else {
          log := log + [MqttFailed];
        }
      }
      externalStarted := mqttStarted;
    }

    method StopLocalProtocols()
      modifies this
      ensures View() == StopLocal(old(View()))
    {
      if !localStarted && !tcpServerStarted && !tcpClientStarted {
        return;
      }
      log := log + [UdpKill];
      log := log + [TcpClientStop];
      log := log + [TcpServerStop];
      localStarted, tcpServerStarted, tcpClientStarted := false, false, false;
      assert log == old(log) + [UdpKill, TcpClientStop, TcpServerStop];
    }

    method StopExternalProtocols()
      modifies this
      ensures View() == StopExternal(old(View()))
    {
      if !externalStarted && !mqttStarted {
        return;
      }
      log := log + [MqttStop];
      externalStarted, mqttStarted := false, false;
    }

    /** `sx_protocol_manager_on_network_state` */
    method HandleNetworkState(from: NetState, to: NetState, c: Config)
      modifies this
      ensures View() == OnNetworkState(old(View()), from, to, c)
    {
      if from == to {
        if to == Local {
          StartLocalProtocols(c);
        } else if to == External {
          StartLocalProtocols(c);
          StartExternalProtocols(c);
        }
        return;
      }
      if to == Down {
        StopExternalProtocols();
        StopLocalProtocols();
        return;
      }
      if to == Local {
        if from == Down {
          StartLocalProtocols(c);
        }
        if from == External {
          StopExternalProtocols();
        }
        return;
      }
      if from == Down {
        StartLocalProtocols(c);
      }
      StartExternalProtocols(c);
    }
  }

  // ---------------------------------------------------------------- the invariant

  /** Whether, after these calls, the thing started by `on` and stopped by `off` is running; `None`
      once a start found it running or a stop found it stopped. */
  datatype Phase = Running | Stopped | Broken

  function PhaseOf(log: seq<Act>, on: Act, off: Act): Phase
    requires on != off
  {
    if log == [] then Stopped
    else
      var before := PhaseOf(log[..|log| - 1], on, off);
      var act := log[|log| - 1];
      if act == on then (if before == Stopped then Running else Broken)
      else if act == off then (if before == Running then Stopped else Broken)
      else before
  }

  /** A call as an onlooker judges it: UDP is started when nothing runs and stopped when it runs and MQTT
      does not; TCP sides and MQTT start, or fail to, only while UDP runs, the TCP sides only one at a
      time, and MQTT stops only if it runs; the TCP sides may be stopped at any time. What runs then, or
      `None` if the call is out of turn. */
  function Judge(f: Flags, act: Act): Option<Flags> {
    match act
    case UdpStart => if f == OFF then Some(f.(localStarted := true)) else None
    case UdpKill => if f.localStarted && !f.mqtt then Some(f.(localStarted := false)) else None
    case TcpServerStart =>
      if f.localStarted && !f.tcpServer && !f.tcpClient then Some(f.(tcpServer := true)) else None
    case TcpClientStart =>
      if f.localStarted && !f.tcpServer && !f.tcpClient then Some(f.(tcpClient := true)) else None
    case TcpServerStop => Some(f.(tcpServer := false))
    case TcpClientStop => Some(f.(tcpClient := false))
    case MqttStart => if f.localStarted && !f.mqtt then Some(f.(mqtt := true, externalStarted := true)) else None
    case MqttFailed => if f.localStarted && !f.mqtt then Some(f) else None
    case MqttStop => if f.mqtt then Some(f.(mqtt := false, externalStarted := false)) else None
  }

  function Watch(log: seq<Act>): Option<Flags> {
    if log == [] then Some(OFF)
    else if Watch(log[..|log| - 1]).None? then None
    else Judge(Watch(log[..|log| - 1]).value, log[|log| - 1])
  }

  ghost predicate Consistent(p: Protocols) {
    && Watch(p.log) == Some(p.flags)
    && (p.flags.tcpServer || p.flags.tcpClient ==> p.flags.localStarted)
    && !(p.flags.tcpServer && p.flags.tcpClient)
    && p.flags.externalStarted == p.flags.mqtt
    && (p.flags.mqtt ==> p.flags.localStarted)
    && PhaseOf(p.log, UdpStart, UdpKill) == (if p.flags.localStarted then Running else Stopped)
    && PhaseOf(p.log, MqttStart, MqttStop) == (if p.flags.mqtt then Running else Stopped)
  }

  /** The flags a network state calls for. */
  ghost predicate Follows(f: Flags, s: NetState) {
    && (s == Down ==> f == OFF)
    && (s != Down ==> f.localStarted)
    && (f.mqtt ==> s == External)
  }

  lemma {:induction false} PhaseAppend(log: seq<Act>, more: seq<Act>, on: Act, off: Act)
    requires on != off && forall i :: 0 <= i < |more| ==> more[i] != on && more[i] != off
    ensures PhaseOf(log + more, on, off) == PhaseOf(log, on, off)
    decreases |more|
  {
    if more == [] {
      assert log + more == log;
    } else {
      assert (log + more)[..|log + more| - 1] == log + more[..|more| - 1];
      PhaseAppend(log, more[..|more| - 1], on, off);
    }
  }

  lemma PhaseSnoc(log: seq<Act>, act: Act, on: Act, off: Act)
    requires on != off
    ensures PhaseOf(log + [act], on, off) ==
            var before := PhaseOf(log, on, off);
            if act == on then (if before == Stopped then Running else Broken)
            else if act == off then (if before == Running then Stopped else Broken)
            else before
  {
    assert (log + [act])[..|log|] == log;
  }

  lemma WatchSnoc(log: seq<Act>, act: Act)
    requires Watch(log).Some?
    ensures Watch(log + [act]) == Judge(Watch(log).value, act)
  {
    assert (log + [act])[..|log|] == log;
  }

  lemma StartLocalWatched(p: Protocols, c: Config)
    requires Consistent(p)
    ensures Watch(StartLocal(p, c).log) == Some(StartLocal(p, c).flags)
  {
    hide PhaseOf, Watch;
    if !p.flags.localStarted {
      WatchSnoc(p.log, UdpStart);
      WatchSnoc(p.log + [UdpStart], TcpServerStart);
      WatchSnoc(p.log + [UdpStart], TcpClientStart);
      var log := p.log + [UdpStart];
      assert log + [] + [] == log && log + [TcpServerStart] + [] == log + [TcpServerStart];
      assert log + [] + [TcpClientStart] == log + [TcpClientStart];
    }
  }

  lemma StopLocalWatched(p: Protocols)
    requires Consistent(p) && !p.flags.mqtt
    ensures Watch(StopLocal(p).log) == Some(StopLocal(p).flags)
  {
    hide PhaseOf, Watch;
    if p.flags.localStarted {
      WatchSnoc(p.log, UdpKill);
      WatchSnoc(p.log + [UdpKill], TcpClientStop);
      WatchSnoc(p.log + [UdpKill] + [TcpClientStop], TcpServerStop);
      assert p.log + [UdpKill, TcpClientStop, TcpServerStop] == p.log + [UdpKill] + [TcpClientStop] + [TcpServerStop];
    }
  }

  lemma StartLocalKeeps(p: Protocols, c: Config)
    requires Consistent(p)
    ensures Consistent(StartLocal(p, c)) && StartLocal(p, c).flags.localStarted
    ensures StartLocal(p, c).flags.mqtt == p.flags.mqtt
  {
    StartLocalWatched(p, c);
    if !p.flags.localStarted {
      hide PhaseOf, Watch;
      var q := StartLocal(p, c);
      var more := q.log[|p.log| + 1..];
      assert q.log == p.log + [UdpStart] + more;
      PhaseSnoc(p.log, UdpStart, UdpStart, UdpKill);
      PhaseSnoc(p.log, UdpStart, MqttStart, MqttStop);
      PhaseAppend(p.log + [UdpStart], more, UdpStart, UdpKill);
      PhaseAppend(p.log + [UdpStart], more, MqttStart, MqttStop);
    }
  }

  lemma StartExternalKeeps(p: Protocols, c: Config)
    requires Consistent(p) && p.flags.localStarted
    ensures Consistent(StartExternal(p, c)) && StartExternal(p, c).flags.localStarted == p.flags.localStarted
  {
    hide PhaseOf, Watch;
    var act := if c.mqttStarts then MqttStart else MqttFailed;
    WatchSnoc(p.log, act);
    PhaseSnoc(p.log, act, UdpStart, UdpKill);
    PhaseSnoc(p.log, act, MqttStart, MqttStop);
  }

  lemma StopLocalKeeps(p: Protocols)
    requires Consistent(p) && !p.flags.mqtt
    ensures Consistent(StopLocal(p)) && !StopLocal(p).flags.localStarted && StopLocal(p).flags.mqtt == p.flags.mqtt
  {
    StopLocalWatched(p);
    hide PhaseOf, Watch;
    var rest := [TcpClientStop, TcpServerStop];
    assert p.log + [UdpKill, TcpClientStop, TcpServerStop] == p.log + [UdpKill] + rest;
    PhaseSnoc(p.log, UdpKill, UdpStart, UdpKill);
    PhaseSnoc(p.log, UdpKill, MqttStart, MqttStop);
    PhaseAppend(p.log + [UdpKill], rest, UdpStart, UdpKill);
    PhaseAppend(p.log + [UdpKill], rest, MqttStart, MqttStop);
  }

  lemma StopExternalKeeps(p: Protocols)
    requires Consistent(p)
    ensures Consistent(StopExternal(p)) && !StopExternal(p).flags.mqtt
    ensures StopExternal(p).flags.localStarted == p.flags.localStarted
  {
    hide PhaseOf, Watch;
    WatchSnoc(p.log, MqttStop);
    PhaseSnoc(p.log, MqttStop, UdpStart, UdpKill);
    PhaseSnoc(p.log, MqttStop, MqttStart, MqttStop);
  }

  /** Told of every change, the protocols follow the network state. */
  lemma TransitionKeeps(p: Protocols, from: NetState, to: NetState, c: Config)
    requires Consistent(p) && Follows(p.flags, from)
    ensures Consistent(OnNetworkState(p, from, to, c)) && Follows(OnNetworkState(p, from, to, c).flags, to)
  {
    hide PhaseOf, Watch, StartLocal, StartExternal;
    StartLocalKeeps(p, c);
    StartExternalKeeps(StartLocal(p, c), c);
    if p.flags.localStarted {
      StartExternalKeeps(p, c);
    }
    StopExternalKeeps(p);
    StopLocalKeeps(StopExternal(p));
  }

  /** At every moment of a log with no call out of turn: MQTT and the TCP sides as the flags say, MQTT
      only while UDP runs, never both TCP sides. */
  lemma {:induction false} WatchedThroughout(log: seq<Act>, n: nat)
    requires Watch(log).Some? && n <= |log|
    ensures Watch(log[..n]).Some?
    ensures
      var f := Watch(log[..n]).value;
      (f.mqtt ==> f.localStarted) && !(f.tcpServer && f.tcpClient) && f.externalStarted == f.mqtt
    decreases |log|
  {
    if n < |log| {
      WatchedThroughout(log[..|log| - 1], n);
      assert log[..|log| - 1][..n] == log[..n];
    } else {
      assert log[..n] == log;
      if log != [] {
        WatchedThroughout(log[..|log| - 1], |log| - 1);
        assert log[..|log| - 1][..|log| - 1] == log[..|log| - 1];
      }
    }
  }

  /** When the network goes down, UDP and both TCP sides are stopped, MQTT before them if it ran, and
      nothing else is called. */
  lemma DownStopsAll(p: Protocols, from: NetState, c: Config)
    requires Consistent(p) && Follows(p.flags, from) && from != Down
    ensures OnNetworkState(p, from, Down, c).log ==
            p.log + (if p.flags.mqtt then [MqttStop] else []) + [UdpKill, TcpClientStop, TcpServerStop]
  {
    hide PhaseOf, Watch;
  }

  /** Whatever runs when the change is reported, in step with the network or not: going down stops all
      that runs; a network reported up again gets its local protocols if they are missing; leaving the
      internet stops MQTT and nothing else; MQTT is tried only where there is none, and the external
      flag afterwards says whether there is one. */
  lemma WhateverRuns(p: Protocols, from: NetState, to: NetState, c: Config)
    ensures
      var q := OnNetworkState(p, from, to, c);
      && (from == to == Down ==> q == p)
      && (from != Down && to == Down ==>
            && q.flags == OFF
            && q.log == p.log + (if p.flags.externalStarted || p.flags.mqtt then [MqttStop] else [])
                        + (if p.flags.localStarted || p.flags.tcpServer || p.flags.tcpClient
                           then [UdpKill, TcpClientStop, TcpServerStop] else []))
      && (to != Down && (from == to || from == Down) ==> q.flags.localStarted)
      && (from == External && to == Local ==>
            && q.flags == p.flags.(externalStarted := false, mqtt := false)
            && q.log == p.log + if p.flags.externalStarted || p.flags.mqtt then [MqttStop] else [])
      && (to == Local && from != External ==>
            q.flags.mqtt == p.flags.mqtt && q.flags.externalStarted == p.flags.externalStarted)
      && (from == Local && to == External ==> q.flags.localStarted == p.flags.localStarted)
      && (to == External ==>
            var tried := !p.flags.externalStarted && c.nvsOk && c.mqttWanted && !p.flags.mqtt;
            && q.flags.mqtt == (p.flags.mqtt || (tried && c.mqttStarts))
            && q.flags.externalStarted == (p.flags.externalStarted || (c.nvsOk && q.flags.mqtt))
            && (MqttStart in q.log || MqttFailed in q.log <==> MqttStart in p.log || MqttFailed in p.log || tried))
  {
    assert p.log + [] == p.log && forall a: seq<Act> :: p.log + [] + a == p.log + a;
  }

  // ---------------------------------------------------------------- what the phases mean

  lemma {:induction false} NeverBroken(log: seq<Act>, n: nat, on: Act, off: Act)
    requires on != off && n <= |log| && PhaseOf(log, on, off) != Broken
    ensures PhaseOf(log[..n], on, off) != Broken
    decreases |log| - n
  {
    if n < |log| {
      NeverBroken(log, n + 1, on, off);
      assert log[..n + 1][..n] == log[..n];
    } else {
      assert log[..n] == log;
    }
  }

  lemma {:induction false} StaysUntil(log: seq<Act>, i: nat, n: nat, on: Act, off: Act)
    requires on != off && i <= n <= |log|
    requires forall k :: i <= k < n ==> log[k] != on && log[k] != off
    ensures PhaseOf(log[..n], on, off) == PhaseOf(log[..i], on, off)
    decreases n - i
  {
    if i < n {
      StaysUntil(log, i, n - 1, on, off);
      assert log[..n][..n - 1] == log[..n - 1];
    }
  }

  /** Between two occurrences of one act there is one of the other. */
  ghost predicate Separated(log: seq<Act>, act: Act, other: Act) {
    forall i, j :: 0 <= i < j < |log| && log[i] == log[j] == act ==> Occurs(log, i + 1, j, other)
  }

  ghost predicate Occurs(log: seq<Act>, from: int, to: int, act: Act) {
    exists k :: 0 <= from <= k < to <= |log| && log[k] == act
  }

  /** Strict alternation, read off the log: starts are separated by stops, stops by starts, and
      nothing is stopped before it was first started. */
  ghost predicate Alternates(log: seq<Act>, on: Act, off: Act) {
    && Separated(log, on, off)
    && Separated(log, off, on)
    && forall j :: 0 <= j < |log| && log[j] == off ==> Occurs(log, 0, j, on)
  }

  lemma UnbrokenSeparated(log: seq<Act>, on: Act, off: Act, act: Act, other: Act)
    requires on != off && PhaseOf(log, on, off) != Broken && act != other && {act, other} == {on, off}
    ensures Separated(log, act, other)
  {
    hide PhaseOf;
    forall i, j | 0 <= i < j < |log| && log[i] == log[j] == act
      ensures Occurs(log, i + 1, j, other)
    {
      var k := Between(log, i, j, on, off, act);
      assert log[k] in {act, other};
    }
  }

  lemma UnbrokenAlternates(log: seq<Act>, on: Act, off: Act)
    requires on != off && PhaseOf(log, on, off) != Broken
    ensures Alternates(log, on, off)
  {
    hide PhaseOf, Separated;
    UnbrokenSeparated(log, on, off, on, off);
    UnbrokenSeparated(log, on, off, off, on);
    forall j | 0 <= j < |log| && log[j] == off
      ensures Occurs(log, 0, j, on)
    {
      StoppedAfterStart(log, j, on, off);
    }
  }

  lemma StoppedAfterStart(log: seq<Act>, j: nat, on: Act, off: Act)
    requires on != off && PhaseOf(log, on, off) != Broken && j < |log| && log[j] == off
    ensures Occurs(log, 0, j, on)
  {
    NeverBroken(log, j + 1, on, off);
    assert log[..j + 1][..j] == log[..j];
    if forall i :: 0 <= i < j ==> log[i] != on {
      NeverStarted(log, j, on, off);
    }
  }

  lemma {:induction false} NeverStarted(log: seq<Act>, n: nat, on: Act, off: Act)
    requires on != off && n <= |log| && forall i :: 0 <= i < n ==> log[i] != on
    ensures PhaseOf(log[..n], on, off) != Running
    decreases n
  {
    if n > 0 {
      NeverStarted(log, n - 1, on, off);
      assert log[..n][..n - 1] == log[..n - 1];
    }
  }

  /** Two equal acts i < j with no opposite act in between would break the log. */
  lemma Between(log: seq<Act>, i: nat, j: nat, on: Act, off: Act, act: Act) returns (k: nat)
    requires on != off && PhaseOf(log, on, off) != Broken && i < j < |log|
    requires act in {on, off} && log[i] == log[j] == act
    ensures i < k < j && log[k] in {on, off} && log[k] != act
  {
    if k' :| i < k' < j && log[k'] in {on, off} && log[k'] != act {
      k := k';
    } else {
      var first := FirstSame(log, i, j, act);
      StaysUntil(log, i + 1, first, on, off);
      assert log[..i + 1][..i] == log[..i] && log[..first + 1][..first] == log[..first];
      NeverBroken(log, i + 1, on, off);
      NeverBroken(log, first + 1, on, off);
      assert false;
    }
  }

  lemma {:induction false} FirstSame(log: seq<Act>, i: nat, j: nat, act: Act) returns (first: nat)
    requires i < j < |log| && log[j] == act
    ensures i < first <= j && log[first] == act && forall k :: i < k < first ==> log[k] != act
  {
    first := i + 1;
    while log[first] != act
      invariant i < first <= j && forall k :: i < k < first ==> log[k] != act
      decreases j - first
    {
      first := first + 1;
    }
  }
}
