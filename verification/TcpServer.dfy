/** The TCP server's tasks over the client table: accept, client exit, heartbeat, broadcast, stop.

    Between two critical sections, and wherever a loop gives the lock back, an arbitrary script of
    other tasks' steps runs (`Interfere`); every result holds for every script. `send` may take any
    prefix of what it is given, ask to be called again, or fail; a finite list of its answers is an
    argument, and once it is used up the next call fails. */
module TcpServer {
  import opened Common
  import opened ClientTable
  import Hex

  /** Sent(n): the stack took min(n, offered) bytes; Again: EAGAIN or EWOULDBLOCK. */
  datatype SendResult = Sent(n: nat) | Again | Failed

  function Taken(r: SendResult, offered: nat): nat {
    if !r.Sent? then 0 else if r.n <= offered then r.n else offered
  }

  /** How much the first k answers let through when more is offered. */
  function Room(results: seq<SendResult>, k: nat): nat
    requires k <= |results|
  {
    if k == 0 then 0 else Room(results, k - 1) + if results[k - 1].Sent? then results[k - 1].n else 0
  }

  predicate NoneFailed(results: seq<SendResult>, k: nat)
    requires k <= |results|
  {
    forall j :: 0 <= j < k ==> !results[j].Failed?
  }

  /** `send` lets `left` bytes through before it fails. */
  ghost predicate Covers(results: seq<SendResult>, left: nat) {
    exists k: nat :: k <= |results| && NoneFailed(results, k) && Room(results, k) >= left
  }

  function HeartbeatPayload(packet: string, hexFormat: bool): seq<byte> {
    if !hexFormat then Hex.AsciiBytes(packet)
    else if Hex.ServerParse(packet, 128).Parsed? then Hex.ServerParse(packet, 128).data
    else []
  }

  /** What one `send` of a heartbeat gets across: a beginning of the packet. */
  function Beaten(packet: string, hexFormat: bool, r: SendResult): seq<Octet> {
    var payload := HeartbeatPayload(packet, hexFormat);
    if packet == "" then [] else Beating(payload[..Taken(r, |payload|)])
  }

  /** A packet that is not valid hex counts as a failed send with whatever errno was left behind. */
  predicate BeatOk(packet: string, hexFormat: bool, r: SendResult) {
    packet == "" || (if HeartbeatPayload(packet, hexFormat) == [] then r.Again? else !r.Failed?)
  }

  /** A plain packet goes out as it is written, a hex one as the bytes it is the print of; one that
      `hex_to_bin` refuses not at all. */
  lemma HeartbeatBytesMean(packet: string, bytes: seq<byte>)
    ensures |HeartbeatPayload(packet, false)| == |packet|
    ensures forall k :: 0 <= k < |packet| && packet[k] as int < 256 ==>
      HeartbeatPayload(packet, false)[k] as int == packet[k] as int
    ensures |bytes| <= 128 ==> HeartbeatPayload(Hex.Print(bytes), true) == bytes
    ensures Hex.ServerParse(packet, 128).Nothing? ==> HeartbeatPayload(packet, true) == []
  {
    hide Hex.ServerParse;
    forall k | 0 <= k < |packet| && packet[k] as int < 256
      ensures HeartbeatPayload(packet, false)[k] as int == packet[k] as int
    {
      Hex.TextBytes(packet, k);
    }
    if |bytes| <= 128 {
      Hex.ParsersReadPrint(bytes, 128);
    }
  }

  /** One call of `send`: as much as it says, all of it if it could take more; only an error other than
      being asked to call again costs the client its place. */
  lemma BeatMeans(packet: string, hexFormat: bool, r: SendResult)
    requires packet != ""
    ensures
      var payload := HeartbeatPayload(packet, hexFormat);
      && (!r.Sent? ==> Beaten(packet, hexFormat, r) == [])
      && (r.Sent? && r.n < |payload| ==> Beaten(packet, hexFormat, r) == Beating(payload[..r.n]))
      && (r.Sent? && r.n >= |payload| ==> Beaten(packet, hexFormat, r) == Beating(payload))
      && (payload != [] ==> (BeatOk(packet, hexFormat, r) <==> !r.Failed?))
      && (payload == [] ==> (BeatOk(packet, hexFormat, r) <==> r.Again?))
  {
    hide HeartbeatPayload;
    var payload := HeartbeatPayload(packet, hexFormat);
    assert payload[..|payload|] == payload;
  }

  // By slot: what its client is to get, and whether that goes well.

  function Whole(data: seq<byte>): nat -> seq<Octet> { (j: nat) => Tagged(data) }

  ghost function WholeTaken(data: seq<byte>, results: nat -> seq<SendResult>): nat -> bool {
    (j: nat) => Covers(results(j), |data|)
  }

  function Beginnings(packet: string, hexFormat: bool, results: nat -> SendResult): nat -> seq<Octet> {
    (j: nat) => Beaten(packet, hexFormat, results(j))
  }

  function BeatsTaken(packet: string, hexFormat: bool, results: nat -> SendResult): nat -> bool {
    (j: nat) => BeatOk(packet, hexFormat, results(j))
  }

  class Server {
    const clients: array<Slot>
    var tcpClientCount: int
    var cleanupQueue: seq<int>
    var client: seq<nat>
    var transit: map<int, nat>
    var open: set<int>
    var accepted: multiset<int>
    var handed: multiset<int>
    var closed: multiset<int>
    var rcvd: seq<seq<Octet>>

    ghost function View(): Table
      reads this, clients
    {
      Table(clients[..], client, tcpClientCount, cleanupQueue, transit, open, accepted, handed, closed, rcvd)
    }

    constructor ()
      ensures View() == EMPTY && fresh(clients)
    {
      clients := new Slot[MAX_CLIENTS](_ => FREE);
      tcpClientCount, cleanupQueue, client := 0, [], [0, 0, 0, 0, 0, 0];
      transit, open, accepted, handed, closed, rcvd := map[], {}, multiset{}, multiset{}, multiset{}, [];
      new;
      assert clients[..] == EMPTY.slots;
    }

    /** The other tasks' turn. */
    method Interfere(script: seq<Event>)
      requires Inv(View())
      modifies this, clients
      ensures View() == Run(old(View()), script)
    {
      RunKeeps(View(), script);
      hide Run, Inv, SlotsOk, Balanced;
      var s := Table(clients[..], client, tcpClientCount, cleanupQueue, transit, open, accepted, handed, closed, rcvd);
      var t := Run(s, script);
      assert |t.slots| == clients.Length by { SlotCounts(View(), t, script); }
      forall i | 0 <= i < clients.Length {
        clients[i] := t.slots[i];
      }
      assert clients[..] == t.slots;
      client, tcpClientCount, cleanupQueue, transit := t.client, t.count, t.queue, t.transit;
      open, accepted, handed, closed, rcvd := t.open, t.accepted, t.handed, t.closed, t.rcvd;
    }

    /** `safe_close_socket` */
    method SafeCloseSocket(fd: int)
      modifies this
      ensures View() == SafeClose(old(View()), fd)
    {
      if fd < 0 {
        return;
      }
      if fd !in open {
        return;
      }
      handed := handed + multiset{fd};
      if |cleanupQueue| < CLEANUP_QUEUE_SIZE {
        cleanupQueue := cleanupQueue + [fd];
      } else {
        open, closed := open - {fd}, closed + multiset{fd};
      }
    }

    /** The cleanup task's loop body. */
    method CleanOne()
      modifies this
      ensures forall task :: View() == Step(old(View()), Clean(task))
    {
      if |cleanupQueue| > 0 {
        var fd := cleanupQueue[0];
        cleanupQueue := cleanupQueue[1..];
        open, closed := open - {fd}, closed + multiset{fd};
      }
    }

    /** `add_client` for a socket task `me` has accepted. */
    method AddClient(me: nat, fd: int) returns (index: int)
      requires Inv(View()) && Held(View(), me, fd)
      modifies this, clients
      ensures View() == Step(old(View()), Add(me, fd)) && Inv(View())
      ensures index == (if old(View()).count == MAX_CLIENTS then -1 else FirstFree(old(clients[..]), 0))
    {
      StepKeeps(View(), Add(me, fd));
      FullIffCount(View());
      ghost var before := View();
      var i := 0;
      while i < MAX_CLIENTS
        invariant 0 <= i <= MAX_CLIENTS && View() == before
        invariant FirstFree(clients[..], i) == FirstFree(clients[..], 0)
      {
        if !clients[i].inUse {
          clients[i] := Slot(fd, true);
          client, rcvd := client[i := |rcvd|], rcvd + [[]];
          transit := transit - {fd};
          tcpClientCount := tcpClientCount + 1;
          assert View().slots == before.slots[i := Slot(fd, true)];
          return i;
        }
        i := i + 1;
      }
      index := -1;
    }

    /** Marks a slot free under the lock; the socket is the caller's to hand over. */
    method Unhook(me: nat, i: nat) returns (fd: int)
      requires Inv(View()) && i < MAX_CLIENTS && clients[i].inUse
      modifies this, clients
      ensures View() == Step(old(View()), Detach(me, i)) && Inv(View())
      ensures fd == old(clients[i].sock) && Held(View(), me, fd)
      ensures clients[..] == old(clients[..])[i := FREE]
      ensures forall x :: Held(View(), me, x) <==> Held(old(View()), me, x) || x == fd
    {
      StepKeeps(View(), Detach(me, i));
      fd := clients[i].sock;
      ghost var before := View();
      clients[i] := FREE;
      tcpClientCount := tcpClientCount - 1;
      transit := transit[fd := me];
      assert View().slots == before.slots[i := FREE];
    }

    /** Gives the lock back, lets others run, hands the socket over, lets others run, and has the
        lock again. */
    method CloseUnlocked(me: nat, fd: int, gap: seq<Event>, gap': seq<Event>, w: Traffic)
      requires Inv(View()) && Held(View(), me, fd) && Foreign(gap, me, w) && Foreign(gap', me, w)
      modifies this, clients
      ensures Inv(View()) && Undisturbed(old(View()), View(), w)
      ensures View().handed[fd] > old(View()).handed[fd]
      ensures forall x :: Held(View(), me, x) <==> Held(old(View()), me, x) && x != fd
      ensures gap == gap' == [] ==> clients[..] == old(clients[..])
    {
      hide Run, Inv, Undisturbed, SafeClose;
      ghost var s := View();
      OthersDisturbNobody(s, gap, me, w);
      NothingRun(s);
      Interfere(gap);
      ghost var t := View();
      assert Held(t, me, fd);
      transit := transit - {fd};
      SafeCloseSocket(fd);
      ghost var u := View();
      HandOverDisturbsNobody(t, fd, me, w);
      UndisturbedJoin(s, t, u, w);
      OthersDisturbNobody(u, gap', me, w);
      NothingRun(u);
      Interfere(gap');
      HandedLater(s, t, u, View(), fd, w);
      UndisturbedJoin(s, u, View(), w);
    }

    /** What broadcast and heartbeat do with a client whose socket failed. */
    method DropClient(me: nat, i: nat, gap: seq<Event>, gap': seq<Event>, w: Traffic)
      requires Inv(View()) && (forall x :: !Held(View(), me, x)) && i < MAX_CLIENTS && clients[i].inUse
      requires Foreign(gap, me, w) && Foreign(gap', me, w)
      modifies this, clients
      ensures Inv(View()) && (forall x :: !Held(View(), me, x))
      ensures Undisturbed(Step(old(View()), Detach(me, i)), View(), w)
      ensures gap == gap' == [] ==> clients[..] == old(clients[..])[i := FREE]
    {
      hide Balanced, Held, Undisturbed, Step;
      var fd := Unhook(me, i);
      CloseUnlocked(me, fd, gap, gap', w);
    }

    /** The end of a slot's turn in a pass that started in s0: a client with whom sending failed goes. */
    method AfterSend(me: nat, i: nat, failed: bool, gap: seq<Event>, gap': seq<Event>, w: Traffic,
                     ghost s0: Table, ghost s: Table, ghost piece: nat -> seq<Octet>, ghost part: seq<Octet>)
      requires Inv(s) && i < MAX_CLIENTS && s.slots[i].inUse && (forall x :: !Held(s, me, x))
      requires Served(s0, s, i, piece, w) && (!failed ==> part == piece(i))
      requires View() == Grow(s, i, part) && Inv(View())
      requires Foreign(gap, me, w) && Foreign(gap', me, w)
      modifies this, clients
      ensures Inv(View()) && (forall x :: !Held(View(), me, x))
      ensures Served(s0, View(), i + 1, piece, w)
      ensures gap == gap' == [] ==> clients[..] == if failed then s.slots[i := FREE] else s.slots
    {
      GrowHoldings(s, i, part, me);
      assert View().slots == s.slots;
      hide Balanced, Held, Undisturbed, Served, Step, Grow;
      if failed {
        ghost var cut := View();
        UnhookedServed(s0, s, cut, Step(cut, Detach(me, i)), i, piece, part, me, w);
        DropClient(me, i, gap, gap', w);
        StaysServed(s0, Step(cut, Detach(me, i)), View(), i + 1, piece, w);
      } else {
        SlotServed(s0, s, View(), i, piece, w);
      }
    }

    /** The end of `remove_client` and the like: the socket leaves the task's hands. */
    method HandOver(me: nat, fd: int)
      requires Inv(View()) && Held(View(), me, fd)
      modifies this
      ensures View() == Step(old(View()), HandOff(me, fd)) && Inv(View())
      ensures View().handed[fd] == old(View()).handed[fd] + 1
    {
      HandOffKeeps(View(), fd);
      hide Balanced, SafeClose;
      transit := transit - {fd};
      SafeCloseSocket(fd);
    }

    /** `remove_client` */
    method RemoveClient(me: nat, index: int, gap: seq<Event>)
      requires Inv(View()) && Foreign(gap, me, Anything)
      modifies this, clients
      ensures Inv(View())
      ensures
        var s := old(View());
        if 0 <= index < MAX_CLIENTS && s.slots[index].inUse then
          View() == Step(Run(Step(s, Detach(me, index)), gap), HandOff(me, s.slots[index].sock))
          && View().handed[s.slots[index].sock] == Run(Step(s, Detach(me, index)), gap).handed[s.slots[index].sock] + 1
        else View() == s
    {
      if index < 0 || index >= MAX_CLIENTS {
        return;
      }
      hide Run, Inv, Undisturbed, Step, Balanced, SafeClose;
      if clients[index].inUse {
        var fd := Unhook(me, index);
        ghost var s := View();
        OthersDisturbNobody(s, gap, me, Anything);
        Interfere(gap);
        HandOver(me, fd);
      }
    }

    /** `send_to_client`: tot bytes of data reach the client before the call ends, k answers later. */
    method SendToClient(i: nat, data: seq<byte>, results: seq<SendResult>)
      returns (sent: int, ghost tot: nat, ghost k: nat)
      requires Inv(View()) && i < MAX_CLIENTS && clients[i].inUse
      modifies this`rcvd
      ensures k <= |results| && NoneFailed(results, k)
      ensures tot == if Room(results, k) <= |data| then Room(results, k) else |data|
      ensures if Covers(results, |data|) then sent == tot == |data|
              else sent == -1 && tot < |data| && (k == |results| || results[k].Failed?)
      ensures View() == Grow(old(View()), i, Tagged(data[..tot])) && Inv(View())
    {
      hide Balanced;
      ghost var s := View();
      var totalSent, call := 0, 0;
      assert Tagged(data[..0]) == [];
      GrowTwice(s, i, [], []);
      while totalSent < |data|
        invariant 0 <= totalSent <= |data| && 0 <= call <= |results|
        invariant client == s.client && |rcvd| == |s.rcvd|
        invariant NoneFailed(results, call)
        invariant totalSent == if Room(results, call) <= |data| then Room(results, call) else |data|
        invariant View() == Grow(s, i, Tagged(data[..totalSent]))
        decreases |results| - call
      {
        if call == |results| || results[call].Failed? {
          GivesUp(results, call, |data|);
          GrowKeeps(s, i, Tagged(data[..totalSent]));
          return -1, totalSent, call;
        }
        if results[call].Sent? {
          var written := Taken(results[call], |data| - totalSent);
          var taken := Tagged(data[totalSent..totalSent + written]);
          GrowTwice(s, i, Tagged(data[..totalSent]), taken);
          assert Tagged(data[..totalSent + written]) == Tagged(data[..totalSent]) + taken;
          Receive(i, taken);
          totalSent := totalSent + written;
        }
        call := call + 1;
      }
      GrowKeeps(s, i, Tagged(data[..totalSent]));
      return totalSent, totalSent, call;
    }

    /** `close_all_clients`: empties the table under the lock, then hands the sockets over one by one
        while the others run. Without the lock it does nothing. */
    method CloseAllClients(me: nat, locked: bool, gaps: nat -> seq<Event>)
      requires Inv(View()) && (forall fd :: !Held(View(), me, fd))
      requires forall i :: Foreign(gaps(i), me, Anything)
      modifies this, clients
      ensures Inv(View()) && forall fd :: !Held(View(), me, fd)
      ensures !locked ==> View() == old(View())
      ensures Undisturbed(old(View()), View(), Anything)
      ensures locked ==> forall j :: 0 <= j < MAX_CLIENTS && clients[j].inUse ==> client[j] >= |old(rcvd)|
      ensures locked ==> forall j :: 0 <= j < MAX_CLIENTS && old(clients[j].inUse) ==>
        handed[old(clients[j].sock)] > old(handed)[old(clients[j].sock)]
    {
      hide Balanced, Held, Only, Run, SafeClose;
      ghost var s0 := View();
      NoChange(s0, Anything);
      if !locked {
        return;
      }
      var sockets := UnhookAll(me);
      ghost var s := View();
      NoChange(s, Anything);
      var i := 0;
      while i < |sockets|
        invariant 0 <= i <= |sockets| && Inv(View())
        invariant Undisturbed(s, View(), Anything)
        invariant forall fd :: Held(View(), me, fd) <==> fd in sockets[i..]
        invariant forall j, k :: 0 <= j < k < |sockets| ==> sockets[j] != sockets[k]
        invariant forall j :: 0 <= j < i ==> View().handed[sockets[j]] > s.handed[sockets[j]]
      {
        ghost var t := View();
        assert sockets[i] in sockets[i..] && sockets[i..][1..] == sockets[i + 1..];
        CloseUnlocked(me, sockets[i], [], gaps(i), Anything);
        HandedStays(s, t, View(), sockets, i);
        UndisturbedJoin(s, t, View(), Anything);
        assert forall fd :: fd in sockets[i + 1..] <==> fd in sockets[i..] && fd != sockets[i];
        i := i + 1;
      }
      UndisturbedJoin(s0, s, View(), Anything);
    }

    /** The critical section of `close_all_clients`. */
    method UnhookAll(me: nat) returns (sockets: seq<int>)
      requires Inv(View()) && (forall fd :: !Held(View(), me, fd))
      modifies this, clients
      ensures View() == Step(old(View()), DetachAll(me)) && Inv(View()) && View().count == 0
      ensures forall fd :: Held(View(), me, fd) <==> fd in sockets
      ensures forall j, k :: 0 <= j < k < |sockets| ==> sockets[j] != sockets[k]
      ensures Undisturbed(old(View()), View(), Anything) && handed == old(handed)
      ensures forall j :: 0 <= j < MAX_CLIENTS ==> !clients[j].inUse
      ensures forall j :: 0 <= j < MAX_CLIENTS && old(clients[j].inUse) ==> old(clients[j].sock) in sockets
    {
      hide Balanced, Held, Undisturbed, TakeAll, Take, InUse;
      ghost var s := View();
      sockets := [];
      StepKeeps(s, DetachAll(me));
      TakeAllKeeps(s, me, 0);
      NoChange(s, Anything);
      for i := 0 to MAX_CLIENTS
        invariant Inv(View()) && TakeAll(View(), me, i) == TakeAll(s, me, 0)
        invariant Undisturbed(s, View(), Anything) && handed == s.handed
        invariant Emptied(s.slots, clients[..], i, sockets)
        invariant forall fd :: Held(View(), me, fd) <==> fd in sockets
        invariant forall j, k :: 0 <= j < k < |sockets| ==> sockets[j] != sockets[k]
      {
        ghost var t := View();
        TakeAllStep(t, me, i);
        if clients[i].inUse && clients[i].sock >= 0 {
          NewlyHeld(t, me, i);
          TakeDisturbsNobody(t, me, i, me + 1, Anything);
          TakeParts(t, me, i);
          var fd := Unhook(me, i);
          UndisturbedJoin(s, t, View(), Anything);
          EmptiedNext(s.slots, t.slots, i, sockets);
          sockets := sockets + [fd];
        } else {
          EmptiedSkip(s.slots, t.slots, i, sockets);
        }
      }
      TakeAllStep(View(), me, MAX_CLIENTS);
      tcpClientCount := 0;
    }

    /** One slot of a broadcast that started in s0. */
    method BroadcastTo(me: nat, i: nat, data: seq<byte>, results: seq<SendResult>,
                       gap: (seq<Event>, seq<Event>), ghost s0: Table)
      requires Inv(View()) && (forall fd :: !Held(View(), me, fd)) && i < MAX_CLIENTS
      requires Served(s0, View(), i, Whole(data), Heartbeats)
      requires Foreign(gap.0, me, Heartbeats) && Foreign(gap.1, me, Heartbeats)
      modifies this, clients
      ensures Inv(View()) && forall fd :: !Held(View(), me, fd)
      ensures Served(s0, View(), i + 1, Whole(data), Heartbeats)
      ensures gap == ([], []) ==>
        clients[..] == if old(clients[i].inUse) && !Covers(results, |data|) then old(clients[..])[i := FREE]
                       else old(clients[..])
    {
      hide Balanced, Held, Undisturbed, Served, Step, Run, Room, NoneFailed, Covers;
      ghost var s := View();
      if clients[i].inUse && clients[i].sock >= 0 {
        var sent, tot, _ := SendToClient(i, data, results);
        assert sent >= 0 ==> data[..tot] == data;
        AfterSend(me, i, sent < 0, gap.0, gap.1, Heartbeats, s0, s, Whole(data), Tagged(data[..tot]));
      } else {
        EmptySlotServed(s0, s, i, Whole(data), Heartbeats);
      }
    }

    /** `broadcast_to_all_clients`, called with the lock held; `results[i]` are the answers of `send`
        for slot i, `gaps[i]` the two spells without the lock if slot i fails. Every client in the
        table before and after got the payload exactly once, unbroken; if nobody else ran meanwhile,
        exactly those are gone for whom `send` gave up. */
    method BroadcastToAllClients(me: nat, data: seq<byte>, results: nat -> seq<SendResult>,
                                 gaps: nat -> (seq<Event>, seq<Event>))
      requires Inv(View()) && (forall fd :: !Held(View(), me, fd))
      requires forall i :: Foreign(gaps(i).0, me, Heartbeats) && Foreign(gaps(i).1, me, Heartbeats)
      modifies this, clients
      ensures Inv(View()) && forall fd :: !Held(View(), me, fd)
      ensures Served(old(View()), View(), MAX_CLIENTS, Whole(data), Heartbeats)
      ensures Alone(gaps) ==> Survivors(old(clients[..]), clients[..], MAX_CLIENTS, WholeTaken(data, results))
    {
      ghost var piece, ok := Whole(data), WholeTaken(data, results);
      ghost var s0 := View();
      ServedAtStart(s0, piece, Heartbeats);
      SurvivorsAtStart(s0.slots, ok);
      hide Balanced, Held, Undisturbed, Served, Survivors, Step, Run, Covers;
      for i := 0 to MAX_CLIENTS
        invariant Inv(View()) && forall fd :: !Held(View(), me, fd)
        invariant Served(s0, View(), i, piece, Heartbeats)
        invariant Alone(gaps) ==> Survivors(s0.slots, clients[..], i, ok)
      {
        ghost var s := View();
        SurvivorsNext(s0.slots, s.slots, i, ok);
        BroadcastTo(me, i, data, results(i), gaps(i), s0);
      }
    }

    /** One slot of a heartbeat round that started in s0. */
    method HeartbeatTo(me: nat, i: nat, packet: string, hexFormat: bool, result: SendResult,
                       gap: (seq<Event>, seq<Event>), ghost s0: Table, ghost piece: nat -> seq<Octet>)
      requires Inv(View()) && (forall fd :: !Held(View(), me, fd)) && i < MAX_CLIENTS
      requires Served(s0, View(), i, piece, Payloads) && piece(i) == Beaten(packet, hexFormat, result)
      requires Foreign(gap.0, me, Payloads) && Foreign(gap.1, me, Payloads)
      modifies this, clients
      ensures Inv(View()) && forall fd :: !Held(View(), me, fd)
      ensures Served(s0, View(), i + 1, piece, Payloads)
      ensures gap == ([], []) ==>
        clients[..] == if old(clients[i].inUse) && !BeatOk(packet, hexFormat, result) then old(clients[..])[i := FREE]
                       else old(clients[..])
    {
      hide Balanced, Held, Undisturbed, Served, Step, Run, HeartbeatPayload, Beaten, BeatOk;
      ghost var s := View();
      if clients[i].inUse && clients[i].sock >= 0 {
        var failed := SendHeartbeat(i, packet, hexFormat, result);
        AfterSend(me, i, failed, gap.0, gap.1, Payloads, s0, s, piece, piece(i));
      } else {
        EmptySlotServed(s0, s, i, piece, Payloads);
      }
    }

    /** One round of `tcp_server_heartbeat_task`: a single `send` per client, which may be cut short.
        Every client in the table before and after got one beginning of the packet, as long as `send`
        took it, unbroken among whatever broadcasts sent meanwhile. */
    method HeartbeatRound(me: nat, packet: string, hexFormat: bool, results: nat -> SendResult,
                          gaps: nat -> (seq<Event>, seq<Event>))
      requires Inv(View()) && (forall fd :: !Held(View(), me, fd))
      requires forall i :: Foreign(gaps(i).0, me, Payloads) && Foreign(gaps(i).1, me, Payloads)
      modifies this, clients
      ensures Inv(View()) && forall fd :: !Held(View(), me, fd)
      ensures Served(old(View()), View(), MAX_CLIENTS, Beginnings(packet, hexFormat, results), Payloads)
      ensures Alone(gaps) ==>
        Survivors(old(clients[..]), clients[..], MAX_CLIENTS, BeatsTaken(packet, hexFormat, results))
    {
      ghost var piece, ok := Beginnings(packet, hexFormat, results), BeatsTaken(packet, hexFormat, results);
      ghost var s0 := View();
      ServedAtStart(s0, piece, Payloads);
      SurvivorsAtStart(s0.slots, ok);
      hide Balanced, Held, Undisturbed, Served, Survivors, Step, Run, HeartbeatPayload, Beaten, BeatOk;
      for i := 0 to MAX_CLIENTS
        invariant Inv(View()) && forall fd :: !Held(View(), me, fd)
        invariant Served(s0, View(), i, piece, Payloads)
        invariant Alone(gaps) ==> Survivors(s0.slots, clients[..], i, ok)
      {
        ghost var s := View();
        SurvivorsNext(s0.slots, s.slots, i, ok);
        HeartbeatTo(me, i, packet, hexFormat, results(i), gaps(i), s0, piece);
      }
    }

    /** The heartbeat to one client; an empty packet is not sent. */
    method SendHeartbeat(i: nat, packet: string, hexFormat: bool, result: SendResult) returns (failed: bool)
      requires Inv(View()) && i < MAX_CLIENTS && clients[i].inUse
      modifies this`rcvd
      ensures View() == Grow(old(View()), i, Beaten(packet, hexFormat, result)) && Inv(View())
      ensures failed == !BeatOk(packet, hexFormat, result)
    {
      hide Balanced, HeartbeatPayload;
      GrowKeeps(View(), i, Beaten(packet, hexFormat, result));
      GrowTwice(View(), i, [], []);
      if |packet| == 0 {
        return false;
      }
      var payload := HeartbeatBytes(packet, hexFormat);
      if |payload| == 0 {
        assert Beaten(packet, hexFormat, result) == [];
        failed := !result.Again?;
      } else {
        failed := result.Failed?;
        var written := Taken(result, |payload|);
        Receive(i, Beating(payload[..written]));
      }
    }

    /** The packet as bytes: through `hex_to_bin` into 128 bytes, or as it is. */
    method HeartbeatBytes(packet: string, hexFormat: bool) returns (payload: seq<byte>)
      ensures payload == HeartbeatPayload(packet, hexFormat)
    {
      if !hexFormat {
        return Hex.AsciiBytes(packet);
      }
      var bin := new byte[128];
      var n := Hex.ServerHexToBin(packet, bin, 128);
      payload := bin[..n];
    }

    /** Bytes the stack accepts from `send` on the socket in slot i. */
    method Receive(i: nat, octets: seq<Octet>)
      requires i < |client| && client[i] < |rcvd|
      modifies this`rcvd
      ensures View() == Grow(old(View()), i, octets)
    {
      rcvd := rcvd[client[i] := rcvd[client[i]] + octets];
    }
  }

  lemma {:induction false} RoomGrows(results: seq<SendResult>, j: nat, k: nat)
    requires j <= k <= |results|
    ensures Room(results, j) <= Room(results, k)
  {
    if j < k {
      RoomGrows(results, j, k - 1);
    }
  }

  lemma GivesUp(results: seq<SendResult>, call: nat, left: nat)
    requires call <= |results| && (call == |results| || results[call].Failed?)
    requires Room(results, call) < left
    ensures !Covers(results, left)
  {
    forall k: nat | k <= |results| && NoneFailed(results, k) ensures Room(results, k) < left {
      RoomGrows(results, k, call);
    }
  }

  lemma {:induction false} RoomOfJoin(a: seq<SendResult>, b: seq<SendResult>, k: nat)
    requires |a| <= k <= |a| + |b|
    ensures Room(a + b, k) == Room(a, |a|) + Room(b, k - |a|)
    decreases k
  {
    if k > |a| {
      RoomOfJoin(a, b, k - 1);
    } else {
      RoomOfPart(a, b, k);
    }
  }

  lemma {:induction false} RoomOfPart(a: seq<SendResult>, b: seq<SendResult>, k: nat)
    requires k <= |a|
    ensures Room(a + b, k) == Room(a, k)
  {
    if k > 0 {
      RoomOfPart(a, b, k - 1);
    }
  }

  /** Being asked to call again, whenever and however often, loses no client and no byte. */
  lemma {:induction false} AgainIgnored(a: seq<SendResult>, b: seq<SendResult>, left: nat)
    ensures Covers(a + [Again] + b, left) <==> Covers(a + b, left)
  {
    hide Room, NoneFailed;
    var with, without := a + [Again] + b, a + b;
    forall k: nat | k <= |without| && NoneFailed(without, k) && Room(without, k) >= left ensures Covers(with, left) {
      EarlyAgain(a, b, k);
      LateAgain(a, b, k);
      assert k <= |a| ==> NoneFailed(with, k);
      assert k >= |a| ==> NoneFailed(with, k + 1);
    }
    forall k: nat | k <= |with| && NoneFailed(with, k) && Room(with, k) >= left ensures Covers(without, left) {
      EarlyAgain(a, b, k);
      if k > |a| {
        LateAgain(a, b, k - 1);
        assert NoneFailed(without, k - 1);
      }
    }
  }

  lemma EarlyAgain(a: seq<SendResult>, b: seq<SendResult>, k: nat)
    ensures k <= |a| ==>
      && Room(a + [Again] + b, k) == Room(a + b, k)
      && (NoneFailed(a + [Again] + b, k) <==> NoneFailed(a + b, k))
  {
    if k <= |a| {
      assert a + [Again] + b == a + ([Again] + b);
      RoomOfPart(a, b, k);
      RoomOfPart(a, [Again] + b, k);
    }
  }

  lemma LateAgain(a: seq<SendResult>, b: seq<SendResult>, k: nat)
    requires k <= |a| + |b|
    ensures k >= |a| ==>
      && Room(a + [Again] + b, k + 1) == Room(a + b, k)
      && (NoneFailed(a + [Again] + b, k + 1) <==> NoneFailed(a + b, k))
  {
    if k >= |a| {
      RoomWithAgain(a, b, k);
      var with, without := a + [Again] + b, a + b;
      if NoneFailed(with, k + 1) {
        forall j | 0 <= j < k ensures !without[j].Failed? {
          assert without[j] == with[if j < |a| then j else j + 1];
        }
      }
      if NoneFailed(without, k) {
        forall j | 0 <= j < k + 1 ensures !with[j].Failed? {
          if j != |a| { assert with[j] == without[if j < |a| then j else j - 1]; }
        }
      }
    }
  }

  lemma RoomWithAgain(a: seq<SendResult>, b: seq<SendResult>, k: nat)
    requires |a| <= k <= |a| + |b|
    ensures Room(a + [Again] + b, k + 1) == Room(a + b, k)
  {
    RoomOfJoin(a, b, k);
    RoomOfJoin(a + [Again], b, k + 1);
    RoomOfJoin(a, [Again], |a| + 1);
    assert Room([Again], 1) == Room([Again], 0) == 0;
  }

  lemma {:induction false} SlotCounts(s: Table, t: Table, script: seq<Event>)
    requires Inv(s) && t == Run(s, script)
    ensures |t.slots| == |s.slots|
  {
    RunKeeps(s, script);
  }

  lemma FullIffCount(s: Table)
    requires Inv(s)
    ensures FirstFree(s.slots, 0) == MAX_CLIENTS <==> s.count == MAX_CLIENTS
  {
    UseBound(s.slots);
  }

  lemma {:induction false} UseBound(slots: seq<Slot>)
    ensures InUse(slots) <= |slots|
    ensures InUse(slots) == |slots| <==> forall i :: 0 <= i < |slots| ==> slots[i].inUse
    decreases |slots|
  {
    if slots != [] {
      UseBound(slots[..|slots| - 1]);
    }
  }

  lemma HandOverDisturbsNobody(s: Table, fd: int, me: nat, w: Traffic)
    requires Inv(s) && Held(s, me, fd)
    ensures
      var t := SafeClose(s.(transit := s.transit - {fd}), fd);
      && Undisturbed(s, t, w) && Inv(t) && t.handed[fd] > s.handed[fd] && t.slots == s.slots
      && forall x :: Held(t, me, x) <==> Held(s, me, x) && x != fd
  {
    hide Only, Balanced;
    HandOffKeeps(s, fd);
    NoChange(s, w);
  }

  lemma NothingRun(s: Table)
    ensures Run(s, []) == s
  {
  }

  lemma HandedLater(s: Table, t: Table, u: Table, v: Table, fd: int, w: Traffic)
    requires Undisturbed(s, t, w) && Undisturbed(u, v, w) && u.handed[fd] > t.handed[fd]
    ensures v.handed[fd] > s.handed[fd]
  {
    hide Only;
    assert s.handed <= t.handed && u.handed <= v.handed;
  }

  lemma HandedStays(s: Table, t: Table, u: Table, sockets: seq<int>, i: nat)
    requires i < |sockets| && Undisturbed(s, t, Anything) && Undisturbed(t, u, Anything)
    requires forall j :: 0 <= j < i ==> t.handed[sockets[j]] > s.handed[sockets[j]]
    requires u.handed[sockets[i]] > t.handed[sockets[i]]
    ensures forall j :: 0 <= j < i + 1 ==> u.handed[sockets[j]] > s.handed[sockets[j]]
  {
    hide Only;
    assert s.handed <= t.handed && t.handed <= u.handed;
    forall j | 0 <= j < i + 1 ensures u.handed[sockets[j]] > s.handed[sockets[j]] {
      assert u.handed[sockets[j]] >= t.handed[sockets[j]] >= s.handed[sockets[j]];
    }
  }

  /** How far the emptying of a table has come: slots below i are free, their sockets listed. */
  ghost predicate Emptied(before: seq<Slot>, now: seq<Slot>, i: nat, sockets: seq<int>) {
    && |before| == |now|
    && (forall j :: 0 <= j < |now| && j < i ==> !now[j].inUse)
    && (forall j :: 0 <= j < |before| && j < i && before[j].inUse ==> before[j].sock in sockets)
    && (forall j :: i <= j < |now| ==> now[j] == before[j])
  }

  lemma EmptiedNext(before: seq<Slot>, now: seq<Slot>, i: nat, sockets: seq<int>)
    requires Emptied(before, now, i, sockets) && i < |now|
    ensures Emptied(before, now[i := FREE], i + 1, sockets + [now[i].sock])
  {
  }

  lemma EmptiedSkip(before: seq<Slot>, now: seq<Slot>, i: nat, sockets: seq<int>)
    requires Emptied(before, now, i, sockets) && i < |now| && !now[i].inUse
    ensures Emptied(before, now, i + 1, sockets)
  {
  }

  lemma TakeParts(s: Table, me: nat, i: nat)
    requires i < |s.slots|
    ensures Take(s, me, i).handed == s.handed && Take(s, me, i).slots == s.slots[i := FREE]
  {
  }

  /** No other task ran in any of the gaps. */
  ghost predicate Alone(gaps: nat -> (seq<Event>, seq<Event>)) {
    forall i :: gaps(i) == ([], [])
  }

  /** Slots below i are done: exactly the clients with whom it did not go well are out. */
  ghost predicate Survivors(before: seq<Slot>, now: seq<Slot>, i: nat, ok: nat -> bool) {
    && |before| == |now|
    && forall j: nat :: j < |now| ==> now[j] == if j < i && before[j].inUse && !ok(j) then FREE else before[j]
  }

  lemma SurvivorsAtStart(slots: seq<Slot>, ok: nat -> bool)
    ensures Survivors(slots, slots, 0, ok)
  {
  }

  lemma SurvivorsNext(before: seq<Slot>, now: seq<Slot>, i: nat, ok: nat -> bool)
    requires i < |now|
    ensures Survivors(before, now, i, ok) ==>
      && (!now[i].inUse || ok(i) ==> Survivors(before, now, i + 1, ok))
      && (now[i].inUse && !ok(i) ==> Survivors(before, now[i := FREE], i + 1, ok))
  {
  }

  /** How far a pass that started in s0 has come when slots below i are done: each of their clients that
      was there from the start got its piece once, the others nothing yet. */
  ghost predicate Served(s0: Table, s: Table, i: nat, piece: nat -> seq<Octet>, w: Traffic) {
    && |s0.rcvd| <= |s.rcvd|
    && |s0.slots| == |s0.client| == |s.slots| == |s.client|
    && forall j: nat :: j < |s.slots| && s.slots[j].inUse && s.client[j] < |s0.rcvd| ==>
         && s0.slots[j] == s.slots[j]
         && s0.client[j] == s.client[j]
         && (if j < i then Got(s0.rcvd[s.client[j]], s.rcvd[s.client[j]], piece(j), w)
             else Only(s0.rcvd[s.client[j]], s.rcvd[s.client[j]], w))
  }

  lemma ServedAtStart(s0: Table, piece: nat -> seq<Octet>, w: Traffic)
    requires Inv(s0)
    ensures Served(s0, s0, 0, piece, w)
  {
    hide Balanced, Only;
    NoChange(s0, w);
  }

  lemma EmptySlotServed(s0: Table, s: Table, i: nat, piece: nat -> seq<Octet>, w: Traffic)
    requires Served(s0, s, i, piece, w) && i < |s.slots| && !s.slots[i].inUse
    ensures Served(s0, s, i + 1, piece, w)
  {
    hide Got, Only;
  }

  lemma SameSlice<T>(b: seq<T>, c: seq<T>, from: nat, to: nat)
    requires from <= to <= |b| <= |c| && c[..|b|] == b
    ensures c[from..to] == b[from..to] && c[..to] == b[..to]
  {
    forall k | 0 <= k < to ensures c[k] == b[k] {
      assert c[..|b|][k] == c[k];
    }
  }

  lemma OthersAfterGot(a: seq<Octet>, b: seq<Octet>, c: seq<Octet>, piece: seq<Octet>, w: Traffic)
    requires Got(a, b, piece, w) && Only(b, c, w)
    ensures Got(a, c, piece, w)
  {
    hide Fits;
    var n: nat :| GotAt(a, b, piece, w, n);
    assert GotAt(a, b, piece, w, n);
    assert n + |piece| <= |b| <= |c| && c[..|b|] == b;
    SameSlice(b, c, 0, n);
    SameSlice(b, c, n, n + |piece|);
    forall k | n + |piece| <= k < |c| ensures Fits(c[k], w) {
      if k < |b| { assert c[k] == b[k]; }
    }
    assert GotAt(a, c, piece, w, n);
  }

  lemma StaysServed(s0: Table, s: Table, t: Table, i: nat, piece: nat -> seq<Octet>, w: Traffic)
    requires Served(s0, s, i, piece, w) && Undisturbed(s, t, w)
    ensures Served(s0, t, i, piece, w)
  {
    hide Got, Only;
    forall j: nat | j < |t.slots| && t.slots[j].inUse && t.client[j] < |s0.rcvd|
      ensures s0.slots[j] == t.slots[j] && s0.client[j] == t.client[j]
      ensures if j < i then Got(s0.rcvd[t.client[j]], t.rcvd[t.client[j]], piece(j), w)
              else Only(s0.rcvd[t.client[j]], t.rcvd[t.client[j]], w)
    {
      var c := t.client[j];
      assert s.slots[j] == t.slots[j] && s.client[j] == c;
      if j < i {
        OthersAfterGot(s0.rcvd[c], s.rcvd[c], t.rcvd[c], piece(j), w);
      } else {
        OnlyJoin(s0.rcvd[c], s.rcvd[c], t.rcvd[c], w);
      }
    }
  }

  lemma PieceAfterOthers(a: seq<Octet>, b: seq<Octet>, piece: seq<Octet>, w: Traffic)
    requires Only(a, b, w)
    ensures Got(a, b + piece, piece, w)
  {
    hide Fits;
    var c := b + piece;
    assert c[..|b|] == b && c[|b|..|b| + |piece|] == piece;
    assert GotAt(a, c, piece, w, |b|);
  }

  lemma SlotServed(s0: Table, s: Table, t: Table, i: nat, piece: nat -> seq<Octet>, w: Traffic)
    requires Inv(s) && Served(s0, s, i, piece, w) && i < |s.slots| && s.slots[i].inUse
    requires t == Grow(s, i, piece(i))
    ensures Served(s0, t, i + 1, piece, w)
  {
    hide Got, Only, Balanced;
    if s.client[i] < |s0.rcvd| {
      PieceAfterOthers(s0.rcvd[s.client[i]], s.rcvd[s.client[i]], piece(i), w);
    }
  }

  /** A client that fails half-way leaves the table; nobody else is touched. */
  lemma UnhookedServed(s0: Table, s: Table, cut: Table, t: Table, i: nat, piece: nat -> seq<Octet>,
                       part: seq<Octet>, me: nat, w: Traffic)
    requires Inv(s) && Served(s0, s, i, piece, w) && i < |s.slots| && s.slots[i].inUse
    requires cut == Grow(s, i, part) && t == Step(cut, Detach(me, i))
    ensures Served(s0, t, i + 1, piece, w)
  {
    hide Got, Only, Balanced;
  }

  lemma TakeAllStep(s: Table, me: nat, i: nat)
    requires i <= |s.slots|
    ensures i == |s.slots| ==> TakeAll(s, me, i) == s
    ensures i < |s.slots| ==>
      TakeAll(s, me, i) ==
      TakeAll(if s.slots[i].inUse && s.slots[i].sock >= 0 then Take(s, me, i) else s, me, i + 1)
  {
  }

  /** A socket in the table is not in any task's hands. */
  lemma NewlyHeld(s: Table, me: nat, i: nat)
    requires Inv(s) && i < |s.slots| && s.slots[i].inUse
    ensures !Held(s, me, s.slots[i].sock)
  {
    LiveSockets(s, i, i);
  }

  lemma GrowHoldings(s: Table, i: nat, octets: seq<Octet>, me: nat)
    requires i < |s.client| && s.client[i] < |s.rcvd|
    ensures SameHoldings(s, Grow(s, i, octets), me)
  {
  }
}
