/** The TCP server's client table as a state machine: six slots, a shared counter, and the way a
    socket takes from accept to close. Every step below is atomic in the firmware because it runs
    under `clients_mutex` or touches only a task's own variables; runs interleave the steps of all
    tasks freely. */
module ClientTable {
  import opened Common

  const MAX_CLIENTS := 6
  const CLEANUP_QUEUE_SIZE := 10

  datatype Slot = Slot(sock: int, inUse: bool)

  const FREE := Slot(-1, false)

  /** A byte at a client: from a broadcast, or from the heartbeat. */
  datatype Octet = Data(b: byte) | Beat(b: byte)

  /** The firmware's table, counter and cleanup queue; `client[i]` numbers the stay of the client in
      slot i, `rcvd[c]` is what client c got. `transit` has the sockets a task holds in a local
      variable: accepted and not yet added, or taken from the table and not yet handed over.
      `accepted`, `handed`, `closed` count, per descriptor, accepts, `safe_close_socket` calls and
      closes; `open` is the operating system's set of open descriptors. */
  datatype Table = Table(
    slots: seq<Slot>, client: seq<nat>, count: int, queue: seq<int>,
    transit: map<int, nat>, open: set<int>,
    accepted: multiset<int>, handed: multiset<int>, closed: multiset<int>,
    rcvd: seq<seq<Octet>>)

  datatype Event =
    | Accept(task: nat, fd: int)
    | Add(task: nat, fd: int)
    | Detach(task: nat, slot: nat)
    | DetachAll(task: nat)
    | HandOff(task: nat, fd: int)
    | Clean(task: nat)
    | Beats(task: nat, slot: nat, bytes: seq<byte>)
    | Sends(task: nat, slot: nat, bytes: seq<byte>)

  // ---------------------------------------------------------------- steps

  function FirstFree(slots: seq<Slot>, from: nat): (i: nat)
    requires from <= |slots|
    ensures from <= i <= |slots| && (i < |slots| ==> !slots[i].inUse)
    ensures forall j :: from <= j < i ==> slots[j].inUse
    decreases |slots| - from
  {
    if from == |slots| || !slots[from].inUse then from else FirstFree(slots, from + 1)
  }

  function Tagged(bytes: seq<byte>): seq<Octet> { seq(|bytes|, i requires 0 <= i < |bytes| => Data(bytes[i])) }

  function Beating(bytes: seq<byte>): seq<Octet> { seq(|bytes|, i requires 0 <= i < |bytes| => Beat(bytes[i])) }

  function Take(s: Table, task: nat, i: nat): Table
    requires i < |s.slots|
  {
    s.(slots := s.slots[i := FREE], count := s.count - 1, transit := s.transit[s.slots[i].sock := task])
  }

  function TakeAll(s: Table, task: nat, from: nat): Table
    requires from <= |s.slots|
    decreases |s.slots| - from
  {
    if from == |s.slots| then s
    else TakeAll(if s.slots[from].inUse && s.slots[from].sock >= 0 then Take(s, task, from) else s, task, from + 1)
  }

  function Close(s: Table, fd: int): Table {
    s.(open := s.open - {fd}, closed := s.closed + multiset{fd})
  }

  /** `safe_close_socket`: queue the socket for the cleanup task, or close it if the queue is full. */
  function SafeClose(s: Table, fd: int): Table {
    if fd < 0 || fd !in s.open then s
    else
      var handedOver := s.(handed := s.handed + multiset{fd});
      if |s.queue| < CLEANUP_QUEUE_SIZE then handedOver.(queue := s.queue + [fd]) else Close(handedOver, fd)
  }

  function Admit(s: Table, fd: int, i: nat): Table
    requires i < |s.slots| && i < |s.client|
  {
    s.(slots := s.slots[i := Slot(fd, true)], client := s.client[i := |s.rcvd|], rcvd := s.rcvd + [[]],
       count := s.count + 1, transit := s.transit - {fd})
  }

  function Grow(s: Table, i: nat, octets: seq<Octet>): Table
    requires i < |s.client| && s.client[i] < |s.rcvd|
  {
    s.(rcvd := s.rcvd[s.client[i] := s.rcvd[s.client[i]] + octets])
  }

  /** One step; an event that cannot happen in a state leaves it alone. */
  function Step(s: Table, e: Event): Table {
    match e
    case Accept(task, fd) =>
      if fd < 0 || fd in s.open then s
      else s.(transit := s.transit[fd := task], open := s.open + {fd}, accepted := s.accepted + multiset{fd})
    case Add(task, fd) =>
      var i := FirstFree(s.slots, 0);
      if fd !in s.transit || s.transit[fd] != task || i == |s.slots| || i >= |s.client| then s else Admit(s, fd, i)
    case Detach(task, i) =>
      if i < |s.slots| && s.slots[i].inUse then Take(s, task, i) else s
    case DetachAll(task) =>
      TakeAll(s, task, 0).(count := 0)
    case HandOff(task, fd) =>
      if fd in s.transit && s.transit[fd] == task then SafeClose(s.(transit := s.transit - {fd}), fd) else s
    case Clean(_) =>
      if s.queue == [] then s else Close(s.(queue := s.queue[1..]), s.queue[0])
    case Beats(_, i, bytes) =>
      if i < |s.slots| && s.slots[i].inUse && i < |s.client| && s.client[i] < |s.rcvd|
      then Grow(s, i, Beating(bytes)) else s
    case Sends(_, i, bytes) =>
      if i < |s.slots| && s.slots[i].inUse && i < |s.client| && s.client[i] < |s.rcvd|
      then Grow(s, i, Tagged(bytes)) else s
  }

  function Run(s: Table, script: seq<Event>): Table {
    if script == [] then s else Step(Run(s, script[..|script| - 1]), script[|script| - 1])
  }

  // ---------------------------------------------------------------- the invariant

  function One(slot: Slot, fd: int): nat { if slot.inUse && slot.sock == fd then 1 else 0 }

  /** How many slots hold descriptor fd. */
  function InSlots(slots: seq<Slot>, fd: int): nat {
    if slots == [] then 0 else InSlots(slots[..|slots| - 1], fd) + One(slots[|slots| - 1], fd)
  }

  function InQueue(queue: seq<int>, fd: int): nat {
    if queue == [] then 0 else InQueue(queue[..|queue| - 1], fd) + if queue[|queue| - 1] == fd then 1 else 0
  }

  function InTransit(transit: map<int, nat>, fd: int): nat { if fd in transit then 1 else 0 }

  function InUse(slots: seq<Slot>): nat {
    if slots == [] then 0 else InUse(slots[..|slots| - 1]) + if slots[|slots| - 1].inUse then 1 else 0
  }

  /** The accounts of one descriptor: while open it is in exactly one place, otherwise nowhere;
      accepts are balanced by places and hand-overs, hand-overs by queue and closes. */
  ghost predicate Balanced(s: Table, fd: int) {
    && (fd in s.open ==> fd >= 0)
    && InSlots(s.slots, fd) + InTransit(s.transit, fd) + InQueue(s.queue, fd) == (if fd in s.open then 1 else 0)
    && s.accepted[fd] == InSlots(s.slots, fd) + InTransit(s.transit, fd) + s.handed[fd]
    && s.handed[fd] == InQueue(s.queue, fd) + s.closed[fd]
  }

  ghost predicate SlotsOk(s: Table) {
    && |s.slots| == |s.client| == MAX_CLIENTS
    && (forall i :: 0 <= i < |s.slots| ==> (s.slots[i].inUse <==> s.slots[i].sock >= 0))
    && (forall i :: 0 <= i < |s.slots| && s.slots[i].inUse ==> s.client[i] < |s.rcvd|)
    && (forall i, j :: 0 <= i < j < |s.slots| && s.slots[i].inUse && s.slots[j].inUse ==> s.client[i] != s.client[j])
  }

  ghost predicate Inv(s: Table) {
    && SlotsOk(s)
    && s.count == InUse(s.slots)
    && |s.queue| <= CLEANUP_QUEUE_SIZE
    && forall fd :: Balanced(s, fd)
  }

  const EMPTY := Table([FREE, FREE, FREE, FREE, FREE, FREE], [0, 0, 0, 0, 0, 0], 0, [], map[], {},
                       multiset{}, multiset{}, multiset{}, [])

  lemma {:induction false} SlotUpdate(slots: seq<Slot>, i: nat, x: Slot, fd: int)
    requires i < |slots|
    ensures InSlots(slots[i := x], fd) + One(slots[i], fd) == InSlots(slots, fd) + One(x, fd)
    ensures InSlots(slots, fd) >= One(slots[i], fd)
    decreases |slots|
  {
    var n := |slots| - 1;
    if i == n {
      assert slots[i := x][..n] == slots[..n];
    } else {
      assert slots[i := x][..n] == slots[..n][i := x];
      SlotUpdate(slots[..n], i, x, fd);
    }
  }

  lemma {:induction false} UseUpdate(slots: seq<Slot>, i: nat, x: Slot)
    requires i < |slots|
    ensures InUse(slots[i := x]) + (if slots[i].inUse then 1 else 0) == InUse(slots) + if x.inUse then 1 else 0
    decreases |slots|
  {
    var n := |slots| - 1;
    if i == n {
      assert slots[i := x][..n] == slots[..n];
    } else {
      assert slots[i := x][..n] == slots[..n][i := x];
      UseUpdate(slots[..n], i, x);
    }
  }

  lemma {:induction false} QueueHead(queue: seq<int>, fd: int)
    requires queue != []
    ensures InQueue(queue, fd) == InQueue(queue[1..], fd) + if queue[0] == fd then 1 else 0
    decreases |queue|
  {
    if |queue| == 1 {
      assert queue[..0] == [] && queue[1..] == [];
    } else {
      assert queue[1..][..|queue| - 2] == queue[..|queue| - 1][1..];
      QueueHead(queue[..|queue| - 1], fd);
    }
  }

  lemma QueueSnoc(queue: seq<int>, x: int, fd: int)
    ensures InQueue(queue + [x], fd) == InQueue(queue, fd) + if x == fd then 1 else 0
  {
    assert (queue + [x])[..|queue|] == queue;
  }

  lemma AcceptKeeps(s: Table, task: nat, fd: int)
    requires Inv(s) && fd >= 0 && fd !in s.open
    ensures Inv(Step(s, Accept(task, fd)))
  {
    hide InSlots, InQueue, InUse;
    var t := Step(s, Accept(task, fd));
    assert Balanced(s, fd);
    forall x ensures Balanced(t, x) { assert Balanced(s, x); }
  }

  lemma AdmitKeeps(s: Table, fd: int, i: nat)
    requires Inv(s) && fd in s.transit && i < |s.slots| && !s.slots[i].inUse
    ensures Inv(Admit(s, fd, i))
  {
    hide InSlots, InQueue, InUse;
    UseUpdate(s.slots, i, Slot(fd, true));
    assert Balanced(s, fd);
    forall x ensures Balanced(Admit(s, fd, i), x) {
      assert Balanced(s, x);
      SlotUpdate(s.slots, i, Slot(fd, true), x);
    }
  }

  lemma TakeKeeps(s: Table, task: nat, i: nat)
    requires Inv(s) && i < |s.slots| && s.slots[i].inUse
    ensures Inv(Take(s, task, i))
  {
    hide InSlots, InQueue, InUse;
    UseUpdate(s.slots, i, FREE);
    assert Balanced(s, s.slots[i].sock);
    forall x ensures Balanced(Take(s, task, i), x) {
      assert Balanced(s, x);
      SlotUpdate(s.slots, i, FREE, x);
    }
  }

  lemma {:induction false} TakeAllKeeps(s: Table, task: nat, from: nat)
    requires Inv(s) && from <= |s.slots| && forall i :: 0 <= i < from ==> !s.slots[i].inUse
    ensures Inv(TakeAll(s, task, from)) && InUse(TakeAll(s, task, from).slots) == 0
    decreases |s.slots| - from
  {
    hide Balanced;
    if from == |s.slots| {
      NoneInUse(s.slots);
    } else if s.slots[from].inUse {
      TakeKeeps(s, task, from);
      TakeAllKeeps(Take(s, task, from), task, from + 1);
    } else {
      TakeAllKeeps(s, task, from + 1);
    }
  }

  lemma {:induction false} NoneInUse(slots: seq<Slot>)
    requires forall i :: 0 <= i < |slots| ==> !slots[i].inUse
    ensures InUse(slots) == 0
    decreases |slots|
  {
    if slots != [] {
      NoneInUse(slots[..|slots| - 1]);
    }
  }

  lemma HandOffKeeps(s: Table, fd: int)
    requires Inv(s) && fd in s.transit
    ensures Inv(SafeClose(s.(transit := s.transit - {fd}), fd))
    ensures SafeClose(s.(transit := s.transit - {fd}), fd).handed == s.handed + multiset{fd}
  {
    hide InSlots, InQueue, InUse;
    var t := SafeClose(s.(transit := s.transit - {fd}), fd);
    assert Balanced(s, fd);
    forall x ensures Balanced(t, x) {
      assert Balanced(s, x);
      QueueSnoc(s.queue, fd, x);
    }
  }

  lemma CleanKeeps(s: Table)
    requires Inv(s) && s.queue != []
    ensures Inv(Close(s.(queue := s.queue[1..]), s.queue[0]))
  {
    hide InSlots, InQueue, InUse;
    var fd := s.queue[0];
    QueueHead(s.queue, fd);
    assert Balanced(s, fd);
    forall x ensures Balanced(Close(s.(queue := s.queue[1..]), fd), x) {
      assert Balanced(s, x);
      QueueHead(s.queue, x);
    }
  }

  lemma GrowKeeps(s: Table, i: nat, octets: seq<Octet>)
    requires Inv(s) && i < |s.client| && s.client[i] < |s.rcvd|
    ensures Inv(Grow(s, i, octets))
  {
    hide InSlots, InQueue, InUse;
    forall x ensures Balanced(Grow(s, i, octets), x) {
      assert Balanced(s, x);
    }
  }

  lemma GrowTwice(s: Table, i: nat, a: seq<Octet>, b: seq<Octet>)
    requires i < |s.client| && s.client[i] < |s.rcvd|
    ensures Grow(s, i, []) == s && Grow(Grow(s, i, a), i, b) == Grow(s, i, a + b)
  {
    var c := s.client[i];
    assert s.rcvd[c] + [] == s.rcvd[c] && s.rcvd[c] + a + b == s.rcvd[c] + (a + b);
    assert s.rcvd[c := s.rcvd[c]] == s.rcvd;
    assert s.rcvd[c := s.rcvd[c] + a][c := s.rcvd[c] + a + b] == s.rcvd[c := s.rcvd[c] + (a + b)];
  }

  lemma StepKeeps(s: Table, e: Event)
    requires Inv(s)
    ensures Inv(Step(s, e))
  {
    match e
    case Accept(task, fd) =>
      if fd >= 0 && fd !in s.open { AcceptKeeps(s, task, fd); }
    case Add(task, fd) =>
      var i := FirstFree(s.slots, 0);
      if fd in s.transit && s.transit[fd] == task && i < |s.slots| { AdmitKeeps(s, fd, i); }
    case Detach(task, i) =>
      if i < |s.slots| && s.slots[i].inUse { TakeKeeps(s, task, i); }
    case DetachAll(task) =>
      TakeAllKeeps(s, task, 0);
      assert TakeAll(s, task, 0).(count := 0) == TakeAll(s, task, 0);
    case HandOff(task, fd) =>
      if fd in s.transit && s.transit[fd] == task { HandOffKeeps(s, fd); }
    case Clean(_) =>
      if s.queue != [] { CleanKeeps(s); }
    case Beats(_, i, bytes) =>
      if i < |s.slots| && s.slots[i].inUse { GrowKeeps(s, i, Beating(bytes)); }
    case Sends(_, i, bytes) =>
      if i < |s.slots| && s.slots[i].inUse { GrowKeeps(s, i, Tagged(bytes)); }
  }

  /** In every interleaving of all tasks' steps the invariant holds throughout. */
  lemma {:induction false} RunKeeps(s: Table, script: seq<Event>)
    requires Inv(s)
    ensures Inv(Run(s, script))
    decreases |script|
  {
    hide Step, Inv;
    if script != [] {
      RunKeeps(s, script[..|script| - 1]);
      StepKeeps(Run(s, script[..|script| - 1]), script[|script| - 1]);
    }
  }

  lemma {:induction false} NoneHolds(slots: seq<Slot>, fd: int)
    requires forall i :: 0 <= i < |slots| ==> !slots[i].inUse
    ensures InSlots(slots, fd) == 0
    decreases |slots|
  {
    if slots != [] {
      NoneHolds(slots[..|slots| - 1], fd);
    }
  }

  lemma {:induction false} SomeInUse(slots: seq<Slot>, i: nat)
    requires i < |slots| && slots[i].inUse
    ensures InUse(slots) > 0
    decreases |slots|
  {
    if i < |slots| - 1 {
      SomeInUse(slots[..|slots| - 1], i);
    }
  }

  lemma EmptyInv()
    ensures Inv(EMPTY)
  {
    NoneInUse(EMPTY.slots);
    forall fd ensures Balanced(EMPTY, fd) {
      NoneHolds(EMPTY.slots, fd);
    }
  }

  lemma {:induction false} TwoSlots(slots: seq<Slot>, i: nat, j: nat)
    requires i < j < |slots| && slots[i].inUse && slots[j].inUse && slots[i].sock == slots[j].sock
    ensures InSlots(slots, slots[i].sock) >= 2
    decreases |slots|
  {
    var n := |slots| - 1;
    if j == n {
      SlotUpdate(slots[..n], i, FREE, slots[i].sock);
    } else {
      TwoSlots(slots[..n], i, j);
    }
  }

  /** Consequences of the invariant a reader would ask for: the counter is the number of clients,
      their sockets differ, are open, and are neither queued for closing nor held by another task. */
  lemma LiveSockets(s: Table, i: nat, j: nat)
    requires Inv(s) && i < |s.slots| && s.slots[i].inUse
    ensures s.slots[i].sock in s.open && s.slots[i].sock !in s.queue && s.slots[i].sock !in s.transit
    ensures i < j < |s.slots| && s.slots[j].inUse ==> s.slots[i].sock != s.slots[j].sock
    ensures s.count > 0
  {
    var fd := s.slots[i].sock;
    assert Balanced(s, fd);
    SlotUpdate(s.slots, i, FREE, fd);
    SomeInUse(s.slots, i);
    if fd in s.queue {
      Queued(s.queue, fd);
    }
    if i < j < |s.slots| && s.slots[j].inUse && s.slots[j].sock == fd {
      TwoSlots(s.slots, i, j);
    }
  }

  lemma {:induction false} Queued(queue: seq<int>, fd: int)
    requires fd in queue
    ensures InQueue(queue, fd) > 0
    decreases |queue|
  {
    if queue[|queue| - 1] != fd {
      Queued(queue[..|queue| - 1], fd);
    }
  }

  /** From the empty table, whatever the tasks do in whatever order: every descriptor accepted is in
      the table, or with a task, or has been handed to `safe_close_socket`, once for every accept;
      and a descriptor is closed once for every hand-over that is no longer queued. */
  lemma EveryRunBalanced(script: seq<Event>, fd: int)
    ensures
      var s := Run(EMPTY, script);
      && s.count == InUse(s.slots)
      && s.accepted[fd] == InSlots(s.slots, fd) + InTransit(s.transit, fd) + s.handed[fd]
      && s.handed[fd] == InQueue(s.queue, fd) + s.closed[fd]
      && InSlots(s.slots, fd) + InTransit(s.transit, fd) + InQueue(s.queue, fd) == if fd in s.open then 1 else 0
  {
    EmptyInv();
    RunKeeps(EMPTY, script);
    assert Balanced(Run(EMPTY, script), fd);
  }

  // ---------------------------------------------------------------- what gets done

  lemma {:induction false} FreeIfRoom(slots: seq<Slot>, i: nat)
    requires i <= |slots|
    ensures InUse(slots[..i]) <= i
    ensures (forall j :: 0 <= j < i ==> slots[j].inUse) ==> InUse(slots[..i]) == i
    ensures InUse(slots[..i]) == i ==> forall j :: 0 <= j < i ==> slots[j].inUse
  {
    if i > 0 {
      FreeIfRoom(slots, i - 1);
      assert slots[..i][..i - 1] == slots[..i - 1];
    }
  }

  /** A socket accepted is with its task; */
  lemma AcceptDoes(s: Table, task: nat, fd: int)
    requires fd >= 0 && fd !in s.open
    ensures
      var t := Step(s, Accept(task, fd));
      && Held(t, task, fd) && t.open == s.open + {fd} && t.accepted == s.accepted + multiset{fd}
      && t == s.(transit := t.transit, open := t.open, accepted := t.accepted)
  {
  }

  /** it goes into the first free slot if fewer than six clients are counted, a new client that has been
      sent nothing, and stays with the task otherwise; */
  lemma AddDoes(s: Table, task: nat, fd: int)
    requires Inv(s) && Held(s, task, fd)
    ensures
      var t := Step(s, Add(task, fd));
      && (s.count == 6 ==> t == s)
      && (s.count < 6 ==>
            && fd !in t.transit && t.count == s.count + 1 && t.rcvd == s.rcvd + [[]]
            && exists i :: 0 <= i < |s.slots| && !s.slots[i].inUse && (forall j :: 0 <= j < i ==> s.slots[j].inUse)
                 && t.slots == s.slots[i := Slot(fd, true)] && t.client == s.client[i := |s.rcvd|])
  {
    hide Balanced;
    FreeIfRoom(s.slots, |s.slots|);
    assert s.slots[..|s.slots|] == s.slots;
  }

  /** taken from the table, it is with the task that took it, and the slot is free; */
  lemma DetachDoes(s: Table, task: nat, i: nat)
    requires i < |s.slots| && s.slots[i].inUse
    ensures
      var t := Step(s, Detach(task, i));
      && Held(t, task, s.slots[i].sock) && t.slots == s.slots[i := Slot(-1, false)] && t.count == s.count - 1
      && t == s.(slots := t.slots, count := t.count, transit := t.transit)
  {
  }

  lemma {:induction false} TakeAllTakes(s: Table, task: nat, from: nat)
    requires SlotsOk(s) && from <= |s.slots|
    ensures
      var t := TakeAll(s, task, from);
      && |t.slots| == |s.slots|
      && (forall i :: 0 <= i < from ==> t.slots[i] == s.slots[i])
      && (forall i :: from <= i < |s.slots| ==> !t.slots[i].inUse)
      && (forall i :: from <= i < |s.slots| && s.slots[i].inUse ==> Held(t, task, s.slots[i].sock))
      && (forall fd :: Held(s, task, fd) ==> Held(t, task, fd))
    decreases |s.slots| - from
  {
    if from < |s.slots| {
      TakeAllTakes(if s.slots[from].inUse then Take(s, task, from) else s, task, from + 1);
    }
  }

  /** when all are taken, all slots are free and the count is zero; */
  lemma DetachAllDoes(s: Table, task: nat)
    requires SlotsOk(s)
    ensures
      var t := Step(s, DetachAll(task));
      && t.count == 0 && |t.slots| == |s.slots|
      && (forall i :: 0 <= i < |t.slots| ==> !t.slots[i].inUse)
      && (forall i :: 0 <= i < |s.slots| && s.slots[i].inUse ==> Held(t, task, s.slots[i].sock))
  {
    TakeAllTakes(s, task, 0);
  }

  /** handed over, an open socket is no longer with the task and waits behind the others if fewer than
      ten wait, and is closed at once otherwise; */
  lemma HandOffDoes(s: Table, task: nat, fd: int)
    requires Held(s, task, fd) && fd >= 0 && fd in s.open
    ensures
      var t := Step(s, HandOff(task, fd));
      && fd !in t.transit && t.handed == s.handed + multiset{fd} && t.slots == s.slots
      && (|s.queue| < 10 ==> t.queue == s.queue + [fd] && t.closed == s.closed && t.open == s.open)
      && (|s.queue| >= 10 ==>
            t.queue == s.queue && t.closed == s.closed + multiset{fd} && t.open == s.open - {fd})
  {
  }

  /** a descriptor that is none, or is closed already, is left alone; */
  lemma DeadLeftAlone(s: Table, fd: int)
    requires fd < 0 || fd !in s.open
    ensures SafeClose(s, fd) == s
  {
  }

  /** what is sent to a client in the table comes after what it already got, and nobody else gets it; */
  lemma SendsDo(s: Table, task: nat, i: nat, bytes: seq<byte>)
    requires SlotsOk(s) && i < |s.slots| && s.slots[i].inUse
    ensures
      var c := s.client[i];
      && Step(s, Sends(task, i, bytes)) == s.(rcvd := s.rcvd[c := s.rcvd[c] + Tagged(bytes)])
      && Step(s, Beats(task, i, bytes)) == s.(rcvd := s.rcvd[c := s.rcvd[c] + Beating(bytes)])
  {
  }

  function Cleans(task: nat, n: nat): seq<Event> { if n == 0 then [] else Cleans(task, n - 1) + [Clean(task)] }

  /** and the cleanup task closes what waits, the oldest first, */
  lemma CleanDoes(s: Table, task: nat)
    requires s.queue != []
    ensures
      var t, fd := Step(s, Clean(task)), s.queue[0];
      && t.queue == s.queue[1..] && t.closed == s.closed + multiset{fd} && t.open == s.open - {fd}
      && t == s.(queue := t.queue, closed := t.closed, open := t.open)
  {
  }

  lemma {:induction false} CleanedSoFar(s: Table, task: nat, n: nat)
    requires n <= |s.queue|
    ensures
      var t := Run(s, Cleans(task, n));
      t == s.(queue := s.queue[n..], closed := t.closed, open := t.open)
    decreases n
  {
    hide Run, Step;
    if n == 0 {
      RunSnoc(s, [], Clean(task));
    } else {
      CleanedSoFar(s, task, n - 1);
      var t := Run(s, Cleans(task, n - 1));
      RunSnoc(s, Cleans(task, n - 1), Clean(task));
      CleanDoes(t, task);
      assert s.queue[n - 1..][1..] == s.queue[n..];
    }
  }

  /** until every socket ever handed over is closed, as often as it was handed over, and only those in
      the table or with a task are open. */
  lemma CleanedUp(s: Table, task: nat, fd: int)
    requires Inv(s)
    ensures
      var t := Run(s, Cleans(task, |s.queue|));
      && t.queue == [] && t.closed[fd] == t.handed[fd] == s.handed[fd]
      && (fd in t.open <==> InSlots(s.slots, fd) + InTransit(s.transit, fd) == 1)
  {
    CleanedSoFar(s, task, |s.queue|);
    RunKeeps(s, Cleans(task, |s.queue|));
    hide Run;
    assert Balanced(Run(s, Cleans(task, |s.queue|)), fd);
  }

  // ---------------------------------------------------------------- restarting

  /** `init_clients`, run at every start: it forgets the slots but not the counter. */
  function InitClients(s: Table): Table {
    s.(slots := EMPTY.slots)
  }

  /** A restart keeps the accounts exactly when no client is left in the table. */
  lemma RestartKeepsIffEmpty(s: Table)
    requires Inv(s)
    ensures Inv(InitClients(s)) <==> s.count == 0
  {
    NoneInUse(EMPTY.slots);
    if s.count == 0 {
      forall i | 0 <= i < |s.slots| ensures !s.slots[i].inUse {
        if s.slots[i].inUse { SomeInUse(s.slots, i); }
      }
      forall fd ensures Balanced(InitClients(s), fd) {
        assert Balanced(s, fd);
        NoneHolds(s.slots, fd);
        NoneHolds(EMPTY.slots, fd);
      }
    }
  }

  /** And the other case is reached: a client accepted before a stop and added after it is in the table
      at the next start, which forgets it but keeps it counted. */
  lemma RestartCanLoseCount()
    ensures
      var s := Run(EMPTY, [Accept(1, 5), DetachAll(2), Add(1, 5)]);
      s.count == 1 && !Inv(InitClients(s))
  {
    var e1, e2, e3 := Accept(1, 5), DetachAll(2), Add(1, 5);
    assert [] + [e1] == [e1] && [e1] + [e2] == [e1, e2] && [e1, e2] + [e3] == [e1, e2, e3];
    RunSnoc(EMPTY, [], e1);
    RunSnoc(EMPTY, [e1], e2);
    RunSnoc(EMPTY, [e1, e2], e3);
    EmptyInv();
    RunKeeps(EMPTY, [e1, e2, e3]);
    AddedAfterStop();
    hide Run, Step, Inv, InitClients;
    RestartKeepsIffEmpty(Run(EMPTY, [e1, e2, e3]));
  }

  lemma AddedAfterStop()
    ensures Step(Step(Step(EMPTY, Accept(1, 5)), DetachAll(2)), Add(1, 5)).count == 1
  {
    var t := Step(EMPTY, Accept(1, 5));
    NothingToTake(t, 2);
    assert FirstFree(t.slots, 0) == 0;
  }

  lemma RunSnoc(s: Table, script: seq<Event>, e: Event)
    ensures Run(s, script + [e]) == Step(Run(s, script), e)
    ensures Run(s, []) == s
  {
    hide Step;
    assert (script + [e])[..|script|] == script;
  }

  lemma {:induction false} NothingTaken(s: Table, task: nat, from: nat)
    requires from <= |s.slots| && forall i :: 0 <= i < |s.slots| ==> !s.slots[i].inUse
    ensures TakeAll(s, task, from) == s
    decreases |s.slots| - from
  {
    if from < |s.slots| {
      NothingTaken(s, task, from + 1);
    }
  }

  lemma NothingToTake(s: Table, task: nat)
    requires s.slots == EMPTY.slots && s.count == 0
    ensures Step(s, DetachAll(task)) == s
  {
    NothingTaken(s, task, 0);
  }

  // ---------------------------------------------------------------- what other tasks may do

  ghost predicate Held(s: Table, me: nat, fd: int) { fd in s.transit && s.transit[fd] == me }

  /** What other tasks can send while one has given the lock away: a broadcast meets no other broadcast,
      because it keeps `tcp_send_mutex`, and the one heartbeat task no other heartbeat. */
  datatype Traffic = Anything | Heartbeats | Payloads

  predicate Fits(o: Octet, w: Traffic) {
    match w
    case Anything => true
    case Heartbeats => o.Beat?
    case Payloads => o.Data?
  }

  predicate Allowed(e: Event, w: Traffic) {
    match w
    case Anything => true
    case Heartbeats => !e.Sends?
    case Payloads => !e.Beats?
  }

  ghost predicate Foreign(script: seq<Event>, me: nat, w: Traffic) {
    forall i :: 0 <= i < |script| ==> script[i].task != me && Allowed(script[i], w)
  }

  /** Nothing but this traffic came after what a client had. */
  ghost predicate Only(a: seq<Octet>, b: seq<Octet>, w: Traffic) {
    |a| <= |b| && b[..|a|] == a && forall k :: |a| <= k < |b| ==> Fits(b[k], w)
  }

  /** The piece came once, unbroken and in order; everything else is other traffic. */
  ghost predicate Got(a: seq<Octet>, b: seq<Octet>, piece: seq<Octet>, w: Traffic) {
    exists n :: GotAt(a, b, piece, w, n)
  }

  ghost predicate GotAt(a: seq<Octet>, b: seq<Octet>, piece: seq<Octet>, w: Traffic, n: nat) {
    && |a| <= n && n + |piece| <= |b|
    && Only(a, b[..n], w)
    && b[n..n + |piece|] == piece
    && forall k :: n + |piece| <= k < |b| ==> Fits(b[k], w)
  }

  /** What the steps of other tasks leave alone: nobody moves to another slot, nobody is sent anything
      but this traffic, and no hand-over is taken back. */
  ghost predicate Undisturbed(s: Table, t: Table, w: Traffic) {
    && |s.rcvd| <= |t.rcvd| && s.handed <= t.handed
    && |s.slots| == |t.slots| == |s.client| == |t.client|
    && (forall c :: 0 <= c < |s.rcvd| ==> Only(s.rcvd[c], t.rcvd[c], w))
    && (forall j :: 0 <= j < |t.slots| && t.slots[j].inUse && t.client[j] < |s.rcvd| ==>
          s.slots[j] == t.slots[j] && s.client[j] == t.client[j])
  }

  ghost predicate SameHoldings(s: Table, t: Table, me: nat) {
    forall fd :: Held(s, me, fd) <==> Held(t, me, fd)
  }

  lemma OnlyJoin(a: seq<Octet>, b: seq<Octet>, c: seq<Octet>, w: Traffic)
    requires Only(a, b, w) && Only(b, c, w)
    ensures Only(a, c, w)
  {
    hide Fits;
    assert c[..|a|] == c[..|b|][..|a|];
    forall k | |a| <= k < |c| ensures Fits(c[k], w) {
      if k < |b| { assert c[k] == c[..|b|][k]; }
    }
  }

  lemma UndisturbedJoin(s: Table, t: Table, u: Table, w: Traffic)
    requires Undisturbed(s, t, w) && Undisturbed(t, u, w)
    ensures Undisturbed(s, u, w)
  {
    hide Only;
    forall c | 0 <= c < |s.rcvd| ensures Only(s.rcvd[c], u.rcvd[c], w) {
      OnlyJoin(s.rcvd[c], t.rcvd[c], u.rcvd[c], w);
    }
  }

  lemma {:induction false} TakeAllDisturbsNobody(s: Table, task: nat, from: nat, me: nat, w: Traffic)
    requires Inv(s) && from <= |s.slots| && task != me
    ensures Undisturbed(s, TakeAll(s, task, from), w) && SameHoldings(s, TakeAll(s, task, from), me)
    decreases |s.slots| - from
  {
    hide Balanced, Only;
    NoChange(s, w);
    if from < |s.slots| {
      if s.slots[from].inUse {
        TakeDisturbsNobody(s, task, from, me, w);
        TakeKeeps(s, task, from);
        TakeAllDisturbsNobody(Take(s, task, from), task, from + 1, me, w);
        UndisturbedJoin(s, Take(s, task, from), TakeAll(s, task, from), w);
      } else {
        TakeAllDisturbsNobody(s, task, from + 1, me, w);
      }
    }
  }

  lemma TakeDisturbsNobody(s: Table, task: nat, i: nat, me: nat, w: Traffic)
    requires Inv(s) && i < |s.slots| && s.slots[i].inUse && task != me
    ensures Undisturbed(s, Take(s, task, i), w) && SameHoldings(s, Take(s, task, i), me)
  {
    hide Only;
    NoChange(s, w);
    LiveSockets(s, i, i);
  }

  lemma NoChange(s: Table, w: Traffic)
    requires |s.slots| == |s.client|
    ensures Undisturbed(s, s, w)
    ensures forall c :: 0 <= c < |s.rcvd| ==> Only(s.rcvd[c], s.rcvd[c], w)
  {
  }

  lemma AcceptDisturbsNobody(s: Table, task: nat, fd: int, me: nat, w: Traffic)
    requires Inv(s) && task != me
    ensures Undisturbed(s, Step(s, Accept(task, fd)), w) && SameHoldings(s, Step(s, Accept(task, fd)), me)
  {
    hide InSlots, InQueue, InUse, Only;
    NoChange(s, w);
    assert Balanced(s, fd);
  }

  lemma AddDisturbsNobody(s: Table, task: nat, fd: int, me: nat, w: Traffic)
    requires Inv(s) && task != me
    ensures Undisturbed(s, Step(s, Add(task, fd)), w) && SameHoldings(s, Step(s, Add(task, fd)), me)
  {
    hide Balanced, Only;
    NoChange(s, w);
  }

  lemma GrowDisturbsNobody(s: Table, i: nat, octets: seq<Octet>, me: nat, w: Traffic)
    requires Inv(s) && i < |s.slots| && s.slots[i].inUse
    requires forall k :: 0 <= k < |octets| ==> Fits(octets[k], w)
    ensures Undisturbed(s, Grow(s, i, octets), w) && SameHoldings(s, Grow(s, i, octets), me)
  {
    hide Balanced, Fits;
    NoChange(s, w);
  }

  lemma SentDisturbsNobody(s: Table, e: Event, me: nat, w: Traffic)
    requires Inv(s) && Allowed(e, w) && (e.Beats? || e.Sends?)
    ensures Undisturbed(s, Step(s, e), w) && SameHoldings(s, Step(s, e), me)
  {
    hide Balanced, Only;
    NoChange(s, w);
    if e.slot < |s.slots| && s.slots[e.slot].inUse {
      GrowDisturbsNobody(s, e.slot, if e.Beats? then Beating(e.bytes) else Tagged(e.bytes), me, w);
    }
  }

  lemma HandOffDisturbsNobody(s: Table, task: nat, fd: int, me: nat, w: Traffic)
    requires Inv(s) && task != me
    ensures Undisturbed(s, Step(s, HandOff(task, fd)), w) && SameHoldings(s, Step(s, HandOff(task, fd)), me)
  {
    hide Balanced, Only;
    NoChange(s, w);
  }

  lemma StepDisturbsNobody(s: Table, e: Event, me: nat, w: Traffic)
    requires Inv(s) && e.task != me && Allowed(e, w)
    ensures Undisturbed(s, Step(s, e), w) && SameHoldings(s, Step(s, e), me)
  {
    hide Balanced, Only;
    NoChange(s, w);
    match e
    case Accept(task, fd) =>
      AcceptDisturbsNobody(s, task, fd, me, w);
    case Add(task, fd) =>
      AddDisturbsNobody(s, task, fd, me, w);
    case Detach(task, i) =>
      if i < |s.slots| && s.slots[i].inUse { TakeDisturbsNobody(s, task, i, me, w); }
    case DetachAll(task) =>
      TakeAllDisturbsNobody(s, task, 0, me, w);
    case HandOff(task, fd) =>
      HandOffDisturbsNobody(s, task, fd, me, w);
    case Clean(_) =>
    case Beats(_, _, _) =>
      SentDisturbsNobody(s, e, me, w);
    case Sends(_, _, _) =>
      SentDisturbsNobody(s, e, me, w);
  }

  /** Rely: however long the lock is away, other tasks leave `me`'s view intact. */
  lemma {:induction false} OthersDisturbNobody(s: Table, script: seq<Event>, me: nat, w: Traffic)
    requires Inv(s) && Foreign(script, me, w)
    ensures Undisturbed(s, Run(s, script), w) && SameHoldings(s, Run(s, script), me) && Inv(Run(s, script))
    decreases |script|
  {
    hide Step, Balanced, Held, Only, Allowed;
    if script == [] {
      NoChange(s, w);
    } else {
      var t := Run(s, script[..|script| - 1]);
      OthersDisturbNobody(s, script[..|script| - 1], me, w);
      StepDisturbsNobody(t, script[|script| - 1], me, w);
      StepKeeps(t, script[|script| - 1]);
      UndisturbedJoin(s, t, Run(s, script), w);
    }
  }
}
