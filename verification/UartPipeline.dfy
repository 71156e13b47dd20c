/** From frame to TCP: the receive task puts a heap copy of each frame into a bounded queue, the
    processing task discards the oldest when it falls behind, hands the rest to the transparent
    mode, which copies them into its own bounded queue for its own task to send.

    `Pipe` is the state of all tasks, `Step` one step of one task; runs interleave the tasks freely.
    Heap blocks are numbered; `freed` counts the frees of each. */
module UartPipeline {
  import opened Common

  const UART_QUEUE_LEN := 20
  const TCP_TRANSPARENT_QUEUE_SIZE := 10
  const UART_IO_BUF_SIZE := 4096
  const PURGE_ABOVE := 15
  const PURGE_KEEPS := 5

  /** A queued copy of frame number `frame`, in heap block `block`. */
  datatype Msg = Msg(block: nat, frame: nat, data: seq<byte>)

  /** `None` in the UART queue is the empty message that wakes the processing task up. */
  datatype Pipe = Pipe(
    cut: seq<seq<byte>>,
    queue: seq<Option<Msg>>, purge: nat, proc: Option<Msg>, handled: bool,
    running: bool, tcpQueue: seq<Msg>, tcpHeld: Option<Msg>, forwarded: seq<Item>,
    nextBlock: nat, freed: multiset<nat>)

  datatype Item = Item(frame: nat, data: seq<byte>)

  datatype Event =
    | Frame(data: seq<byte>, mallocOk: bool)
    | Wake
    | Inspect | Discard | Receive
    | Process(reallocOk: bool, hasHandler: bool, mallocOk: bool) | Release
    | TcpReceive | TcpSend
    | Drain | StartMode | StopMode

  const EMPTY := Pipe([], [], 0, None, false, false, [], None, [], 0, multiset{})

  // ---------------------------------------------------------------- steps

  function Truncated(data: seq<byte>): seq<byte> {
    if |data| > UART_IO_BUF_SIZE then data[..UART_IO_BUF_SIZE] else data
  }

  function Free(s: Pipe, m: Option<Msg>): Pipe {
    if m.Some? then s.(freed := s.freed + multiset{m.value.block}) else s
  }

  /** The copy the receive task makes of a frame it has just cut. */
  function PostFrame(s: Pipe, data: seq<byte>, mallocOk: bool): Pipe {
    var t := s.(cut := s.cut + [data]);
    if !mallocOk then t
    else
      var m := Some(Msg(s.nextBlock, |s.cut|, data));
      if |s.queue| < UART_QUEUE_LEN then t.(nextBlock := s.nextBlock + 1, queue := s.queue + [m])
      else Free(t.(nextBlock := s.nextBlock + 1), m)
  }

  /** `mode_tcp_transparent_on_uart_data` */
  function OnUartData(s: Pipe, m: Msg, mallocOk: bool): Pipe {
    if !s.running || m.data == [] || !mallocOk then s
    else
      var copy := Msg(s.nextBlock, m.frame, Truncated(m.data));
      if |s.tcpQueue| < TCP_TRANSPARENT_QUEUE_SIZE
      then s.(nextBlock := s.nextBlock + 1, tcpQueue := s.tcpQueue + [copy])
      else Free(s.(nextBlock := s.nextBlock + 1), Some(copy))
  }

  function FreeAll(s: Pipe, ms: seq<Msg>): Pipe
    decreases |ms|
  {
    if ms == [] then s else FreeAll(Free(s, Some(ms[0])), ms[1..])
  }

  function Step(s: Pipe, e: Event): Pipe {
    match e
    case Frame(data, mallocOk) => PostFrame(s, data, mallocOk)
    case Wake => if |s.queue| < UART_QUEUE_LEN then s.(queue := s.queue + [None]) else s
    case Inspect =>
      if s.proc == None && s.purge == 0 && |s.queue| > PURGE_ABOVE then s.(purge := |s.queue| - PURGE_KEEPS) else s
    case Discard =>
      if s.purge == 0 then s
      else if s.queue == [] then s.(purge := 0)
      else Free(s.(queue := s.queue[1..], purge := s.purge - 1), s.queue[0])
    case Receive =>
      if s.proc.Some? || s.purge > 0 || s.queue == [] then s
      else s.(queue := s.queue[1..], proc := s.queue[0], handled := false)
    case Process(reallocOk, hasHandler, mallocOk) =>
      if s.proc == None || s.handled then s
      else if reallocOk && hasHandler then OnUartData(s, s.proc.value, mallocOk).(handled := true)
      else s.(handled := true)
    case Release =>
      if s.proc.Some? && s.handled then Free(s.(proc := None, handled := false), s.proc) else s
    case TcpReceive =>
      if !s.running || s.tcpHeld.Some? || s.tcpQueue == [] then s
      else s.(tcpHeld := Some(s.tcpQueue[0]), tcpQueue := s.tcpQueue[1..])
    case TcpSend =>
      if s.tcpHeld == None then s
      else
        var m := s.tcpHeld.value;
        Free(s.(tcpHeld := None, forwarded := s.forwarded + [Item(m.frame, m.data)]), s.tcpHeld)
    case Drain =>
      if s.queue == [] then s else Free(s.(queue := s.queue[1..]), s.queue[0])
    case StartMode => s.(running := true)
    case StopMode =>
      if !s.running then s
      else FreeAll(s.(tcpHeld := None), s.tcpQueue).(tcpQueue := [], running := false)
  }

  function Run(s: Pipe, events: seq<Event>): Pipe {
    if events == [] then s else Step(Run(s, events[..|events| - 1]), events[|events| - 1])
  }

  // ---------------------------------------------------------------- the heap

  function Has(m: Option<Msg>, b: nat): nat { if m.Some? && m.value.block == b then 1 else 0 }

  function InQueue(q: seq<Option<Msg>>, b: nat): nat {
    if q == [] then 0 else Has(q[0], b) + InQueue(q[1..], b)
  }

  function InTcpQueue(q: seq<Msg>, b: nat): nat {
    if q == [] then 0 else Has(Some(q[0]), b) + InTcpQueue(q[1..], b)
  }

  /** In how many places block b is: queued, held by a task, or freed. */
  function Places(s: Pipe, b: nat): nat {
    InQueue(s.queue, b) + Has(s.proc, b) + InTcpQueue(s.tcpQueue, b) + Has(s.tcpHeld, b) + s.freed[b]
  }

  /** Every block ever allocated is in one place, or among those lost before. */
  ghost predicate BlockOk(s: Pipe, lost: nat, b: nat) {
    Places(s, b) + lost == if b < s.nextBlock then 1 else 0
  }

  /** Allocated, not freed, and nobody has it any more. */
  ghost predicate Leaks(s: Pipe, b: nat) { b < s.nextBlock && Places(s, b) == 0 }

  /** The blocks in the hands of the forwarding task whenever it was deleted. */
  function Dropped(s: Pipe, e: Event, b: nat): nat { if e.StopMode? && s.running then Has(s.tcpHeld, b) else 0 }

  function DroppedIn(events: seq<Event>, b: nat): nat {
    if events == [] then 0
    else
      var front := events[..|events| - 1];
      DroppedIn(front, b) + Dropped(Run(EMPTY, front), events[|events| - 1], b)
  }

  lemma {:induction false} InQueueSnoc(q: seq<Option<Msg>>, m: Option<Msg>, b: nat)
    ensures InQueue(q + [m], b) == InQueue(q, b) + Has(m, b)
    decreases |q|
  {
    if q != [] {
      assert (q + [m])[1..] == q[1..] + [m];
      InQueueSnoc(q[1..], m, b);
    }
  }

  lemma {:induction false} InTcpQueueSnoc(q: seq<Msg>, m: Msg, b: nat)
    ensures InTcpQueue(q + [m], b) == InTcpQueue(q, b) + Has(Some(m), b)
    decreases |q|
  {
    if q != [] {
      assert (q + [m])[1..] == q[1..] + [m];
      InTcpQueueSnoc(q[1..], m, b);
    }
  }

  lemma {:induction false} FreeAllCounts(s: Pipe, ms: seq<Msg>, b: nat)
    ensures FreeAll(s, ms) == s.(freed := FreeAll(s, ms).freed)
    ensures FreeAll(s, ms).freed[b] == s.freed[b] + InTcpQueue(ms, b)
    decreases |ms|
  {
    if ms != [] {
      FreeAllCounts(Free(s, Some(ms[0])), ms[1..], b);
    }
  }

  lemma Heads(s: Pipe, b: nat)
    ensures s.queue != [] ==> InQueue(s.queue, b) == Has(s.queue[0], b) + InQueue(s.queue[1..], b)
    ensures s.tcpQueue != [] ==>
      InTcpQueue(s.tcpQueue, b) == Has(Some(s.tcpQueue[0]), b) + InTcpQueue(s.tcpQueue[1..], b)
    ensures InQueue([], b) == 0 && InTcpQueue([], b) == 0
  {
  }

  lemma FrameKeepsBlock(s: Pipe, lost: nat, data: seq<byte>, mallocOk: bool, b: nat)
    requires BlockOk(s, lost, b)
    ensures BlockOk(PostFrame(s, data, mallocOk), lost, b)
  {
    hide InQueue, InTcpQueue;
    InQueueSnoc(s.queue, Some(Msg(s.nextBlock, |s.cut|, data)), b);
  }

  lemma CopyKeepsBlock(s: Pipe, lost: nat, m: Msg, mallocOk: bool, b: nat)
    requires BlockOk(s, lost, b)
    ensures BlockOk(OnUartData(s, m, mallocOk), lost, b)
  {
    hide InQueue, InTcpQueue, Truncated;
    InTcpQueueSnoc(s.tcpQueue, Msg(s.nextBlock, m.frame, Truncated(m.data)), b);
  }

  lemma StopMovesBlock(s: Pipe, lost: nat, b: nat)
    requires BlockOk(s, lost, b)
    ensures BlockOk(Step(s, StopMode), lost + Dropped(s, StopMode, b), b)
  {
    hide InQueue, InTcpQueue;
    FreeAllCounts(s.(tcpHeld := None), s.tcpQueue, b);
    Heads(s, b);
  }

  lemma UartTaskKeepsBlock(s: Pipe, lost: nat, e: Event, b: nat)
    requires BlockOk(s, lost, b) && (e == Discard || e == Receive || e == Release || e == Drain)
    ensures BlockOk(Step(s, e), lost, b)
  {
    hide InQueue, InTcpQueue, PostFrame, OnUartData, FreeAll;
    Heads(s, b);
    if e == Discard || e == Drain {
      DropKeepsBlock(s, lost, b);
    }
  }

  lemma DropKeepsBlock(s: Pipe, lost: nat, b: nat)
    requires BlockOk(s, lost, b)
    ensures s.queue != [] ==> BlockOk(Free(s.(queue := s.queue[1..]), s.queue[0]), lost, b)
  {
    hide InTcpQueue;
  }

  lemma TcpTaskKeepsBlock(s: Pipe, lost: nat, e: Event, b: nat)
    requires BlockOk(s, lost, b) && (e == TcpReceive || e == TcpSend)
    ensures BlockOk(Step(s, e), lost, b)
  {
    hide InQueue, InTcpQueue, PostFrame, OnUartData, FreeAll;
    Heads(s, b);
  }

  lemma StepMovesBlock(s: Pipe, lost: nat, e: Event, b: nat)
    requires BlockOk(s, lost, b)
    ensures BlockOk(Step(s, e), lost + Dropped(s, e, b), b)
  {
    hide InQueue, InTcpQueue, PostFrame, OnUartData, FreeAll, Free, Has;
    match e
    case Frame(data, mallocOk) => FrameKeepsBlock(s, lost, data, mallocOk, b);
    case Wake => WakeKeepsBlock(s, lost, b);
    case Inspect =>
    case Discard => UartTaskKeepsBlock(s, lost, e, b);
    case Receive => UartTaskKeepsBlock(s, lost, e, b);
    case Process(reallocOk, hasHandler, mallocOk) =>
      if s.proc.Some? {
        CopyKeepsBlock(s, lost, s.proc.value, mallocOk, b);
      }
    case Release => UartTaskKeepsBlock(s, lost, e, b);
    case TcpReceive => TcpTaskKeepsBlock(s, lost, e, b);
    case TcpSend => TcpTaskKeepsBlock(s, lost, e, b);
    case Drain => UartTaskKeepsBlock(s, lost, e, b);
    case StartMode =>
    case StopMode => StopMovesBlock(s, lost, b);
  }

  lemma WakeKeepsBlock(s: Pipe, lost: nat, b: nat)
    requires BlockOk(s, lost, b)
    ensures BlockOk(s.(queue := s.queue + [None]), lost, b)
  {
    hide InQueue, InTcpQueue;
    InQueueSnoc(s.queue, None, b);
  }

  /** In every interleaving every block is queued, with a task, freed once, or was in the hands of the
      forwarding task when that was deleted; nothing is freed twice or freed while still in use. */
  lemma {:induction false} EveryBlockOnce(events: seq<Event>, b: nat)
    ensures BlockOk(Run(EMPTY, events), DroppedIn(events, b), b)
    decreases |events|
  {
    hide Step, Dropped;
    if events == [] {
      assert EMPTY.freed[b] == 0;
    } else {
      var front := events[..|events| - 1];
      EveryBlockOnce(front, b);
      StepMovesBlock(Run(EMPTY, front), DroppedIn(front, b), events[|events| - 1], b);
    }
  }

  ghost predicate StopAt(events: seq<Event>, i: nat) {
    && i < |events| && events[i] == StopMode
    && Run(EMPTY, events[..i]).running && Run(EMPTY, events[..i]).tcpHeld.Some?
  }

  lemma {:induction false} DroppedAtStop(events: seq<Event>, b: nat)
    requires DroppedIn(events, b) > 0
    ensures exists i: nat :: StopAt(events, i) && Run(EMPTY, events[..i]).tcpHeld.value.block == b
    decreases |events|
  {
    hide Run;
    var n := |events| - 1;
    var front := events[..n];
    if DroppedIn(front, b) > 0 {
      DroppedAtStop(front, b);
      var i: nat :| StopAt(front, i) && Run(EMPTY, front[..i]).tcpHeld.value.block == b;
      assert events[..i] == front[..i];
      assert StopAt(events, i);
    } else {
      assert StopAt(events, n);
    }
  }

  lemma {:induction false} StopDrops(events: seq<Event>, i: nat)
    requires StopAt(events, i)
    ensures DroppedIn(events, Run(EMPTY, events[..i]).tcpHeld.value.block) > 0
    decreases |events|
  {
    hide Run;
    var front := events[..|events| - 1];
    if i < |front| {
      assert front[..i] == events[..i];
      StopDrops(front, i);
    }
  }

  /** Over every run: a block is lost for good exactly if some stop of the mode found its task holding a
      message. */
  lemma LeakIffStoppedHolding(events: seq<Event>)
    ensures (exists b: nat :: Leaks(Run(EMPTY, events), b)) <==> (exists i: nat :: StopAt(events, i))
  {
    hide Run, Places, DroppedIn;
    if b: nat :| Leaks(Run(EMPTY, events), b) {
      EveryBlockOnce(events, b);
      DroppedAtStop(events, b);
    }
    if i: nat :| StopAt(events, i) {
      var b := Run(EMPTY, events[..i]).tcpHeld.value.block;
      StopDrops(events, i);
      EveryBlockOnce(events, b);
      assert Leaks(Run(EMPTY, events), b);
    }
  }

  lemma RunSnoc(s: Pipe, events: seq<Event>, e: Event)
    ensures Run(s, events + [e]) == Step(Run(s, events), e) && Run(s, []) == s
  {
    hide Step;
    assert (events + [e])[..|events|] == events;
  }

  function OnItsWay(data: seq<byte>): seq<Event> {
    [StartMode] + [Frame(data, true)] + [Receive] + [Process(true, true, true)] + [TcpReceive]
  }

  /** And it happens: a frame is on its way to TCP when the mode is stopped. */
  lemma StopCanLeak(data: seq<byte>)
    requires data != []
    ensures Leaks(Run(EMPTY, OnItsWay(data) + [StopMode]), 1)
  {
    var events := OnItsWay(data) + [StopMode];
    OnItsWayRun(data);
    assert |OnItsWay(data)| == 5 && events[..5] == OnItsWay(data);
    hide Run, OnItsWay, DroppedIn, Places;
    assert StopAt(events, 5);
    StopDrops(events, 5);
    EveryBlockOnce(events, 1);
  }

  lemma OnItsWayRun(data: seq<byte>)
    requires data != []
    ensures
      var t := Run(EMPTY, OnItsWay(data));
      t.running && t.tcpHeld == Some(Msg(1, 0, Truncated(data)))
  {
    hide Run, Step, Truncated;
    var e1, e2, e3, e4 := StartMode, Frame(data, true), Receive, Process(true, true, true);
    assert [] + [e1] == [e1];
    RunSnoc(EMPTY, [], e1);
    RunSnoc(EMPTY, [e1], e2);
    RunSnoc(EMPTY, [e1] + [e2], e3);
    RunSnoc(EMPTY, [e1] + [e2] + [e3], e4);
    RunSnoc(EMPTY, [e1] + [e2] + [e3] + [e4], TcpReceive);
    TakenByTask(data);
  }

  lemma TakenByTask(data: seq<byte>)
    requires data != []
    ensures
      var s := Step(Step(Step(EMPTY, StartMode), Frame(data, true)), Receive);
      var t := Step(Step(s, Process(true, true, true)), TcpReceive);
      t.running && t.tcpHeld == Some(Msg(1, 0, Truncated(data)))
  {
    hide Truncated;
    var s := Step(Step(Step(EMPTY, StartMode), Frame(data, true)), Receive);
    assert s.proc == Some(Msg(0, 0, data)) && !s.handled && s.running && s.nextBlock == 1 && s.tcpQueue == [];
  }

  // ---------------------------------------------------------------- order

  function ItemOf(m: Msg): Item { Item(m.frame, Truncated(m.data)) }

  function Held(m: Option<Msg>): seq<Item> { if m.Some? then [ItemOf(m.value)] else [] }

  function Queued(q: seq<Option<Msg>>): seq<Item> {
    if q == [] then [] else Held(q[0]) + Queued(q[1..])
  }

  function TcpQueued(q: seq<Msg>): seq<Item> {
    if q == [] then [] else [ItemOf(q[0])] + TcpQueued(q[1..])
  }

  /** Everything on its way, in the order in which it left or will leave. */
  function Downstream(s: Pipe): seq<Item> { s.forwarded + Held(s.tcpHeld) + TcpQueued(s.tcpQueue) }

  function Upstream(s: Pipe): seq<Item> {
    (if s.handled then [] else Held(s.proc)) + Queued(s.queue)
  }

  function Line(s: Pipe): seq<Item> { Downstream(s) + Upstream(s) }

  /** Frames in the order in which they were cut, each at most once, each as it was cut. */
  ghost predicate InOrder(items: seq<Item>, cut: seq<seq<byte>>) {
    && (forall k :: 0 <= k < |items| ==> items[k].frame < |cut| && items[k].data == Truncated(cut[items[k].frame]))
    && (forall j, k :: 0 <= j < k < |items| ==> items[j].frame < items[k].frame)
  }

  /** The shorter line comes from the longer one by leaving things out. */
  ghost predicate Thinned(a: seq<Item>, b: seq<Item>) {
    exists from, to :: Removed(a, b, from, to)
  }

  ghost predicate Removed(a: seq<Item>, b: seq<Item>, from: nat, to: nat) {
    from <= to <= |a| && b == a[..from] + a[to..]
  }

  lemma ThinnedInOrder(a: seq<Item>, b: seq<Item>, cut: seq<seq<byte>>)
    requires InOrder(a, cut) && Thinned(a, b)
    ensures InOrder(b, cut)
  {
    hide Truncated;
    var from: nat, to: nat :| Removed(a, b, from, to);
    RemovedAt(a, b, from, to);
    hide Removed;
    forall k | 0 <= k < |b|
      ensures b[k].frame < |cut| && b[k].data == Truncated(cut[b[k].frame])
    {
      assert b[k] == a[if k < from then k else k - from + to];
    }
    forall j, k | 0 <= j < k < |b| ensures b[j].frame < b[k].frame {
      var j', k' := if j < from then j else j - from + to, if k < from then k else k - from + to;
      assert b[j] == a[j'] && b[k] == a[k'] && j' < k';
    }
  }

  lemma RemovedAt(a: seq<Item>, b: seq<Item>, from: nat, to: nat)
    requires Removed(a, b, from, to)
    ensures from <= to <= |a| && |b| == |a| - (to - from)
    ensures forall k :: 0 <= k < |b| ==> b[k] == a[if k < from then k else k - from + to]
  {
  }

  lemma {:induction false} QueuedSnoc(q: seq<Option<Msg>>, m: Option<Msg>)
    ensures Queued(q + [m]) == Queued(q) + Held(m)
    decreases |q|
  {
    if q == [] {
      assert Queued([]) == [] && [m][1..] == [];
    } else {
      assert (q + [m])[1..] == q[1..] + [m];
      QueuedSnoc(q[1..], m);
      assert Held(q[0]) + (Queued(q[1..]) + Held(m)) == Held(q[0]) + Queued(q[1..]) + Held(m);
    }
  }

  lemma {:induction false} TcpQueuedSnoc(q: seq<Msg>, m: Msg)
    ensures TcpQueued(q + [m]) == TcpQueued(q) + [ItemOf(m)]
    decreases |q|
  {
    if q == [] {
      assert TcpQueued([]) == [] && [m][1..] == [];
    } else {
      assert (q + [m])[1..] == q[1..] + [m];
      TcpQueuedSnoc(q[1..], m);
      assert [ItemOf(q[0])] + (TcpQueued(q[1..]) + [ItemOf(m)]) == [ItemOf(q[0])] + TcpQueued(q[1..]) + [ItemOf(m)];
    }
  }

  lemma SplitThins(a: seq<Item>, x: seq<Item>, b: seq<Item>)
    ensures Thinned(a + x + b, a + b)
  {
    var whole := a + x + b;
    assert whole[..|a|] == a && whole[|a| + |x|..] == b;
    assert Removed(whole, a + b, |a|, |a| + |x|);
  }

  lemma SameThins(a: seq<Item>)
    ensures Thinned(a, a)
  {
    assert a == a[..|a|] + a[|a|..];
    assert Removed(a, a, |a|, |a|);
  }

  /** A step that cuts no frame only moves the line on or leaves something out. */
  ghost predicate Sane(s: Pipe) {
    && (s.proc == None ==> !s.handled)
    && (s.tcpHeld.Some? ==> |s.tcpHeld.value.data| <= UART_IO_BUF_SIZE)
    && forall i :: 0 <= i < |s.tcpQueue| ==> |s.tcpQueue[i].data| <= UART_IO_BUF_SIZE
  }

  lemma DropHead(s: Pipe)
    requires s.queue != []
    ensures Thinned(Line(s), Line(s.(queue := s.queue[1..])))
  {
    var front := Downstream(s) + if s.handled then [] else Held(s.proc);
    hide Held;
    SplitThins(front, Held(s.queue[0]), Queued(s.queue[1..]));
    assert Line(s) == front + Held(s.queue[0]) + Queued(s.queue[1..]);
    assert Line(s.(queue := s.queue[1..])) == front + Queued(s.queue[1..]);
  }

  lemma ProcessThins(s: Pipe, reallocOk: bool, hasHandler: bool, mallocOk: bool)
    requires Sane(s) && s.proc.Some? && !s.handled
    ensures Thinned(Line(s), Line(Step(s, Process(reallocOk, hasHandler, mallocOk))))
    ensures Sane(Step(s, Process(reallocOk, hasHandler, mallocOk)))
  {
    hide Queued, TcpQueued;
    var m := s.proc.value;
    var copy := Msg(s.nextBlock, m.frame, Truncated(m.data));
    var t := Step(s, Process(reallocOk, hasHandler, mallocOk));
    TcpQueuedSnoc(s.tcpQueue, copy);
    assert Line(s) == Downstream(s) + [ItemOf(m)] + Queued(s.queue);
    if |t.tcpQueue| > |s.tcpQueue| {
      assert Line(t) == Line(s);
      SameThins(Line(s));
    } else {
      assert Line(t) == Downstream(s) + Queued(s.queue);
      SplitThins(Downstream(s), [ItemOf(m)], Queued(s.queue));
    }
  }

  lemma StopStep(s: Pipe)
    requires s.running
    ensures
      var t := Step(s, StopMode);
      t == s.(freed := t.freed, tcpHeld := None, tcpQueue := [], running := false)
  {
    FreeAllCounts(s.(tcpHeld := None), s.tcpQueue, 0);
  }

  lemma StopThins(s: Pipe)
    requires Sane(s) && s.running
    ensures Thinned(Line(s), Line(Step(s, StopMode))) && Sane(Step(s, StopMode))
    ensures Step(s, StopMode).cut == s.cut
  {
    hide Queued, Step, FreeAll, Thinned;
    StopStep(s);
    var lost := Held(s.tcpHeld) + TcpQueued(s.tcpQueue);
    SplitThins(s.forwarded, lost, Upstream(s));
    assert Line(s) == s.forwarded + lost + Upstream(s);
    assert Line(Step(s, StopMode)) == s.forwarded + Upstream(s);
  }

  lemma ReceiveKeepsLine(s: Pipe)
    requires Sane(s)
    ensures Line(Step(s, Receive)) == Line(s) && Sane(Step(s, Receive)) && Step(s, Receive).cut == s.cut
  {
    hide InQueue, FreeAll, TcpQueued, OnUartData, PostFrame;
    if !(s.proc.Some? || s.purge > 0 || s.queue == []) {
      assert Queued(s.queue) == Held(s.queue[0]) + Queued(s.queue[1..]);
    }
  }

  lemma ReleaseKeepsLine(s: Pipe)
    requires Sane(s)
    ensures Line(Step(s, Release)) == Line(s) && Sane(Step(s, Release)) && Step(s, Release).cut == s.cut
  {
    hide Queued, TcpQueued, ItemOf;
  }

  lemma TcpReceiveKeepsLine(s: Pipe)
    requires Sane(s)
    ensures Line(Step(s, TcpReceive)) == Line(s) && Sane(Step(s, TcpReceive)) && Step(s, TcpReceive).cut == s.cut
  {
    if s.tcpQueue != [] {
      assert TcpQueued(s.tcpQueue) == [ItemOf(s.tcpQueue[0])] + TcpQueued(s.tcpQueue[1..]);
    }
    hide Queued, TcpQueued, ItemOf;
  }

  lemma TcpSendKeepsLine(s: Pipe)
    requires Sane(s)
    ensures Line(Step(s, TcpSend)) == Line(s) && Sane(Step(s, TcpSend)) && Step(s, TcpSend).cut == s.cut
  {
    hide Queued, TcpQueued;
  }

  lemma StepThins(s: Pipe, e: Event)
    requires Sane(s) && !e.Frame?
    ensures Thinned(Line(s), Line(Step(s, e))) && Sane(Step(s, e)) && Step(s, e).cut == s.cut
  {
    hide Queued, TcpQueued, FreeAll, Held, OnUartData, Thinned;
    SameThins(Line(s));
    match e
    case Wake => WakeThins(s);
    case Inspect =>
    case Discard => if s.purge > 0 && s.queue != [] { DropHead(s); }
    case Receive => ReceiveKeepsLine(s);
    case Process(reallocOk, hasHandler, mallocOk) =>
      if s.proc.Some? && !s.handled {
        ProcessThins(s, reallocOk, hasHandler, mallocOk);
        CutKept(s, s.proc.value, mallocOk);
      }
    case Release => ReleaseKeepsLine(s);
    case TcpReceive => TcpReceiveKeepsLine(s);
    case TcpSend => TcpSendKeepsLine(s);
    case Drain => if s.queue != [] { DropHead(s); }
    case StartMode =>
    case StopMode => if s.running { StopThins(s); }
  }

  lemma WakeThins(s: Pipe)
    ensures Line(s.(queue := s.queue + [None])) == Line(s)
  {
    hide Queued, TcpQueued;
    QueuedSnoc(s.queue, None);
    assert Queued(s.queue) + [] == Queued(s.queue);
  }

  lemma CutKept(s: Pipe, m: Msg, mallocOk: bool)
    ensures OnUartData(s, m, mallocOk).cut == s.cut
  {
  }

  lemma FrameKeepsOrder(s: Pipe, data: seq<byte>, mallocOk: bool)
    requires Sane(s) && InOrder(Line(s), s.cut)
    ensures var t := PostFrame(s, data, mallocOk); Sane(t) && InOrder(Line(t), t.cut)
  {
    hide Queued, TcpQueued, Held, Truncated;
    var t := PostFrame(s, data, mallocOk);
    var m := Msg(s.nextBlock, |s.cut|, data);
    assert InOrder(Line(s), t.cut);
    if |t.queue| > |s.queue| {
      assert Line(t) == Line(s) + [ItemOf(m)] by { QueuedMore(s, t, m); }
    }
  }

  lemma QueuedMore(s: Pipe, t: Pipe, m: Msg)
    requires t.forwarded == s.forwarded && t.tcpHeld == s.tcpHeld && t.tcpQueue == s.tcpQueue
    requires t.proc == s.proc && t.handled == s.handled && t.queue == s.queue + [Some(m)]
    ensures Line(t) == Line(s) + [ItemOf(m)]
  {
    QueuedSnoc(s.queue, Some(m));
    OneHeld(m);
    hide Queued, TcpQueued, Held, Truncated, ItemOf;
  }

  lemma OneHeld(m: Msg)
    ensures Held(Some(m)) == [ItemOf(m)]
  {
  }

  lemma {:induction false} LineInOrder(events: seq<Event>)
    ensures var s := Run(EMPTY, events); Sane(s) && InOrder(Line(s), s.cut)
    decreases |events|
  {
    if events != [] {
      hide Step, Sane, Line, InOrder;
      var s, e := Run(EMPTY, events[..|events| - 1]), events[|events| - 1];
      LineInOrder(events[..|events| - 1]);
      if e.Frame? {
        FrameKeepsOrder(s, e.data, e.mallocOk);
        FrameStep(s, e);
      } else {
        StepThins(s, e);
        ThinnedInOrder(Line(s), Line(Step(s, e)), s.cut);
      }
    }
  }

  lemma FrameStep(s: Pipe, e: Event)
    requires e.Frame?
    ensures Step(s, e) == PostFrame(s, e.data, e.mallocOk)
  {
  }

  /** Under every interleaving, what reaches TCP is a subsequence of the frames cut, in their order,
      none twice, each cut off at 4096 bytes and otherwise unchanged. */
  lemma ForwardedInOrder(events: seq<Event>)
    ensures InOrder(Run(EMPTY, events).forwarded, Run(EMPTY, events).cut)
  {
    var s := Run(EMPTY, events);
    LineInOrder(events);
    var rest := Line(s)[|s.forwarded|..];
    assert Line(s) == s.forwarded + rest + [];
    SplitThins(s.forwarded, rest, []);
    assert s.forwarded + [] == s.forwarded;
    ThinnedInOrder(Line(s), s.forwarded, s.cut);
  }

  // ---------------------------------------------------------------- what is lost, and what is not

  /** A frame gets into the first queue exactly if its copy is allocated and fewer than twenty wait. */
  lemma FrameQueuedIff(s: Pipe, data: seq<byte>, mallocOk: bool)
    ensures
      var t := PostFrame(s, data, mallocOk);
      && t.cut == s.cut + [data]
      && (mallocOk && |s.queue| < 20 ==> t.queue == s.queue + [Some(Msg(s.nextBlock, |s.cut|, data))])
      && (!(mallocOk && |s.queue| < 20) ==> t.queue == s.queue)
  {
  }

  /** And from there into the second one exactly if the mode is running, there is something in it, its
      copy is allocated and fewer than ten wait. */
  lemma FrameHandedOnIff(s: Pipe, m: Msg, mallocOk: bool)
    ensures
      var t := OnUartData(s, m, mallocOk);
      var data := if |m.data| <= 4096 then m.data else m.data[..4096];
      && (s.running && m.data != [] && mallocOk && |s.tcpQueue| < 10 ==>
            t.tcpQueue == s.tcpQueue + [Msg(s.nextBlock, m.frame, data)])
      && (!(s.running && m.data != [] && mallocOk && |s.tcpQueue| < 10) ==> t.tcpQueue == s.tcpQueue)
  {
  }

  /** The wake-up message needs room like a frame; more than fifteen messages are a backlog, of which all
      but five are to go. */
  lemma WakeAndInspectIff(s: Pipe)
    ensures Step(s, Wake).queue == s.queue + if |s.queue| < 20 then [None] else []
    ensures s.proc == None && s.purge == 0 ==>
      Step(s, Inspect) == s.(purge := if |s.queue| > 15 then |s.queue| - 5 else 0)
  {
    assert s.queue + [] == s.queue;
  }

  /** The processing task does one thing at a time: while it discards or has a message it neither looks at
      the backlog nor takes another message. */
  lemma OneAtATime(s: Pipe)
    requires s.purge > 0 || s.proc.Some?
    ensures Step(s, Receive) == s && Step(s, Inspect) == s
  {
  }

  /** How many frames a step loses: one that finds no memory or no room, one purged or drained, one
      skipped or dropped on its way to the mode, all that a stop finds in the mode's hands. */
  function Lost(s: Pipe, e: Event): nat {
    match e
    case Frame(_, mallocOk) => if mallocOk && |s.queue| < 20 then 0 else 1
    case Discard => if s.purge > 0 && s.queue != [] && s.queue[0].Some? then 1 else 0
    case Drain => if s.queue != [] && s.queue[0].Some? then 1 else 0
    case Process(reallocOk, hasHandler, mallocOk) =>
      if s.proc == None || s.handled then 0
      else if reallocOk && hasHandler && s.running && mallocOk && |s.tcpQueue| < 10 then 0
      else 1
    case StopMode => if s.running then |s.tcpQueue| + |Held(s.tcpHeld)| else 0
    case _ => 0
  }

  function LostIn(events: seq<Event>): nat {
    if events == [] then 0
    else LostIn(events[..|events| - 1]) + Lost(Run(EMPTY, events[..|events| - 1]), events[|events| - 1])
  }

  /** The frames cut, as they are to be forwarded. */
  function All(cut: seq<seq<byte>>): seq<Item> {
    seq(|cut|, i requires 0 <= i < |cut| => Item(i, if |cut[i]| <= 4096 then cut[i] else cut[i][..4096]))
  }

  lemma {:induction false} TcpQueuedSize(q: seq<Msg>)
    ensures |TcpQueued(q)| == |q|
    decreases |q|
  {
    if q != [] {
      TcpQueuedSize(q[1..]);
    }
  }

  function Size(s: Pipe): nat {
    |s.forwarded| + |Held(s.tcpHeld)| + |s.tcpQueue| + (if s.handled then 0 else |Held(s.proc)|) + |Queued(s.queue)|
  }

  lemma LineSize(s: Pipe)
    ensures |Line(s)| == Size(s)
  {
    TcpQueuedSize(s.tcpQueue);
  }

  lemma QueuedHead(q: seq<Option<Msg>>)
    ensures Queued([]) == []
    ensures q != [] ==> |Queued(q)| == |Held(q[0])| + |Queued(q[1..])|
  {
  }

  /** What a step adds to the line or takes from it. */
  ghost predicate Counted(s: Pipe, e: Event) {
    Size(Step(s, e)) + Lost(s, e) == Size(s) + if e.Frame? then 1 else 0
  }

  lemma ReceiverCounts(s: Pipe, e: Event)
    requires e.Frame? || e.Wake?
    ensures Counted(s, e)
  {
    if e.Frame? {
      QueuedSnoc(s.queue, Some(Msg(s.nextBlock, |s.cut|, e.data)));
    } else {
      QueuedSnoc(s.queue, None);
    }
    hide Queued, Truncated;
  }

  lemma ProcessorCounts(s: Pipe, e: Event)
    requires e.Inspect? || e.Discard? || e.Receive? || e.Release? || e.Drain?
    requires s.proc == None ==> !s.handled
    ensures Counted(s, e)
  {
    QueuedHead(s.queue);
    hide Queued, ItemOf;
  }

  lemma HandingOnCounts(s: Pipe, e: Event)
    requires e.Process? && (s.proc.Some? && !s.handled ==> s.proc.value.data != [])
    ensures Counted(s, e)
  {
    hide Queued, Truncated;
  }

  lemma ModeCounts(s: Pipe, e: Event)
    requires e.TcpReceive? || e.TcpSend? || e.StartMode? || e.StopMode?
    ensures Counted(s, e)
  {
    if e.StopMode? && s.running {
      StopStep(s);
    }
    hide Queued, FreeAll;
  }

  lemma StepCounts(s: Pipe, e: Event)
    requires e.Process? && s.proc.Some? && !s.handled ==> s.proc.value.data != []
    requires s.proc == None ==> !s.handled
    ensures |Line(Step(s, e))| + Lost(s, e) == |Line(s)| + if e.Frame? then 1 else 0
  {
    LineSize(s);
    LineSize(Step(s, e));
    hide Line, Size, Step, Lost;
    if e.Frame? || e.Wake? {
      ReceiverCounts(s, e);
    } else if e.Process? {
      HandingOnCounts(s, e);
    } else if e.TcpReceive? || e.TcpSend? || e.StartMode? || e.StopMode? {
      ModeCounts(s, e);
    } else {
      ProcessorCounts(s, e);
    }
  }

  /** Frames are cut with something in them. */
  ghost predicate RealFrames(events: seq<Event>) {
    forall i :: 0 <= i < |events| && events[i].Frame? ==> events[i].data != []
  }

  lemma {:induction false} CutReal(events: seq<Event>)
    requires RealFrames(events)
    ensures forall i :: 0 <= i < |Run(EMPTY, events).cut| ==> Run(EMPTY, events).cut[i] != []
    decreases |events|
  {
    if events != [] {
      var s, e := Run(EMPTY, events[..|events| - 1]), events[|events| - 1];
      CutReal(events[..|events| - 1]);
      LineInOrder(events[..|events| - 1]);
      if e.Frame? {
        FrameStep(s, e);
        FrameQueuedIff(s, e.data, e.mallocOk);
      } else {
        StepThins(s, e);
      }
      hide Step, InOrder, PostFrame, Line, Thinned, Sane;
    }
  }

  /** A message being worked on comes from a frame with something in it. */
  lemma ProcReal(events: seq<Event>)
    requires RealFrames(events)
    ensures
      var s := Run(EMPTY, events);
      s.proc.Some? && !s.handled ==> s.proc.value.data != []
  {
    var s := Run(EMPTY, events);
    CutReal(events);
    LineInOrder(events);
    hide Run;
    if s.proc.Some? && !s.handled {
      var k := |Downstream(s)|;
      assert Line(s) == Downstream(s) + ([ItemOf(s.proc.value)] + Queued(s.queue));
      assert Line(s)[k] == ItemOf(s.proc.value);
    }
  }

  lemma {:induction false} CutCounts(events: seq<Event>)
    requires RealFrames(events)
    ensures |Line(Run(EMPTY, events))| + LostIn(events) == |Run(EMPTY, events).cut|
    decreases |events|
  {
    if events != [] {
      var front, e := events[..|events| - 1], events[|events| - 1];
      var s := Run(EMPTY, front);
      CutCounts(front);
      ProcReal(front);
      LineInOrder(front);
      StepCounts(s, e);
      if !e.Frame? {
        StepThins(s, e);
      } else {
        FrameStep(s, e);
        FrameQueuedIff(s, e.data, e.mallocOk);
      }
      hide Step, Line, InOrder, Thinned, Lost, PostFrame;
    }
  }

  /** Over every run: the frames cut are those forwarded, those on their way and those lost, each loss of
      the kinds above; without one, exactly the frames cut have been or will be forwarded, in order. */
  lemma FramesConserved(events: seq<Event>)
    requires RealFrames(events)
    ensures
      var s := Run(EMPTY, events);
      && |Line(s)| + LostIn(events) == |s.cut|
      && (LostIn(events) == 0 ==> Line(s) == All(s.cut))
      && (LostIn(events) == 0 && s.tcpHeld == s.proc == None && s.tcpQueue == [] && s.queue == [] ==>
            s.forwarded == All(s.cut))
  {
    var s := Run(EMPTY, events);
    CutCounts(events);
    LineInOrder(events);
    hide Run, LostIn;
    if LostIn(events) == 0 {
      FullLine(Line(s), s.cut);
    }
  }

  lemma {:induction false} NoGaps(items: seq<Item>, cut: seq<seq<byte>>, k: nat)
    requires InOrder(items, cut) && k < |items|
    ensures items[k].frame >= k
  {
    if k > 0 {
      NoGaps(items, cut, k - 1);
    }
  }

  lemma {:induction false} NoneAfter(items: seq<Item>, cut: seq<seq<byte>>, k: nat)
    requires InOrder(items, cut) && k < |items|
    ensures items[k].frame + |items| <= |cut| + k
    decreases |items| - k
  {
    if k + 1 < |items| {
      NoneAfter(items, cut, k + 1);
    }
  }

  lemma FullLine(items: seq<Item>, cut: seq<seq<byte>>)
    requires InOrder(items, cut) && |items| == |cut|
    ensures items == All(cut)
  {
    forall k | 0 <= k < |items| ensures items[k] == All(cut)[k] {
      NoGaps(items, cut, k);
      NoneAfter(items, cut, k);
    }
  }

  // ---------------------------------------------------------------- nothing stays behind

  /** The two tasks' turns, nobody else running. */
  function Turn(): seq<Event> {
    [Receive] + [Process(true, true, true)] + [Release] + [TcpReceive] + [TcpSend]
  }

  ghost predicate Idle(s: Pipe) {
    s.running && s.proc == None && !s.handled && s.purge == 0 && s.tcpHeld == None && s.tcpQueue == []
  }

  /** A turn sends the oldest message. */
  lemma TurnForwards(s: Pipe)
    requires Idle(s) && s.queue != [] && (s.queue[0].Some? ==> s.queue[0].value.data != [])
    ensures
      var t := Run(s, Turn());
      Idle(t) && t.queue == s.queue[1..] && t.forwarded == s.forwarded + Held(s.queue[0])
  {
    TurnIsSteps(s);
    hide Run, Truncated;
    var t1 := Step(s, Receive);
    var t2 := Step(t1, Process(true, true, true));
    var t3 := Step(t2, Release);
    assert t1.queue == s.queue[1..] && t1.proc == s.queue[0] && t1.tcpQueue == [];
    assert Idle(t3.(tcpQueue := [])) && t3.queue == s.queue[1..] && t3.forwarded == s.forwarded;
  }

  lemma TurnIsSteps(s: Pipe)
    ensures Run(s, Turn()) ==
            Step(Step(Step(Step(Step(s, Receive), Process(true, true, true)), Release), TcpReceive), TcpSend)
  {
    hide Step, Run;
    var process := Process(true, true, true);
    assert [] + [Receive] == [Receive];
    RunSnoc(s, [], Receive);
    RunSnoc(s, [Receive], process);
    RunSnoc(s, [Receive] + [process], Release);
    RunSnoc(s, [Receive] + [process] + [Release], TcpReceive);
    RunSnoc(s, [Receive] + [process] + [Release] + [TcpReceive], TcpSend);
  }

  function Turns(n: nat): seq<Event> { if n == 0 then [] else Turn() + Turns(n - 1) }

  /** While nobody purges, stops or runs out of memory, the two tasks get everything that waits across. */
  lemma {:induction false} BacklogForwarded(s: Pipe)
    requires Idle(s)
    requires forall i :: 0 <= i < |s.queue| && s.queue[i].Some? ==> s.queue[i].value.data != []
    ensures
      var t := Run(s, Turns(|s.queue|));
      Idle(t) && t.queue == [] && t.forwarded == s.forwarded + Queued(s.queue)
    decreases |s.queue|
  {
    hide Run, Turn, Idle, Queued, Held, Step;
    if s.queue == [] {
      RunSnoc(s, [], Receive);
      QueuedHead([]);
      assert s.forwarded + [] == s.forwarded;
    } else {
      TurnForwards(s);
      RunJoin(s, Turn(), Turns(|s.queue| - 1));
      QueuedUnfolds(s.queue);
      var t := Run(s, Turn());
      BacklogForwarded(t);
      assert s.forwarded + Held(s.queue[0]) + Queued(t.queue) == s.forwarded + (Held(s.queue[0]) + Queued(t.queue));
    }
  }

  lemma QueuedUnfolds(q: seq<Option<Msg>>)
    requires q != []
    ensures Queued(q) == Held(q[0]) + Queued(q[1..])
  {
  }

  lemma {:induction false} RunJoin(s: Pipe, a: seq<Event>, b: seq<Event>)
    ensures Run(s, a + b) == Run(Run(s, a), b)
    decreases |b|
  {
    hide Step;
    if b == [] {
      assert a + b == a;
    } else {
      assert (a + b)[..|a + b| - 1] == a + b[..|b| - 1];
      RunJoin(s, a, b[..|b| - 1]);
    }
  }

  // ---------------------------------------------------------------- purging

  /** What the other tasks may do while the processing task discards; `Drain` is `stop_rx_task` giving up
      the wait for a processing task that is still there. */
  predicate Elsewhere(e: Event) {
    e.Frame? || e.Wake? || e.Drain? || e.TcpReceive? || e.TcpSend? || e.StartMode? || e.StopMode?
  }

  function Drains(events: seq<Event>): nat {
    if events == [] then 0 else Drains(events[..|events| - 1]) + if events[|events| - 1].Drain? then 1 else 0
  }

  lemma QueueStep(s: Pipe, e: Event) returns (added: seq<Option<Msg>>)
    requires Elsewhere(e) && !e.Drain?
    ensures Step(s, e).queue == s.queue + added && Step(s, e).purge == s.purge
  {
    hide Truncated;
    if e.StopMode? && s.running {
      FreeAllCounts(s.(tcpHeld := None), s.tcpQueue, 0);
    }
    added := Step(s, e).queue[|s.queue|..];
  }

  ghost predicate PurgeScript(events: seq<Event>) {
    forall i :: 0 <= i < |events| ==> Elsewhere(events[i]) || events[i] == Discard
  }

  /** A purge of backlog s has come to t: of the backlog and what was added since, only the oldest are
      gone, no more than were to be discarded so far and were drained; without drains exactly those that
      were to be discarded. */
  ghost predicate Purged(s: Pipe, t: Pipe, added: seq<Option<Msg>>, removed: nat, drains: nat) {
    && |s.queue| > PURGE_KEEPS && s.purge == |s.queue| - PURGE_KEEPS
    && t.purge <= s.purge
    && removed <= |s.queue + added| && t.queue == (s.queue + added)[removed..]
    && removed <= s.purge - t.purge + drains
    && (drains == 0 ==> removed == s.purge - t.purge)
  }

  /** However discarding interleaves with arrivals and with a drain: only the oldest messages go, one by
      one, and the newest five of the backlog stay, with everything newer, but for as many as are
      drained. */
  lemma {:induction false} PurgeKeepsNewest(s: Pipe, events: seq<Event>)
    returns (added: seq<Option<Msg>>, removed: nat)
    requires |s.queue| > PURGE_KEEPS && s.purge == |s.queue| - PURGE_KEEPS && PurgeScript(events)
    ensures Purged(s, Run(s, events), added, removed, Drains(events))
    decreases |events|
  {
    if events == [] {
      added, removed := [], 0;
      assert (s.queue + added)[0..] == s.queue;
    } else {
      PurgeFront(events);
      RunSplit(s, events);
      hide Run, Step, PurgeScript, Purged, Elsewhere;
      var front, e := events[..|events| - 1], events[|events| - 1];
      var before, gone := PurgeKeepsNewest(s, front);
      added, removed := PurgeStep(s, Run(s, front), before, gone, Drains(front), e);
    }
  }

  lemma PurgeFront(events: seq<Event>)
    requires PurgeScript(events) && events != []
    ensures PurgeScript(events[..|events| - 1])
    ensures Elsewhere(events[|events| - 1]) || events[|events| - 1] == Discard
  {
    hide Elsewhere;
  }

  lemma RunSplit(s: Pipe, events: seq<Event>)
    requires events != []
    ensures Run(s, events) == Step(Run(s, events[..|events| - 1]), events[|events| - 1])
  {
  }

  lemma PurgeStep(s: Pipe, t: Pipe, before: seq<Option<Msg>>, gone: nat, drains: nat, e: Event)
    returns (added: seq<Option<Msg>>, removed: nat)
    requires Purged(s, t, before, gone, drains) && (Elsewhere(e) || e == Discard)
    ensures Purged(s, Step(t, e), added, removed, drains + if e.Drain? then 1 else 0)
  {
    if e == Discard || e == Drain {
      added := before;
      removed := PurgeHead(s, t, before, gone, drains, e);
    } else {
      var more := QueueStep(t, e);
      added, removed := before + more, gone;
      hide Step, Elsewhere;
      var all := s.queue + before;
      assert all[gone..] + more == (all + more)[gone..];
      assert all + more == s.queue + added;
    }
  }

  lemma PurgeHead(s: Pipe, t: Pipe, before: seq<Option<Msg>>, gone: nat, drains: nat, e: Event)
    returns (removed: nat)
    requires Purged(s, t, before, gone, drains) && (e == Discard || e == Drain)
    ensures Purged(s, Step(t, e), before, removed, drains + if e.Drain? then 1 else 0)
  {
    HeadStep(t);
    hide Step;
    var all := s.queue + before;
    removed := if t.queue == [] || (e == Discard && t.purge == 0) then gone else gone + 1;
    assert gone < |all| ==> all[gone..][1..] == all[gone + 1..];
    assert gone < |all| <==> t.queue != [];
  }

  lemma HeadStep(s: Pipe)
    ensures
      var t := Step(s, Discard);
      if s.purge == 0 then t == s
      else if s.queue == [] then t == s.(purge := 0)
      else t.queue == s.queue[1..] && t.purge == s.purge - 1
    ensures
      var t := Step(s, Drain);
      t.purge == s.purge && t.queue == if s.queue == [] then [] else s.queue[1..]
  {
  }
}
