/** The tasks' code over the pipeline: what each piece of the firmware does to the queues, the heap
    and its local variables, step by step of the pipeline's state machine. */
module UartTasks {
  import opened Common
  import opened UartPipeline

  class Tasks {
    var cut: seq<seq<byte>>
    var uartDataQueue: seq<Option<Msg>>
    var toClear: nat
    var msg: Option<Msg>
    var handled: bool
    var tcpRunning: bool
    var tcpQueue: seq<Msg>
    var tcpMsg: Option<Msg>
    var forwarded: seq<Item>
    var nextBlock: nat
    var freed: multiset<nat>

    function View(): Pipe
      reads this
    {
      Pipe(cut, uartDataQueue, toClear, msg, handled, tcpRunning, tcpQueue, tcpMsg, forwarded, nextBlock, freed)
    }

    constructor ()
      ensures View() == EMPTY
    {
      cut, uartDataQueue, toClear, msg, handled := [], [], 0, None, false;
      tcpRunning, tcpQueue, tcpMsg, forwarded := false, [], None, [];
      nextBlock, freed := 0, multiset{};
    }

    method LoadUart(t: Pipe)
      modifies this`cut, this`uartDataQueue, this`toClear, this`msg, this`handled
      ensures View() ==
              old(View()).(cut := t.cut, queue := t.queue, purge := t.purge, proc := t.proc, handled := t.handled)
    {
      cut, uartDataQueue, toClear, msg, handled := t.cut, t.queue, t.purge, t.proc, t.handled;
    }

    method LoadTcp(t: Pipe)
      modifies this`tcpRunning, this`tcpQueue, this`tcpMsg, this`forwarded
      ensures View() == old(View()).(running := t.running, tcpQueue := t.tcpQueue, tcpHeld := t.tcpHeld,
                                     forwarded := t.forwarded)
    {
      tcpRunning, tcpQueue, tcpMsg, forwarded := t.running, t.tcpQueue, t.tcpHeld, t.forwarded;
    }

    method LoadHeap(t: Pipe)
      modifies this`nextBlock, this`freed
      ensures View() == old(View()).(nextBlock := t.nextBlock, freed := t.freed)
    {
      nextBlock, freed := t.nextBlock, t.freed;
    }

    /** The other tasks' turn. */
    method Interfere(script: seq<Event>)
      modifies this
      ensures View() == Run(old(View()), script)
    {
      hide Run;
      var t := Run(View(), script);
      LoadUart(t);
      LoadTcp(t);
      LoadHeap(t);
    }

    method Malloc() returns (block: nat)
      modifies this`nextBlock
      ensures block == old(nextBlock) && nextBlock == block + 1
    {
      block := nextBlock;
      nextBlock := nextBlock + 1;
    }

    method FreeMsg(m: Option<Msg>)
      modifies this`freed
      ensures View() == Free(old(View()), m)
    {
      if m.Some? {
        freed := freed + multiset{m.value.block};
      }
    }

    /** Step 4 of `rx_task`: copy the frame and queue the copy, or drop it. */
    method QueueFrame(frame: seq<byte>, mallocOk: bool)
      modifies this
      ensures View() == Step(old(View()), Frame(frame, mallocOk))
    {
      var number := |cut|;
      cut := cut + [frame];
      if mallocOk {
        var block := Malloc();
        var m := Some(Msg(block, number, frame));
        if |uartDataQueue| < UART_QUEUE_LEN {
          uartDataQueue := uartDataQueue + [m];
        } else {
          FreeMsg(m);
        }
      }
    }

    /** The backlog check of `uart_processing_task`; `gaps(k)` happens before the k-th discard. The oldest
        go, until five of those found are left; fewer only if somebody drains the queue meanwhile, which
        is also the only way for the loop to find it empty. */
    method PurgeBacklog(gaps: nat -> seq<Event>)
      returns (ghost script: seq<Event>, ghost added: seq<Option<Msg>>, ghost removed: nat)
      requires msg == None && toClear == 0
      requires forall k: nat, i: nat {:trigger gaps(k)[i]} :: i < |gaps(k)| ==> Elsewhere(gaps(k)[i])
      modifies this
      ensures View() == Run(old(View()), script) && toClear == 0
      ensures old(|uartDataQueue|) <= PURGE_ABOVE ==> View() == old(View())
      ensures old(|uartDataQueue|) > PURGE_ABOVE ==>
        && removed <= old(|uartDataQueue|) + |added| && uartDataQueue == (old(uartDataQueue) + added)[removed..]
        && removed <= old(|uartDataQueue|) - PURGE_KEEPS + Drains(script)
        && (Drains(script) == 0 ==> removed == old(|uartDataQueue|) - PURGE_KEEPS)
    {
      script, added, removed := [], [], 0;
      var queueCount := |uartDataQueue|;
      if queueCount > PURGE_ABOVE {
        ghost var s := View();
        toClear := queueCount - PURGE_KEEPS;
        ghost var s' := View();
        assert s' == Step(s, Inspect);
        ghost var done: seq<Event> := [];
        RunNone(s');
        hide Run, Step, Elsewhere;
        var cleared, received := 0, true;
        while cleared < queueCount - PURGE_KEEPS && received
          invariant 0 <= cleared <= queueCount - PURGE_KEEPS
          invariant View() == Run(s', done) && PurgeScript(done)
          invariant toClear == if received then queueCount - PURGE_KEEPS - cleared else 0
          decreases queueCount - cleared, received
        {
          received, done := DiscardAfter(gaps(cleared), s', done);
          if received {
            cleared := cleared + 1;
          }
        }
        added, removed := PurgeKeepsNewest(s', done);
        RunFromInspect(s, s', done);
        InspectDrainsNothing(done);
        script := [Inspect] + done;
      }
    }

    /** `xQueueReceive` without waiting, and free; `received` tells whether there was anything. */
    method DiscardAfter(gap: seq<Event>, ghost s: Pipe, ghost done: seq<Event>)
      returns (received: bool, ghost longer: seq<Event>)
      requires View() == Run(s, done) && PurgeScript(done) && toClear > 0
      requires forall i :: 0 <= i < |gap| ==> Elsewhere(gap[i])
      modifies this
      ensures View() == Run(s, longer) && PurgeScript(longer)
      ensures toClear == if received then old(toClear) - 1 else 0
    {
      hide Run, Step, Elsewhere;
      ProcUnmoved(View(), gap);
      Interfere(gap);
      RunJoin(s, done, gap);
      RunSnoc(s, done + gap, Discard);
      longer := done + gap + [Discard];
      received := |uartDataQueue| > 0;
      if received {
        DiscardOne();
      } else {
        NothingToDiscard(View());
        toClear := 0;
      }
    }

    method DiscardOne()
      requires |uartDataQueue| > 0 && toClear > 0
      modifies this
      ensures View() == Step(old(View()), Discard) && toClear == old(toClear) - 1
    {
      var m := uartDataQueue[0];
      uartDataQueue := uartDataQueue[1..];
      FreeMsg(m);
      toClear := toClear - 1;
    }

    method TakeMessage()
      requires msg == None && !handled && toClear == 0
      modifies this
      ensures View() == Step(old(View()), Receive) && !handled && toClear == 0
    {
      if |uartDataQueue| > 0 {
        msg, handled := uartDataQueue[0], false;
        uartDataQueue := uartDataQueue[1..];
      }
    }

    /** A message that cannot be copied to the old buffer is skipped, one without a handler dropped. */
    method WorkOn(reallocOk: bool, hasHandler: bool, mallocOk: bool)
      requires !handled
      modifies this`tcpQueue, this`nextBlock, this`freed, this`handled
      ensures View() == Step(old(View()), Process(reallocOk, hasHandler, mallocOk))
      ensures handled == msg.Some? && toClear == old(toClear)
    {
      hide UartPipeline.OnUartData;
      if msg.Some? {
        if reallocOk && hasHandler {
          OnUartData(msg.value, mallocOk);
        }
        handled := true;
      }
    }

    method FinishMessage()
      requires handled == msg.Some?
      modifies this
      ensures View() == Step(old(View()), Release) && msg == None && !handled && toClear == old(toClear)
    {
      if msg.Some? {
        FreeMsg(msg);
        msg, handled := None, false;
      }
    }

    /** The rest of one turn of `uart_processing_task`: take a message, work on it, free it. */
    method ReceiveAndProcess(reallocOk: bool, hasHandler: bool, mallocOk: bool, gap: seq<Event>, gap': seq<Event>)
      requires msg == None && !handled && toClear == 0
      requires forall i :: 0 <= i < |gap| ==> Elsewhere(gap[i])
      requires forall i :: 0 <= i < |gap'| ==> Elsewhere(gap'[i])
      modifies this
      ensures
        var script := [Receive] + gap + [Process(reallocOk, hasHandler, mallocOk)] + gap' + [Release];
        View() == Run(old(View()), script)
      ensures msg == None && !handled && toClear == 0
    {
      ghost var process := Process(reallocOk, hasHandler, mallocOk);
      TurnUnfolds(View(), gap, process, gap');
      hide Run, Step;
      TakeMessage();
      ProcUnmoved(View(), gap);
      Interfere(gap);
      WorkOn(reallocOk, hasHandler, mallocOk);
      ProcUnmoved(View(), gap');
      Interfere(gap');
      FinishMessage();
    }

    /** `mode_tcp_transparent_on_uart_data` */
    method OnUartData(m: Msg, mallocOk: bool)
      modifies this`tcpQueue, this`nextBlock, this`freed
      ensures View() == UartPipeline.OnUartData(old(View()), m, mallocOk)
    {
      if !tcpRunning || |m.data| == 0 {
        return;
      }
      if !mallocOk {
        return;
      }
      var block := Malloc();
      var copy := Msg(block, m.frame, Truncated(m.data));
      if |tcpQueue| < TCP_TRANSPARENT_QUEUE_SIZE {
        tcpQueue := tcpQueue + [copy];
      } else {
        FreeMsg(Some(copy));
      }
    }

    method TakeTcpMessage()
      requires tcpRunning && tcpMsg == None
      modifies this`tcpMsg, this`tcpQueue
      ensures View() == Step(old(View()), TcpReceive)
    {
      if |tcpQueue| > 0 {
        tcpMsg := Some(tcpQueue[0]);
        tcpQueue := tcpQueue[1..];
      }
    }

    method SendTcpMessage()
      modifies this`tcpMsg, this`forwarded, this`freed
      ensures View() == Step(old(View()), TcpSend)
    {
      if tcpMsg.Some? {
        forwarded := forwarded + [Item(tcpMsg.value.frame, tcpMsg.value.data)];
        FreeMsg(tcpMsg);
        tcpMsg := None;
      }
    }

    /** One turn of `tcp_transparent_task`; a turn without a message only waits, and a task deleted
        meanwhile has nothing left to send. */
    method ForwardOne(gap: seq<Event>)
      requires tcpRunning && tcpMsg == None
      modifies this
      ensures View() == Run(old(View()), [TcpReceive] + gap + [TcpSend])
    {
      ForwardUnfolds(View(), gap);
      hide Run, Step;
      TakeTcpMessage();
      Interfere(gap);
      SendTcpMessage();
    }

    method DropHead()
      requires |uartDataQueue| > 0
      modifies this
      ensures View() == Step(old(View()), Drain) && uartDataQueue == old(uartDataQueue)[1..]
    {
      var m := uartDataQueue[0];
      uartDataQueue := uartDataQueue[1..];
      FreeMsg(m);
    }

    /** The drain at the end of `stop_rx_task`. */
    method DrainQueue()
      modifies this
      ensures View() == Run(old(View()), seq(old(|uartDataQueue|), _ => Drain)) && uartDataQueue == []
    {
      hide Run, Step;
      ghost var s, n := View(), 0;
      RunNone(s);
      assert seq(0, _ => Drain) == [];
      while |uartDataQueue| > 0
        invariant n + |uartDataQueue| == |s.queue|
        invariant View() == Run(s, seq(n, _ => Drain))
      {
        RunSnoc(s, seq(n, _ => Drain), Drain);
        assert seq(n, _ => Drain) + [Drain] == seq(n + 1, _ => Drain);
        DropHead();
        n := n + 1;
      }
    }

    method DropTcpHead()
      requires |tcpQueue| > 0
      modifies this`tcpQueue, this`freed
      ensures tcpQueue == old(tcpQueue)[1..]
      ensures View() == Free(old(View()).(tcpQueue := old(tcpQueue)[1..]), Some(old(tcpQueue)[0]))
    {
      var m := tcpQueue[0];
      tcpQueue := tcpQueue[1..];
      FreeMsg(Some(m));
    }

    /** `mode_tcp_transparent_stop`: the task goes with whatever it holds, the queue is drained. */
    method StopTcpTransparent()
      modifies this
      ensures View() == Step(old(View()), StopMode)
    {
      StopUnfolds(View());
      hide Step, Drained;
      if tcpRunning {
        tcpMsg := None;
        DrainTcpQueue();
        tcpRunning := false;
      }
    }

    method DrainTcpQueue()
      modifies this
      ensures View() == Drained(old(View()))
    {
      hide Free, Drained;
      while |tcpQueue| > 0
        invariant Drained(View()) == Drained(old(View()))
        decreases |tcpQueue|
      {
        DrainedStep(View());
        DropTcpHead();
      }
      DrainedEmpty(View());
    }
  }

  lemma StopUnfolds(s: Pipe)
    ensures Step(s, StopMode) == if s.running then Drained(s.(tcpHeld := None)).(running := false) else s
  {
  }

  function Drained(s: Pipe): Pipe { FreeAll(s, s.tcpQueue).(tcpQueue := []) }

  lemma DrainedEmpty(s: Pipe)
    requires s.tcpQueue == []
    ensures Drained(s) == s
  {
  }

  lemma DrainedStep(s: Pipe)
    requires s.tcpQueue != []
    ensures Drained(s) == Drained(Free(s.(tcpQueue := s.tcpQueue[1..]), Some(s.tcpQueue[0])))
  {
    var m := Some(s.tcpQueue[0]);
    var rest := s.tcpQueue[1..];
    FreeAllCounts(Free(s, m), rest, 0);
    FreeAllCounts(Free(s.(tcpQueue := rest), m), rest, 0);
    SameFrees(Free(s, m), Free(s.(tcpQueue := rest), m), rest);
  }

  lemma RunNone(s: Pipe)
    ensures Run(s, []) == s
  {
  }

  lemma {:induction false} SameFrees(s: Pipe, t: Pipe, ms: seq<Msg>)
    requires s.freed == t.freed
    ensures FreeAll(s, ms).freed == FreeAll(t, ms).freed
    decreases |ms|
  {
    if ms != [] {
      SameFrees(Free(s, Some(ms[0])), Free(t, Some(ms[0])), ms[1..]);
    }
  }

  lemma NothingToDiscard(s: Pipe)
    requires s.queue == [] && s.purge > 0
    ensures Step(s, Discard) == s.(purge := 0)
  {
  }

  lemma {:induction false} InspectDrainsNothing(events: seq<Event>)
    ensures Drains([Inspect] + events) == Drains(events)
    decreases |events|
  {
    var all := [Inspect] + events;
    if events == [] {
      assert all[..0] == [];
    } else {
      InspectDrainsNothing(events[..|events| - 1]);
      assert all[..|all| - 1] == [Inspect] + events[..|events| - 1];
    }
  }

  lemma RunFromInspect(s: Pipe, s': Pipe, done: seq<Event>)
    requires s' == Step(s, Inspect)
    ensures Run(s, [Inspect] + done) == Run(s', done)
  {
    hide Step;
    RunJoin(s, [Inspect], done);
    assert [Inspect][..0] == [];
    assert Run(s, [Inspect]) == Step(Run(s, []), Inspect);
  }

  lemma ProcStep(s: Pipe, e: Event)
    requires Elsewhere(e)
    ensures Step(s, e).proc == s.proc && Step(s, e).handled == s.handled && Step(s, e).purge == s.purge
  {
    if e.StopMode? && s.running {
      FreeAllCounts(s.(tcpHeld := None), s.tcpQueue, 0);
    }
  }

  lemma {:induction false} ProcUnmoved(s: Pipe, gap: seq<Event>)
    requires forall i :: 0 <= i < |gap| ==> Elsewhere(gap[i])
    ensures Run(s, gap).proc == s.proc && Run(s, gap).handled == s.handled && Run(s, gap).purge == s.purge
    decreases |gap|
  {
    hide Step;
    if gap != [] {
      ProcUnmoved(s, gap[..|gap| - 1]);
      ProcStep(Run(s, gap[..|gap| - 1]), gap[|gap| - 1]);
    }
  }

  lemma RunOne(s: Pipe, e: Event)
    ensures Run(s, [e]) == Step(s, e)
  {
    hide Step;
    assert [e][..0] == [];
  }

  lemma TurnUnfolds(s: Pipe, gap: seq<Event>, process: Event, gap': seq<Event>)
    ensures Run(s, [Receive] + gap + [process] + gap' + [Release]) ==
            Step(Run(Step(Run(Step(s, Receive), gap), process), gap'), Release)
  {
    hide Step, Run;
    RunSnoc(s, [Receive] + gap + [process] + gap', Release);
    RunJoin(s, [Receive] + gap + [process], gap');
    RunSnoc(s, [Receive] + gap, process);
    RunJoin(s, [Receive], gap);
    RunOne(s, Receive);
  }

  lemma ForwardUnfolds(s: Pipe, gap: seq<Event>)
    ensures Run(s, [TcpReceive] + gap + [TcpSend]) == Step(Run(Step(s, TcpReceive), gap), TcpSend)
  {
    hide Step, Run;
    RunSnoc(s, [TcpReceive] + gap, TcpSend);
    RunJoin(s, [TcpReceive], gap);
    RunOne(s, TcpReceive);
  }
}
