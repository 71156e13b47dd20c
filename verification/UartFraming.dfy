/** The UART receive task: bytes from the driver are collected into frames that end when the buffer
    is full or the line has been silent long enough. One `Tick` is one turn of the task's loop; times
    are microseconds of a clock that does not run backwards. Whoever transmits meanwhile throws away
    what the driver has (`uart_flush_input` in `sendData`), and so does whoever reinstalls the driver. */
module UartFraming {
  import opened Common

  /** New bytes in the driver, `early` ones before it is flushed if it is, `late` ones after; what
      `uart_read_bytes` answers, when it was read, when silence was judged. */
  datatype Tick = Tick(early: seq<byte>, flushed: bool, late: seq<byte>, got: int, readAt: int, checkAt: int)

  /** A frame cut from the stream, when, and after how many successful reads. */
  datatype Cut = Cut(frame: seq<byte>, at: int, readsBefore: nat)

  /** `bytesRead` is everything read so far, `lost` the number of bytes flushed. */
  datatype Rx = Rx(
    fifo: seq<byte>, buffer: seq<byte>, last: int, hasData: bool, readTimes: seq<int>, cuts: seq<Cut>,
    bytesRead: seq<byte>, lost: nat)

  const START := Rx([], [], 0, false, [], [], [], 0)

  // ---------------------------------------------------------------- one turn of the loop

  function Min(a: nat, b: nat): nat { if a < b then a else b }

  /** What the driver has when the turn reads. */
  function Filled(x: Rx, t: Tick): Rx {
    if t.flushed then x.(fifo := t.late, lost := x.lost + |x.fifo| + |t.early|)
    else x.(fifo := x.fifo + t.early + t.late)
  }

  /** How many bytes this turn reads: what the driver gives, never more than fits. */
  function ReadCount(y: Rx, t: Tick, max: nat): nat {
    var space := if max >= |y.buffer| then max - |y.buffer| else 0;
    if t.got > 0 then Min(t.got, Min(|y.fifo|, space)) else 0
  }

  function Taken(y: Rx, t: Tick, max: nat): Rx {
    var n := ReadCount(y, t, max);
    if n == 0 then y
    else
      y.(fifo := y.fifo[n..], buffer := y.buffer + y.fifo[..n], last := t.readAt, hasData := true,
         readTimes := y.readTimes + [t.readAt], bytesRead := y.bytesRead + y.fifo[..n])
  }

  function AfterRead(x: Rx, t: Tick, max: nat): Rx { Taken(Filled(x, t), t, max) }

  /** Full, or data and enough whole milliseconds of silence. */
  predicate FrameEnds(x: Rx, t: Tick, max: nat, intervalMs: nat) {
    |x.buffer| >= max || (x.hasData && (t.checkAt - x.last) / 1000 >= intervalMs)
  }

  function Judged(x: Rx, t: Tick, max: nat, intervalMs: nat): Rx {
    if FrameEnds(x, t, max, intervalMs) && |x.buffer| > 0 then
      x.(buffer := [], hasData := false, cuts := x.cuts + [Cut(x.buffer, t.checkAt, |x.readTimes|)])
    else x
  }

  function Turn(x: Rx, t: Tick, max: nat, intervalMs: nat): Rx {
    Judged(AfterRead(x, t, max), t, max, intervalMs)
  }

  function Run(ticks: seq<Tick>, max: nat, intervalMs: nat): Rx {
    if ticks == [] then START
    else Turn(Run(ticks[..|ticks| - 1], max, intervalMs), ticks[|ticks| - 1], max, intervalMs)
  }

  ghost predicate ClockRuns(ticks: seq<Tick>) {
    && (forall i :: 0 <= i < |ticks| ==> ticks[i].readAt <= ticks[i].checkAt)
    && (forall i, j :: 0 <= i < j < |ticks| ==> ticks[i].checkAt <= ticks[j].readAt)
  }

  // ---------------------------------------------------------------- the task

  /** The local variables of `rx_task`, with the driver's buffer and the frames sent off so far. */
  class Receiver {
    const maxFrameLen: nat
    const frameIntervalMs: nat
    const frameBuffer: array<byte>
    var frameLength: nat
    var lastDataTimestamp: int
    var hasDataFlag: bool
    var fifo: seq<byte>
    var frames: seq<seq<byte>>

    ghost predicate Valid()
      reads this
    {
      frameLength <= maxFrameLen == frameBuffer.Length && maxFrameLen > 0
    }

    ghost predicate Shows(x: Rx)
      reads this, frameBuffer
    {
      && Valid()
      && x.fifo == fifo && x.buffer == frameBuffer[..frameLength]
      && x.last == lastDataTimestamp && x.hasData == hasDataFlag && frames == Frames(x.cuts)
    }

    constructor (frameLenBytes: int, frameTimeMs: int)
      ensures Shows(START) && fresh(frameBuffer)
      ensures maxFrameLen == (if frameLenBytes > 0 then frameLenBytes else 512)
      ensures frameIntervalMs == if frameTimeMs > 0 then frameTimeMs else 50
    {
      maxFrameLen := if frameLenBytes > 0 then frameLenBytes else 512;
      frameIntervalMs := if frameTimeMs > 0 then frameTimeMs else 50;
      frameBuffer := new byte[if frameLenBytes > 0 then frameLenBytes else 512];
      frameLength, lastDataTimestamp, hasDataFlag, fifo, frames := 0, 0, false, [], [];
    }

    /** What happens in the driver before the turn reads. */
    method FillFifo(t: Tick, ghost x: Rx)
      requires Shows(x)
      modifies this`fifo
      ensures Shows(Filled(x, t))
    {
      fifo := if t.flushed then t.late else fifo + t.early + t.late;
    }

    /** Step 2 of the loop: take over what the driver has and what fits. */
    method ReadUart(t: Tick, ghost y: Rx)
      requires Shows(y)
      modifies this`fifo, this`frameLength, this`lastDataTimestamp, this`hasDataFlag, frameBuffer
      ensures Shows(Taken(y, t, maxFrameLen))
    {
      hide Frames;
      if |fifo| > 0 {
        var availableSpace := maxFrameLen - frameLength;
        var readSize := if |fifo| < availableSpace then |fifo| else availableSpace;
        if readSize > 0 {
          var bytesRead := if t.got < readSize then t.got else readSize;
          if bytesRead > 0 {
            forall i | 0 <= i < bytesRead {
              frameBuffer[frameLength + i] := fifo[i];
            }
            assert frameBuffer[..frameLength + bytesRead] == y.buffer + y.fifo[..bytesRead];
            fifo := fifo[bytesRead..];
            frameLength := frameLength + bytesRead;
            lastDataTimestamp := t.readAt;
            hasDataFlag := true;
          }
        }
      }
    }

    /** Steps 3 and 4: decide whether a frame ends here and send it off. The branch that would shift
        left-over bytes to the front is never reached. */
    method CutFrame(t: Tick, ghost x: Rx)
      requires Shows(x) && (hasDataFlag <==> frameLength > 0)
      modifies this
      ensures Shows(Judged(x, t, maxFrameLen, frameIntervalMs))
    {
      var shouldProcess, frameToProcess := false, frameLength;
      if frameLength >= maxFrameLen {
        shouldProcess, frameToProcess := true, maxFrameLen;
      } else if hasDataFlag {
        var elapsedMs := (t.checkAt - lastDataTimestamp) / 1000;
        if elapsedMs >= frameIntervalMs {
          shouldProcess, frameToProcess := true, frameLength;
        }
      }
      if shouldProcess && frameToProcess > 0 {
        FramesSnoc(x.cuts, Cut(x.buffer, t.checkAt, |x.readTimes|));
        frames := frames + [frameBuffer[..frameToProcess]];
        if frameLength > frameToProcess {
          assert false;
        } else {
          frameLength := 0;
          hasDataFlag := false;
        }
      }
    }
  }

  /** `rx_task`; configured lengths and intervals that are not positive fall back to 512 bytes and
      50 ms. */
  method RxTask(frameLenBytes: int, frameTimeMs: int, ticks: seq<Tick>)
    returns (frames: seq<seq<byte>>, partial: seq<byte>)
    ensures
      var max := if frameLenBytes > 0 then frameLenBytes else 512;
      var intervalMs := if frameTimeMs > 0 then frameTimeMs else 50;
      var x := Run(ticks, max, intervalMs);
      frames == Frames(x.cuts) && partial == x.buffer
  {
    hide Filled, Taken, Judged;
    var rx := new Receiver(frameLenBytes, frameTimeMs);
    for k := 0 to |ticks|
      invariant rx.Shows(Run(ticks[..k], rx.maxFrameLen, rx.frameIntervalMs)) && fresh(rx) && fresh(rx.frameBuffer)
    {
      ghost var x := Run(ticks[..k], rx.maxFrameLen, rx.frameIntervalMs);
      assert ticks[..k + 1][..k] == ticks[..k];
      BufferState(ticks[..k], rx.maxFrameLen, rx.frameIntervalMs);
      FlagAfterRead(x, ticks[k], rx.maxFrameLen);
      rx.FillFifo(ticks[k], x);
      rx.ReadUart(ticks[k], Filled(x, ticks[k]));
      rx.CutFrame(ticks[k], AfterRead(x, ticks[k], rx.maxFrameLen));
    }
    assert ticks[..|ticks|] == ticks;
    frames, partial := rx.frames, rx.frameBuffer[..rx.frameLength];
  }

  lemma FlagAfterRead(x: Rx, t: Tick, max: nat)
    requires x.hasData <==> x.buffer != []
    ensures AfterRead(x, t, max).hasData <==> AfterRead(x, t, max).buffer != []
  {
  }

  function Frames(cuts: seq<Cut>): seq<seq<byte>> {
    seq(|cuts|, i requires 0 <= i < |cuts| => cuts[i].frame)
  }

  lemma FramesSnoc(cuts: seq<Cut>, c: Cut)
    ensures Frames(cuts + [c]) == Frames(cuts) + [c.frame]
  {
  }

  // ---------------------------------------------------------------- what every run keeps

  function Arrived(ticks: seq<Tick>): seq<byte> {
    if ticks == [] then []
    else Arrived(ticks[..|ticks| - 1]) + ticks[|ticks| - 1].early + ticks[|ticks| - 1].late
  }

  /** What remains of b when some bytes are left out is a. */
  ghost predicate Subsequence(a: seq<byte>, b: seq<byte>)
    decreases |b|
  {
    if b == [] then a == []
    else
      var front := b[..|b| - 1];
      Subsequence(a, front) || (a != [] && a[|a| - 1] == b[|b| - 1] && Subsequence(a[..|a| - 1], front))
  }

  lemma {:induction false} SubsequenceAppend(a: seq<byte>, b: seq<byte>, more: seq<byte>)
    requires Subsequence(a, b)
    ensures Subsequence(a + more, b + more) && Subsequence(a, b + more)
    decreases |more|
  {
    if more == [] {
      assert a + more == a && b + more == b;
    } else {
      var rest := more[..|more| - 1];
      SubsequenceAppend(a, b, rest);
      assert (a + more)[..|a + more| - 1] == a + rest && (b + more)[..|b + more| - 1] == b + rest;
    }
  }

  lemma {:induction false} SubsequencePrefix(a: seq<byte>, more: seq<byte>, b: seq<byte>)
    requires Subsequence(a + more, b)
    ensures Subsequence(a, b)
    decreases |b|
  {
    if b == [] || more == [] {
      assert more == [] ==> a + more == a;
    } else {
      var front, rest := b[..|b| - 1], more[..|more| - 1];
      assert (a + more)[..|a + more| - 1] == a + rest;
      if Subsequence(a + more, front) {
        SubsequencePrefix(a, more, front);
      } else {
        SubsequencePrefix(a, rest, front);
      }
    }
  }

  lemma {:induction false} SubsequenceSize(a: seq<byte>, b: seq<byte>)
    requires Subsequence(a, b)
    ensures |a| <= |b| && (|a| == |b| ==> a == b)
    decreases |b|
  {
    if b != [] {
      var front := b[..|b| - 1];
      if Subsequence(a, front) {
        SubsequenceSize(a, front);
      } else {
        SubsequenceSize(a[..|a| - 1], front);
        assert a == a[..|a| - 1] + [a[|a| - 1]] && b == front + [b[|b| - 1]];
      }
    }
  }

  lemma ConcatSnoc<T>(parts: seq<seq<T>>, part: seq<T>)
    ensures Concat(parts + [part]) == Concat(parts) + part
  {
    assert (parts + [part])[..|parts|] == parts;
  }

  /** Between turns the buffer is never full, and the flag tells whether it is empty. */
  lemma {:induction false} BufferState(ticks: seq<Tick>, max: nat, intervalMs: nat)
    requires max > 0
    ensures
      var x := Run(ticks, max, intervalMs);
      |x.buffer| < max && (x.hasData <==> x.buffer != [])
    decreases |ticks|
  {
    if ticks != [] {
      BufferState(ticks[..|ticks| - 1], max, intervalMs);
    }
  }

  lemma ReadConserves(x: Rx, t: Tick, max: nat)
    ensures
      var y, z := Filled(x, t), AfterRead(x, t, max);
      && z.bytesRead + z.fifo == x.bytesRead + y.fifo
      && z.cuts == x.cuts && z.lost == y.lost
      && (Concat(Frames(x.cuts)) + x.buffer == x.bytesRead ==> Concat(Frames(z.cuts)) + z.buffer == z.bytesRead)
  {
    hide Concat, Frames;
    var y := Filled(x, t);
    var n := ReadCount(y, t, max);
    assert y.fifo[..n] + y.fifo[n..] == y.fifo;
    assert n == 0 ==> y.fifo[n..] == y.fifo;
    var z := AfterRead(x, t, max);
    assert n > 0 ==> z.bytesRead + z.fifo == x.bytesRead + (y.fifo[..n] + y.fifo[n..]);
    assert n > 0 ==> Concat(Frames(x.cuts)) + z.buffer == (Concat(Frames(x.cuts)) + x.buffer) + y.fifo[..n];
  }

  lemma JudgedConserves(x: Rx, t: Tick, max: nat, intervalMs: nat)
    ensures
      var y := Judged(x, t, max, intervalMs);
      && Concat(Frames(y.cuts)) + y.buffer == Concat(Frames(x.cuts)) + x.buffer
      && y.bytesRead == x.bytesRead && y.fifo == x.fifo && y.lost == x.lost
  {
    hide Concat, Frames;
    var c := Cut(x.buffer, t.checkAt, |x.readTimes|);
    FramesSnoc(x.cuts, c);
    ConcatSnoc(Frames(x.cuts), c.frame);
  }

  /** Reading, cutting and buffering lose, repeat and reorder nothing: frames and partial buffer, in this
      order, are everything read. Bytes read and unread, in this order, are what arrived with some bytes
      left out, as many as were flushed; so they are all of it exactly if no flush found anything. */
  lemma {:induction false} BytesConserved(ticks: seq<Tick>, max: nat, intervalMs: nat)
    ensures
      var x := Run(ticks, max, intervalMs);
      && Concat(Frames(x.cuts)) + x.buffer == x.bytesRead
      && Subsequence(x.bytesRead + x.fifo, Arrived(ticks))
      && |x.bytesRead + x.fifo| + x.lost == |Arrived(ticks)|
      && (x.bytesRead + x.fifo == Arrived(ticks) <==> x.lost == 0)
    decreases |ticks|
  {
    hide Judged, AfterRead, Filled;
    if ticks == [] {
      assert Frames([]) == [];
    } else {
      var front, t := ticks[..|ticks| - 1], ticks[|ticks| - 1];
      var x := Run(front, max, intervalMs);
      BytesConserved(front, max, intervalMs);
      ReadConserves(x, t, max);
      JudgedConserves(AfterRead(x, t, max), t, max, intervalMs);
      hide Concat, Frames, Subsequence;
      FilledFrom(x, t, Arrived(front));
      SubsequenceSize(Run(ticks, max, intervalMs).bytesRead + Run(ticks, max, intervalMs).fifo, Arrived(ticks));
    }
  }

  lemma FilledFrom(x: Rx, t: Tick, before: seq<byte>)
    requires Subsequence(x.bytesRead + x.fifo, before) && |x.bytesRead + x.fifo| + x.lost == |before|
    ensures
      var y, arrived := Filled(x, t), before + t.early + t.late;
      Subsequence(x.bytesRead + y.fifo, arrived) && |x.bytesRead + y.fifo| + y.lost == |arrived|
  {
    hide Subsequence;
    var all := x.bytesRead + x.fifo;
    if t.flushed {
      SubsequencePrefix(x.bytesRead, x.fifo, before);
      SubsequenceAppend(x.bytesRead, before, t.early);
      SubsequenceAppend(x.bytesRead, before + t.early, t.late);
    } else {
      SubsequenceAppend(all, before, t.early);
      SubsequenceAppend(all + t.early, before + t.early, t.late);
      assert all + t.early + t.late == x.bytesRead + (x.fifo + t.early + t.late);
    }
  }

  lemma RunNext(ticks: seq<Tick>, t: Tick, max: nat, intervalMs: nat)
    ensures Run(ticks + [t], max, intervalMs) == Turn(Run(ticks, max, intervalMs), t, max, intervalMs)
    ensures Arrived(ticks + [t]) == Arrived(ticks) + t.early + t.late
  {
    hide Turn;
    assert (ticks + [t])[..|ticks|] == ticks;
  }

  function Torn(a: byte, b: byte, c: byte): seq<Tick> {
    [] + [Tick([], false, [a], 1, 1000, 1000)] + [Tick([b], true, [c], 1, 2000, 2000)]
    + [Tick([], false, [], 0, 60000, 60000)]
  }

  /** And a flush can tear a frame: a byte read, one flushed, and a third within the interval give a frame
      that never was on the line. */
  lemma FlushTearsFrame(a: byte, b: byte, c: byte)
    ensures Arrived(Torn(a, b, c)) == [a, b, c] && Frames(Run(Torn(a, b, c), 512, 50).cuts) == [[a, c]]
  {
    var t1, t2, t3 := Tick([], false, [a], 1, 1000, 1000), Tick([b], true, [c], 1, 2000, 2000),
                      Tick([], false, [], 0, 60000, 60000);
    RunNext([], t1, 512, 50);
    RunNext([] + [t1], t2, 512, 50);
    RunNext([] + [t1] + [t2], t3, 512, 50);
    TornTurns(a, b, c);
    hide Turn;
  }

  lemma TornTurns(a: byte, b: byte, c: byte)
    ensures
      var x := Turn(START, Tick([], false, [a], 1, 1000, 1000), 512, 50);
      var y := Turn(x, Tick([b], true, [c], 1, 2000, 2000), 512, 50);
      Turn(y, Tick([], false, [], 0, 60000, 60000), 512, 50).cuts == [Cut([a, c], 60000, 2)]
  {
    var x := Turn(START, Tick([], false, [a], 1, 1000, 1000), 512, 50);
    FirstTurn(a);
    SecondTurn(x, a, b, c);
  }

  lemma FirstTurn(a: byte)
    ensures
      Turn(START, Tick([], false, [a], 1, 1000, 1000), 512, 50) == Rx([], [a], 1000, true, [1000], [], [a], 0)
  {
    var t := Tick([], false, [a], 1, 1000, 1000);
    assert Filled(START, t).fifo == [a] && ReadCount(Filled(START, t), t, 512) == 1;
  }

  lemma SecondTurn(x: Rx, a: byte, b: byte, c: byte)
    requires x == Rx([], [a], 1000, true, [1000], [], [a], 0)
    ensures
      var y := Turn(x, Tick([b], true, [c], 1, 2000, 2000), 512, 50);
      y.buffer == [a, c] && y.hasData && y.last == 2000 && y.cuts == [] && |y.readTimes| == 2 && y.fifo == []
  {
    var t := Tick([b], true, [c], 1, 2000, 2000);
    assert ReadCount(Filled(x, t), t, 512) == 1;
  }

  ghost predicate ReadsBefore(x: Rx, now: int) {
    && (x.hasData ==> x.readTimes != [] && x.last == x.readTimes[|x.readTimes| - 1])
    && (forall k :: 0 <= k < |x.readTimes| ==> x.readTimes[k] <= now)
    && (forall k :: 0 <= k < |x.readTimes| && x.hasData ==> x.readTimes[k] <= x.last)
  }

  /** A frame as the protocol wants it: not empty, not longer than the buffer, and if shorter then
      nothing was read during the last `intervalMs` milliseconds before it was cut. */
  ghost predicate WellCut(c: Cut, readTimes: seq<int>, max: nat, intervalMs: nat) {
    && 1 <= |c.frame| <= max
    && c.readsBefore <= |readTimes|
    && (|c.frame| < max ==> forall k :: 0 <= k < c.readsBefore ==> readTimes[k] + 1000 * intervalMs <= c.at)
  }

  lemma {:induction false} FramesWellCut(ticks: seq<Tick>, max: nat, intervalMs: nat)
    requires max > 0 && ClockRuns(ticks)
    ensures
      var x := Run(ticks, max, intervalMs);
      && (ticks != [] ==> ReadsBefore(x, ticks[|ticks| - 1].checkAt))
      && forall i :: 0 <= i < |x.cuts| ==> WellCut(x.cuts[i], x.readTimes, max, intervalMs)
    decreases |ticks|
  {
    if ticks != [] {
      var front, t := ticks[..|ticks| - 1], ticks[|ticks| - 1];
      FramesWellCut(front, max, intervalMs);
      BufferState(front, max, intervalMs);
      var before := if front == [] then t.readAt else front[|front| - 1].checkAt;
      TurnCutsWell(Run(front, max, intervalMs), t, max, intervalMs, before);
    }
  }

  lemma TurnCutsWell(x: Rx, t: Tick, max: nat, intervalMs: nat, before: int)
    requires max > 0 && |x.buffer| < max && (x.hasData <==> x.buffer != [])
    requires before <= t.readAt <= t.checkAt && ReadsBefore(x, before)
    requires forall i :: 0 <= i < |x.cuts| ==> WellCut(x.cuts[i], x.readTimes, max, intervalMs)
    ensures ReadsBefore(Turn(x, t, max, intervalMs), t.checkAt)
    ensures
      var z := Turn(x, t, max, intervalMs);
      forall i :: 0 <= i < |z.cuts| ==> WellCut(z.cuts[i], z.readTimes, max, intervalMs)
  {
    var y := AfterRead(x, t, max);
    assert ReadsBefore(y, t.readAt);
    forall i | 0 <= i < |y.cuts| ensures WellCut(y.cuts[i], y.readTimes, max, intervalMs) {
      assert WellCut(x.cuts[i], x.readTimes, max, intervalMs);
    }
    if FrameEnds(y, t, max, intervalMs) && |y.buffer| > 0 {
      assert WellCut(Cut(y.buffer, t.checkAt, |y.readTimes|), y.readTimes, max, intervalMs);
    }
  }

  /** And the other way round: a turn that leaves data behind was neither full nor silent long enough. */
  lemma CutsPromptly(x: Rx, t: Tick, max: nat, intervalMs: nat)
    requires max > 0 && |x.buffer| < max && (x.hasData <==> x.buffer != [])
    ensures
      var y := AfterRead(x, t, max);
      |Turn(x, t, max, intervalMs).cuts| == |x.cuts| + 1 <==>
        |y.buffer| == max || (y.buffer != [] && t.checkAt - y.last >= 1000 * intervalMs)
  {
  }
}
