/** From the serial line to TCP: framing and pipeline put together. */
module UartStream {
  import opened Common
  import Framing = UartFraming
  import Pipeline = UartPipeline

  /** The frames the receive task hands to the pipeline during a run. */
  function FramesIn(events: seq<Pipeline.Event>): seq<seq<byte>> {
    if events == [] then []
    else
      var last := events[|events| - 1];
      FramesIn(events[..|events| - 1]) + if last.Frame? then [last.data] else []
  }

  lemma CutStep(s: Pipeline.Pipe, e: Pipeline.Event)
    ensures Pipeline.Step(s, e).cut == s.cut + if e.Frame? then [e.data] else []
  {
    if e.StopMode? && s.running {
      Pipeline.StopStep(s);
    }
  }

  lemma {:induction false} CutsAreFrames(events: seq<Pipeline.Event>)
    ensures Pipeline.Run(Pipeline.EMPTY, events).cut == FramesIn(events)
    decreases |events|
  {
    hide Pipeline.Step;
    if events != [] {
      var front := events[..|events| - 1];
      CutsAreFrames(front);
      CutStep(Pipeline.Run(Pipeline.EMPTY, front), events[|events| - 1]);
    }
  }

  /** Where frame n begins in the byte stream. */
  function Start(frames: seq<seq<byte>>, n: nat): nat
    requires n <= |frames|
  {
    |Concat(frames[..n])|
  }

  lemma StartNext(frames: seq<seq<byte>>, n: nat)
    requires n < |frames|
    ensures Concat(frames[..n + 1]) == Concat(frames[..n]) + frames[n]
  {
    assert frames[..n + 1][..n] == frames[..n];
  }

  lemma {:induction false} PrefixConcat(frames: seq<seq<byte>>, n: nat)
    requires n <= |frames|
    ensures Concat(frames[..n]) <= Concat(frames)
    decreases |frames| - n
  {
    if n < |frames| {
      StartNext(frames, n);
      PrefixConcat(frames, n + 1);
    } else {
      assert frames[..n] == frames;
    }
  }

  lemma {:induction false} StartsApart(frames: seq<seq<byte>>, m: nat, n: nat)
    requires m < n <= |frames|
    ensures Start(frames, m) + |frames[m]| <= Start(frames, n)
    decreases n
  {
    hide Concat;
    StartNext(frames, n - 1);
    if m < n - 1 {
      StartsApart(frames, m, n - 1);
    }
  }

  lemma FrameInStream(frames: seq<seq<byte>>, n: nat, rest: seq<byte>, length: nat)
    requires n < |frames| && length <= |frames[n]|
    ensures
      var at := Start(frames, n);
      at + length <= |Concat(frames) + rest| && (Concat(frames) + rest)[at..at + length] == frames[n][..length]
  {
    StartNext(frames, n);
    PrefixConcat(frames, n + 1);
    var whole, upTo := Concat(frames), Concat(frames[..n + 1]);
    assert whole[..|upTo|] == upTo;
  }

  ghost predicate SliceAt(stream: seq<byte>, at: nat, data: seq<byte>) {
    at + |data| <= |stream| && stream[at..at + |data|] == data
  }

  lemma SliceLater(stream: seq<byte>, more: seq<byte>, at: nat, data: seq<byte>)
    requires SliceAt(stream, at, data)
    ensures SliceAt(stream + more, at, data)
  {
    assert (stream + more)[at..at + |data|] == stream[at..at + |data|];
  }

  /** Whatever the tasks' interleaving: every payload that reaches TCP is an unbroken slice of the bytes
      read from the driver, and the slices follow each other without overlap; if no flush threw bytes
      away, they are slices of everything that came in on the line. */
  lemma ForwardedSlices(ticks: seq<Framing.Tick>, max: nat, intervalMs: nat, events: seq<Pipeline.Event>)
    requires FramesIn(events) == Framing.Frames(Framing.Run(ticks, max, intervalMs).cuts)
    ensures
      var x := Framing.Run(ticks, max, intervalMs);
      var frames, items := FramesIn(events), Pipeline.Run(Pipeline.EMPTY, events).forwarded;
      && (forall k :: 0 <= k < |items| ==>
            items[k].frame < |frames| && SliceAt(x.bytesRead, Start(frames, items[k].frame), items[k].data))
      && (x.lost == 0 ==> forall k :: 0 <= k < |items| ==>
            SliceAt(Framing.Arrived(ticks), Start(frames, items[k].frame), items[k].data))
      && (forall j, k :: 0 <= j < k < |items| ==>
            items[j].frame < items[k].frame < |frames| &&
            Start(frames, items[j].frame) + |items[j].data| <= Start(frames, items[k].frame))
  {
    var frames, items := FramesIn(events), Pipeline.Run(Pipeline.EMPTY, events).forwarded;
    var x := Framing.Run(ticks, max, intervalMs);
    CutsAreFrames(events);
    Pipeline.ForwardedInOrder(events);
    Framing.BytesConserved(ticks, max, intervalMs);
    hide Pipeline.Run, Framing.Run, Framing.Frames, Framing.Arrived, FramesIn, Concat, Start;
    forall k | 0 <= k < |items|
      ensures items[k].frame < |frames| && SliceAt(x.bytesRead, Start(frames, items[k].frame), items[k].data)
      ensures x.lost == 0 ==> SliceAt(Framing.Arrived(ticks), Start(frames, items[k].frame), items[k].data)
    {
      var n := items[k].frame;
      FrameInStream(frames, n, x.buffer, |items[k].data|);
      SliceLater(x.bytesRead, x.fifo, Start(frames, n), items[k].data);
    }
    forall j, k | 0 <= j < k < |items|
      ensures items[j].frame < items[k].frame < |frames|
      ensures Start(frames, items[j].frame) + |items[j].data| <= Start(frames, items[k].frame)
    {
      StartsApart(frames, items[j].frame, items[k].frame);
    }
  }
}
