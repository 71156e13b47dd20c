/** What the chunk context guarantees over whole runs, and the page-to-UART direction end to end. */
module Uplink {
  import opened Common
  import opened SerialChunks
  import Hex
  import Crc16

  // ---------------------------------------------------------------- runs of the context

  /** One chunk-mode call that reached the lock, from whatever page it came. */
  datatype Call = Call(chunk: Chunk, memoryOk: bool)

  ghost predicate Locked(calls: seq<Call>) {
    forall i :: 0 <= i < |calls| ==> ChunkMode(calls[i].chunk) && calls[i].chunk.data != []
  }

  function After(calls: seq<Call>): Context
    requires Locked(calls)
  {
    if calls == [] then EMPTY
    else Accept(After(calls[..|calls| - 1]), calls[|calls| - 1].chunk, calls[|calls| - 1].memoryOk).0
  }

  /** What the last call of the run does. */
  function LastOutcome(calls: seq<Call>): Outcome
    requires Locked(calls) && calls != []
  {
    Accept(After(calls[..|calls| - 1]), calls[|calls| - 1].chunk, calls[|calls| - 1].memoryOk).1
  }

  /** Consecutive chunks 0, 1, 2, ... of one n-chunk transfer, nothing foreign in between. */
  ghost predicate InOrder(calls: seq<Call>, n: int, id: string) {
    forall i :: 0 <= i < |calls| ==>
      && calls[i].chunk.index == i
      && calls[i].chunk.total == n
      && calls[i].chunk.id.Some?
      && Agree(calls[i].chunk.id.value, id)
  }

  function Payload(calls: seq<Call>): seq<byte> {
    if calls == [] then [] else Payload(calls[..|calls| - 1]) + calls[|calls| - 1].chunk.data
  }

  /** The r latest calls. */
  function Latest(calls: seq<Call>, r: int): seq<Call>
    requires 0 <= r <= |calls|
  {
    calls[|calls| - r..]
  }

  lemma LatestSnoc(calls: seq<Call>, r: int)
    requires 0 < r <= |calls|
    ensures Latest(calls, r) == Latest(calls[..|calls| - 1], r - 1) + [calls[|calls| - 1]]
  {
  }

  lemma InOrderSnoc(part: seq<Call>, call: Call, n: int, id: string)
    requires InOrder(part, n, id)
    requires call.chunk.index == |part| && call.chunk.total == n && call.chunk.id.Some?
    requires Agree(call.chunk.id.value, id)
    ensures InOrder(part + [call], n, id) && Payload(part + [call]) == Payload(part) + call.chunk.data
  {
    hide Agree;
    var longer := part + [call];
    assert longer[..|longer| - 1] == part;
    forall i | 0 <= i < |longer|
      ensures longer[i].chunk.index == i && longer[i].chunk.total == n && longer[i].chunk.id.Some?
      ensures Agree(longer[i].chunk.id.value, id)
    {
      assert i < |part| ==> longer[i] == part[i];
    }
  }

  /** The context is a gap-free prefix of one transfer, made of the latest calls. */
  ghost predicate IsPrefix(calls: seq<Call>, c: Context) {
    && 0 <= c.received <= |calls|
    && |c.data| <= c.capacity
    && (c.received == 0 ==> c == EMPTY)
    && (c.received > 0 ==>
          && c.received < c.expected
          && InOrder(Latest(calls, c.received), c.expected, c.id)
          && c.data == Payload(Latest(calls, c.received)))
  }

  /** The call that follows a prefix extends it, starts another one, or wipes it. */
  lemma StepFromPrefix(calls: seq<Call>, c: Context)
    requires calls != [] && IsPrefix(calls[..|calls| - 1], c)
    requires ChunkMode(calls[|calls| - 1].chunk) && calls[|calls| - 1].chunk.data != []
    ensures
      var (c', out) := Accept(c, calls[|calls| - 1].chunk, calls[|calls| - 1].memoryOk);
      var k := calls[|calls| - 1].chunk;
      && IsPrefix(calls, c')
      && (out.Completed? ==>
            && k.total <= |calls|
            && InOrder(Latest(calls, k.total), k.total, k.id.value)
            && out.frame == Payload(Latest(calls, k.total)))
  {
    hide InOrder, Payload, Stem, SameId, Agree;
    var k := calls[|calls| - 1].chunk;
    var out := Accept(c, k, calls[|calls| - 1].memoryOk).1;
    if out.Rejected? {
    } else if k.index == 0 {
      FirstChunk(calls);
    } else {
      NextChunk(calls, c);
    }
  }

  lemma FirstChunk(calls: seq<Call>)
    requires calls != []
    requires ChunkMode(calls[|calls| - 1].chunk) && calls[|calls| - 1].chunk.index == 0
    ensures
      var k := calls[|calls| - 1].chunk;
      InOrder(Latest(calls, 1), k.total, Stem(k.id.value)) && Payload(Latest(calls, 1)) == [] + k.data
  {
    hide InOrder, Payload, Stem, SameId, Agree;
    var call := calls[|calls| - 1];
    var k := call.chunk;
    InOrderNone(k.total, Stem(k.id.value));
    SameIdMeans(k.id.value, k.id.value);
    AgreeSymmetric(Stem(k.id.value), k.id.value);
    InOrderSnoc([], call, k.total, Stem(k.id.value));
    assert Latest(calls, 1) == [] + [call];
  }

  lemma AgreeSymmetric(a: string, b: string)
    ensures Agree(a, b) <==> Agree(b, a)
  {
  }

  lemma NextChunk(calls: seq<Call>, c: Context)
    requires calls != [] && IsPrefix(calls[..|calls| - 1], c) && 0 < c.received
    requires
      var k := calls[|calls| - 1].chunk;
      ChunkMode(k) && k.total == c.expected && k.index == c.received && SameId(c.id, k.id.value)
    ensures
      var k := calls[|calls| - 1].chunk;
      && InOrder(Latest(calls, c.received + 1), c.expected, c.id)
      && InOrder(Latest(calls, c.received + 1), c.expected, k.id.value)
      && Payload(Latest(calls, c.received + 1)) == c.data + k.data
  {
    hide InOrder, Payload, SameId, Agree;
    var call := calls[|calls| - 1];
    SameIdMeans(c.id, call.chunk.id.value);
    AgreeSymmetric(c.id, call.chunk.id.value);
    LatestSnoc(calls, c.received + 1);
    InOrderSnoc(Latest(calls[..|calls| - 1], c.received), call, c.expected, c.id);
    InOrderRenamed(Latest(calls, c.received + 1), c.expected, c.id, call.chunk.id.value);
  }

  lemma InOrderNone(n: int, id: string)
    ensures InOrder([], n, id) && Payload([]) == []
  {
  }

  lemma InOrderRenamed(part: seq<Call>, n: int, id: string, id': string)
    requires InOrder(part, n, id) && Agree(id, id')
    ensures InOrder(part, n, id')
  {
  }

  lemma {:induction false} ContextIsPrefix(calls: seq<Call>)
    requires Locked(calls)
    ensures IsPrefix(calls, After(calls))
    decreases |calls|
  {
    if calls != [] {
      ContextIsPrefix(calls[..|calls| - 1]);
      hide IsPrefix, Accept;
      StepFromPrefix(calls, After(calls[..|calls| - 1]));
    }
  }

  /** Whatever is emitted is exactly the chunks 0 .. n-1 of one transfer: the last n calls. */
  lemma OnlyWholeTransfers(calls: seq<Call>)
    requires Locked(calls) && calls != [] && LastOutcome(calls).Completed?
    ensures
      var k := calls[|calls| - 1].chunk;
      && k.total <= |calls|
      && InOrder(Latest(calls, k.total), k.total, k.id.value)
      && LastOutcome(calls).frame == Payload(Latest(calls, k.total))
  {
    hide IsPrefix, Accept;
    ContextIsPrefix(calls[..|calls| - 1]);
    StepFromPrefix(calls, After(calls[..|calls| - 1]));
  }

  /** The next chunk of the transfer under way, or the first of any, is taken if there is memory. */
  lemma AcceptNext(c: Context, k: Chunk, prefix: seq<byte>, memoryOk: bool)
    requires ChunkMode(k) && k.index < k.total
    requires if k.index == 0 then prefix == [] else c == Context(Stem(k.id.value), prefix, c.capacity, k.total, k.index)
    ensures
      var (next, out) := Accept(c, k, memoryOk);
      && (memoryOk ==> !out.Rejected?)
      && (!out.Rejected? ==>
            if k.index + 1 == k.total then out == Completed(prefix + k.data) && next == EMPTY
            else
              && out == Stored
              && next == Context(Stem(k.id.value), prefix + k.data, next.capacity, k.total, k.index + 1))
  {
    SameIdMeans(k.id.value, k.id.value);
    SameIdMeans(Stem(k.id.value), k.id.value);
    assert [] + k.data == k.data;
  }

  /** A run of chunks in order, split before its last one. */
  lemma LastChunk(part: seq<Call>, n: int, id: string)
    requires Locked(part) && part != [] && InOrder(part, n, id)
    ensures
      var front, last := part[..|part| - 1], part[|part| - 1];
      && Locked(front) && InOrder(front, n, id)
      && ChunkMode(last.chunk) && last.chunk.index == |front| && last.chunk.total == n
      && Stem(last.chunk.id.value) == Stem(id)
      && Payload(part) == Payload(front) + last.chunk.data
  {
    hide Stem;
    SameIdMeans(part[|part| - 1].chunk.id.value, id);
  }

  lemma LastCall(before: seq<Call>, part: seq<Call>)
    requires Locked(before) && Locked(part) && part != []
    ensures
      var front, last := part[..|part| - 1], part[|part| - 1];
      && Locked(before + front) && Locked(before + part)
      && (After(before + part), LastOutcome(before + part)) == Accept(After(before + front), last.chunk, last.memoryOk)
  {
    hide Accept;
    var front := part[..|part| - 1];
    assert (before + part)[..|before + part| - 1] == before + front;
  }

  /** Whatever came before, m chunks of a transfer in order leave exactly those m chunks stored. */
  lemma {:induction false} TransferProgress(before: seq<Call>, part: seq<Call>, n: int, id: string)
    requires Locked(before) && Locked(part) && 0 < |part| < n && InOrder(part, n, id)
    requires AllMemory(part)
    ensures Locked(before + part)
    ensures
      var c := After(before + part);
      && c == Context(Stem(id), Payload(part), c.capacity, n, |part|)
      && LastOutcome(before + part) == Stored
    decreases |part|
  {
    var front, last := part[..|part| - 1], part[|part| - 1];
    NoneStored();
    hide Stem, Accept, After, LastOutcome, Payload, Locked, InOrder;
    LastChunk(part, n, id);
    LastCall(before, part);
    if front != [] {
      TransferProgress(before, front, n, id);
    }
    AcceptNext(After(before + front), last.chunk, Payload(front), true);
  }

  ghost predicate AllMemory(calls: seq<Call>) { forall i :: 0 <= i < |calls| ==> calls[i].memoryOk }

  lemma NoneStored()
    ensures Payload([]) == []
  {
  }

  /** A transfer whose chunks arrive in order with memory available is emitted, in one piece. */
  lemma WholeTransferEmitted(before: seq<Call>, transfer: seq<Call>, id: string)
    requires Locked(before) && Locked(transfer) && |transfer| >= 2 && InOrder(transfer, |transfer|, id)
    requires AllMemory(transfer)
    ensures Locked(before + transfer)
    ensures LastOutcome(before + transfer) == Completed(Payload(transfer))
    ensures After(before + transfer) == EMPTY
  {
    var m := |transfer|;
    var front, last := transfer[..m - 1], transfer[m - 1];
    hide Stem, Accept, After, LastOutcome, Payload, Locked, InOrder;
    LastChunk(transfer, m, id);
    LastCall(before, transfer);
    TransferProgress(before, front, m, id);
    AcceptNext(After(before + front), last.chunk, Payload(front), true);
  }

  /** If there was memory for the latest calls, as many as the transfer has chunks, a call emits if and
      only if these are the transfer's chunks in order; how earlier calls fared does not matter. */
  lemma EmissionExact(calls: seq<Call>)
    requires Locked(calls) && calls != []
    requires calls[|calls| - 1].chunk.total <= |calls| ==> AllMemory(Latest(calls, calls[|calls| - 1].chunk.total))
    ensures
      var k := calls[|calls| - 1].chunk;
      LastOutcome(calls).Completed? <==>
        k.total <= |calls| && InOrder(Latest(calls, k.total), k.total, k.id.value)
  {
    var k := calls[|calls| - 1].chunk;
    assert ChunkMode(k);
    if LastOutcome(calls).Completed? {
      OnlyWholeTransfers(calls);
    }
    if k.total <= |calls| {
      var before, transfer := calls[..|calls| - k.total], Latest(calls, k.total);
      assert calls == before + transfer;
      hide LastOutcome, InOrder, Payload;
      if InOrder(transfer, k.total, k.id.value) {
        WholeTransferEmitted(before, transfer, k.id.value);
      }
    }
  }

  /** If there was memory for these calls, a call is accepted if and only if it is chunk i of a transfer
      and the i calls before it were chunks 0 to i - 1; a refusal wipes the context. */
  lemma AcceptedExact(calls: seq<Call>)
    requires Locked(calls) && calls != []
    requires calls[|calls| - 1].chunk.index < |calls| ==> AllMemory(Latest(calls, calls[|calls| - 1].chunk.index + 1))
    ensures
      var k := calls[|calls| - 1].chunk;
      !LastOutcome(calls).Rejected? <==>
        k.index < k.total && k.index < |calls| && InOrder(Latest(calls, k.index + 1), k.total, k.id.value)
    ensures LastOutcome(calls).Rejected? ==>
      LastOutcome(calls) == Rejected(InvalidState) && After(calls) == EMPTY
  {
    var call := calls[|calls| - 1];
    var k, c := call.chunk, After(calls[..|calls| - 1]);
    assert ChunkMode(k);
    hide IsPrefix, Accept, InOrder, Payload;
    ContextIsPrefix(calls[..|calls| - 1]);
    RefusalMeans(c, k, call.memoryOk);
    if !LastOutcome(calls).Rejected? {
      TakenInOrder(calls, c);
    }
    if k.index < |calls| {
      assert Latest(calls, k.index + 1)[k.index] == call;
    }
    if k.index < |calls| && k.index < k.total && InOrder(Latest(calls, k.index + 1), k.total, k.id.value) {
      InOrderTaken(calls);
    }
  }

  lemma InOrderTaken(calls: seq<Call>)
    requires Locked(calls) && calls != []
    requires
      var k := calls[|calls| - 1].chunk;
      && k.index < |calls| && k.index < k.total
      && InOrder(Latest(calls, k.index + 1), k.total, k.id.value)
      && AllMemory(Latest(calls, k.index + 1))
    ensures !LastOutcome(calls).Rejected?
  {
    var k := calls[|calls| - 1].chunk;
    assert ChunkMode(k);
    var before, part := calls[..|calls| - k.index - 1], Latest(calls, k.index + 1);
    assert calls == before + part;
    hide LastOutcome, InOrder, Payload;
    if k.index + 1 < k.total {
      TransferProgress(before, part, k.total, k.id.value);
    } else {
      WholeTransferEmitted(before, part, k.id.value);
    }
  }

  lemma TakenInOrder(calls: seq<Call>, c: Context)
    requires calls != [] && IsPrefix(calls[..|calls| - 1], c)
    requires ChunkMode(calls[|calls| - 1].chunk)
    requires !Accept(c, calls[|calls| - 1].chunk, calls[|calls| - 1].memoryOk).1.Rejected?
    ensures
      var k := calls[|calls| - 1].chunk;
      k.index < k.total && k.index < |calls| && InOrder(Latest(calls, k.index + 1), k.total, k.id.value)
  {
    var k := calls[|calls| - 1].chunk;
    hide InOrder, Payload, Stem, SameId, Agree;
    if k.index == 0 {
      FirstChunk(calls);
      SameIdMeans(k.id.value, k.id.value);
      InOrderRenamed(Latest(calls, 1), k.total, Stem(k.id.value), k.id.value);
    } else {
      NextChunk(calls, c);
    }
  }

  /** A missing allocation matters only to a call that is in order, and only if the stored bytes leave no
      room; either way a refusal wipes the context. */
  lemma RefusalMeans(c: Context, k: Chunk, memoryOk: bool)
    requires ChunkMode(k)
    ensures
      var (next, out) := Accept(c, k, memoryOk);
      && (out.Rejected? ==> next == EMPTY)
      && (out == Rejected(NoMemory) <==>
            && !memoryOk && !Accept(c, k, true).1.Rejected?
            && |if k.index == 0 then k.data else c.data + k.data| > if k.index == 0 then 0 else c.capacity)
      && (out.Rejected? && out.status != NoMemory ==> out.status == InvalidState && Accept(c, k, true) == (next, out))
      && (!out.Rejected? ==> Accept(c, k, true) == (next, out))
  {
  }

  /** What is reserved stays if the chunk fits; otherwise it is what is stored and 512 bytes more, or just
      that if there is no address for more. */
  lemma RoomMeans(c: Context, k: Chunk, memoryOk: bool)
    requires ChunkMode(k) && Accept(c, k, memoryOk).1 == Stored && |c.data| + |k.data| < SIZE_RANGE
    ensures
      var next := Accept(c, k, memoryOk).0;
      var before := if k.index == 0 then 0 else c.capacity;
      && (|next.data| <= before ==> next.capacity == before)
      && (|next.data| > before ==>
            next.capacity == if |next.data| + 512 < 0x1_0000_0000 then |next.data| + 512 else |next.data|)
  {
  }

  /** A buffer that had to grow has room for another 512 bytes, if the address space has: the page's next
      full chunk needs no allocation. */
  lemma NextFits(c: Context, k: Chunk, next: Chunk, memoryOk: bool)
    requires ChunkMode(k) && ChunkMode(next) && next.id == k.id && next.total == k.total && next.index == k.index + 1
    requires
      var (c', out) := Accept(c, k, memoryOk);
      out == Stored && (k.index == 0 || c'.capacity != c.capacity) && |c'.data| + 512 < SIZE_RANGE
    requires k.index == 0 ==> k.data != []
    requires |next.data| <= 512
    ensures !Accept(Accept(c, k, memoryOk).0, next, false).1.Rejected?
  {
    SameIdMeans(k.id.value, k.id.value);
    SameIdMeans(Stem(k.id.value), k.id.value);
  }

  // ---------------------------------------------------------------- the page

  const UART_CHUNK_BYTES := 512

  function ChunkCount(bytes: seq<byte>): nat {
    (|bytes| + UART_CHUNK_BYTES - 1) / UART_CHUNK_BYTES
  }

  /** Nothing goes wrong that the page would hear of. */
  ghost predicate AllOk(env: Env) {
    env.cleanOk && env.dataOk && env.mutexOk && env.locked && env.memoryOk
  }

  /** `sendInstructionChunks` in hex mode; it stops at the first chunk that is not acknowledged.
      Whatever the environment does, the UART gets the whole payload once or nothing at all: once if the
      page is told ok and the transmission of the last chunk's call goes out. A page that is told ok is
      told wrong exactly when that transmission does not. */
  method SendInstructionChunks(server: ChunkServer, bytes: seq<byte>, id: string, envs: nat -> Env)
    returns (ok: bool)
    requires server.Valid() && id != ""
    requires server.length + 2048 < SIZE_RANGE && |bytes| + 2048 < SIZE_RANGE
    modifies server, server.buffer
    ensures server.Valid()
    ensures ok ==> bytes != []
    ensures server.transmitted ==
            old(server.transmitted) + if ok then Out(bytes, envs(ChunkCount(bytes) - 1).tx) else []
    ensures ok ==> (server.transmitted == old(server.transmitted) <==> !GoesOut(envs(ChunkCount(bytes) - 1).tx))
    ensures bytes != [] && (forall i: nat :: i < ChunkCount(bytes) ==> AllOk(envs(i))) ==> ok
  {
    if |bytes| == 0 {
      return false;
    }
    var totalChunks := ChunkCount(bytes);
    var chunkIndex := 0;
    while chunkIndex < totalChunks
      invariant 0 <= chunkIndex <= totalChunks && server.Valid()
      invariant server.buffer == old(server.buffer) || server.buffer == null || fresh(server.buffer)
      invariant chunkIndex == 0 ==> server.length == old(server.length)
      invariant chunkIndex < totalChunks ==> server.transmitted == old(server.transmitted)
      invariant chunkIndex == totalChunks ==>
        server.transmitted == old(server.transmitted) + Out(bytes, envs(totalChunks - 1).tx)
      invariant 0 < chunkIndex < totalChunks ==>
        server.Abs() ==
        Context(Stem(id), bytes[..chunkIndex * UART_CHUNK_BYTES], server.capacity, totalChunks, chunkIndex)
    {
      var start := chunkIndex * UART_CHUNK_BYTES;
      assert chunkIndex > 0 ==> server.length == |server.Abs().data|;
      var end := if start + UART_CHUNK_BYTES < |bytes| then start + UART_CHUNK_BYTES else |bytes|;
      var acknowledged := SendChunk(server, bytes, id, chunkIndex, totalChunks, start, end, envs(chunkIndex));
      if !acknowledged {
        return false;
      }
      assert end == |bytes| ==> bytes[..end] == bytes;
      chunkIndex := chunkIndex + 1;
    }
    ok := true;
  }

  /** One round of the page's loop: slice, print, send, wait for the acknowledgement. */
  method SendChunk(server: ChunkServer, bytes: seq<byte>, id: string, chunkIndex: nat, totalChunks: nat,
                   start: nat, end: nat, env: Env)
    returns (acknowledged: bool)
    requires server.Valid() && id != "" && server.length + 2048 < SIZE_RANGE
    requires start < end <= |bytes| && end <= start + UART_CHUNK_BYTES && chunkIndex < totalChunks
    requires 0 < chunkIndex ==>
      server.Abs() == Context(Stem(id), bytes[..start], server.capacity, totalChunks, chunkIndex)
    requires chunkIndex == 0 ==> start == 0
    modifies server, server.buffer
    ensures server.Valid()
    ensures server.buffer == old(server.buffer) || server.buffer == null || fresh(server.buffer)
    ensures AllOk(env) ==> acknowledged
    ensures acknowledged && chunkIndex + 1 < totalChunks ==>
      && server.transmitted == old(server.transmitted)
      && server.Abs() == Context(Stem(id), bytes[..end], server.capacity, totalChunks, chunkIndex + 1)
    ensures acknowledged && chunkIndex + 1 == totalChunks ==>
      server.transmitted == old(server.transmitted) + Out(bytes[..end], env.tx)
    ensures !acknowledged ==> server.transmitted == old(server.transmitted)
  {
    var chunk := bytes[start..end];
    var payload := Hex.BytesToHex(chunk);
    Hex.HexLength(chunk);
    ghost var k := Chunk(chunk, chunkIndex, totalChunks, Some(id));
    RequestOf(chunk, chunkIndex, totalChunks, id, env);
    assert bytes[..start] + chunk == bytes[..end];
    if totalChunks > 1 {
      AcceptNext(server.Abs(), k, bytes[..start], env.memoryOk);
    }
    hide Request, Accept, Stem, Hex.BytesToHex, Hex.Print;
    acknowledged := server.HandleUartTx(payload, true, chunkIndex, totalChunks, id, env);
  }

  lemma RequestOf(chunk: seq<byte>, index: nat, total: nat, id: string, env: Env)
    requires chunk != [] && id != ""
    ensures
      var k := Chunk(chunk, index, total, Some(id));
      Request(Hex.BytesToHex(chunk), true, index, total, id, env) ==
      if !env.cleanOk || !env.dataOk || (ChunkMode(k) && !(env.mutexOk && env.locked)) then None else Some(k)
  {
    hide Hex.Decode, Hex.BytesToHex;
    Hex.DecodeUndoesPrint(chunk);
    Hex.DecodePossible(Hex.BytesToHex(chunk), env.cleanOk, env.dataOk);
  }

  /** What the page makes of the typed text: digits only, two to a byte. */
  function TypedBytes(instruction: string): Option<seq<byte>> {
    var clean := Hex.Keep(instruction, Hex.IsHex);
    if clean == "" || |clean| % 2 != 0 then None else Some(Hex.ReadPairs(clean))
  }

  /** Refused are texts without digits or with an odd number of them; otherwise two digits make a byte. */
  lemma TypedAt(instruction: string, k: nat)
    ensures
      var digits := Hex.Keep(instruction, Hex.IsHex);
      && (TypedBytes(instruction) == None <==> |digits| == 0 || |digits| % 2 == 1)
      && (TypedBytes(instruction).Some? ==> 2 * |TypedBytes(instruction).value| == |digits|)
      && (TypedBytes(instruction).Some? && k < |TypedBytes(instruction).value| ==>
            Hex.IsHex(digits[2 * k]) && Hex.IsHex(digits[2 * k + 1]) &&
            TypedBytes(instruction).value[k] as int == 16 * Hex.Num(digits[2 * k]) + Hex.Num(digits[2 * k + 1]))
  {
    var digits := Hex.Keep(instruction, Hex.IsHex);
    Hex.KeptAreKept(instruction, Hex.IsHex);
    hide Hex.Keep, Hex.IsHex, Hex.Num, Hex.ReadPairs;
    if TypedBytes(instruction).Some? && k < |digits| / 2 {
      Hex.ReadPairsAt(digits, k);
    }
  }

  /** `appendCrcBytes` */
  function AppendCrcBytes(bytes: seq<byte>, enabled: bool): seq<byte> {
    if enabled then bytes + Crc16.CrcBytes(bytes) else bytes
  }

  /** What `serialSubmit` is to send. */
  function Submitted(instruction: string, crcEnabled: bool): seq<byte> {
    if TypedBytes(instruction).Some? then AppendCrcBytes(TypedBytes(instruction).value, crcEnabled) else []
  }

  /** What was typed, and behind it with the CRC switch on, and only then, the two bytes that make it
      check. */
  lemma SubmittedMeans(instruction: string, crcEnabled: bool)
    requires TypedBytes(instruction).Some?
    ensures
      var typed, bytes := TypedBytes(instruction).value, Submitted(instruction, crcEnabled);
      && (!crcEnabled ==> bytes == typed)
      && (crcEnabled ==> |bytes| == |typed| + 2 && bytes[..|typed|] == typed && Crc16.Crc(bytes) == 0)
  {
    hide TypedBytes, Crc16.Crc, Crc16.CrcBytes;
    TrailerChecks(TypedBytes(instruction).value);
  }

  /** `serialSubmit` in hex mode, from typed text to the wire. With the CRC switch on, what reaches
      the UART passes the Modbus check; a refused submission transmits nothing, an accepted one goes out
      once if its last transmission does. */
  method SerialSubmit(server: ChunkServer, instruction: string, crcEnabled: bool, id: string, envs: nat -> Env)
    returns (ok: bool)
    requires server.Valid() && id != ""
    requires server.length + 2048 < SIZE_RANGE && |instruction| + 4096 < SIZE_RANGE
    modifies server, server.buffer
    ensures server.Valid()
    ensures !ok ==> server.transmitted == old(server.transmitted)
    ensures ok ==>
      && TypedBytes(instruction).Some?
      && var bytes := Submitted(instruction, crcEnabled);
      && bytes != [] && (crcEnabled ==> Crc16.Crc(bytes) == 0)
      && server.transmitted == old(server.transmitted) + Out(bytes, envs(ChunkCount(bytes) - 1).tx)
    ensures TypedBytes(instruction).Some? && (forall i: nat :: AllOk(envs(i))) ==> ok
  {
    hide Hex.ReadPairs, Hex.Keep, Crc16.CrcBytes, Crc16.Crc;
    Hex.KeptAreKept(instruction, Hex.IsHex);
    var clean := Hex.Keep(instruction, Hex.IsHex);
    if |clean| == 0 {
      return false;
    }
    if |clean| % 2 != 0 {
      return false;
    }
    var payloadBytes := Hex.ReadPairs(clean);
    var sendBytes := AppendCrcBytes(payloadBytes, crcEnabled);
    TrailerChecks(payloadBytes);
    ok := SendInstructionChunks(server, sendBytes, id, envs);
  }

  lemma TrailerChecks(bytes: seq<byte>)
    ensures Crc16.Crc(bytes + Crc16.CrcBytes(bytes)) == 0 && |Crc16.CrcBytes(bytes)| == 2
  {
    hide Crc16.Run;
    var trailer := Crc16.CrcBytes(bytes);
    Crc16.FrameCheck(bytes, trailer[0], trailer[1]);
  }

  /** Typing what the page prints gives the printed bytes back. */
  lemma TypedPrint(bytes: seq<byte>)
    requires bytes != []
    ensures TypedBytes(Hex.BytesToHex(bytes)) == Some(bytes)
  {
    Hex.SeparatorsVanish(bytes);
    Hex.ReadPrint(bytes);
  }
}
