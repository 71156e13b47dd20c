/** Segmented serial transmission, page to UART: the web server's chunk context
    (`serial_chunk_ctx`, `process_uart_chunk`) and the page's `sendInstructionChunks`.

    `Accept` is the context's transition on values; the class carries the fields the firmware
    carries, with the heap buffer as an array that is reallocated. The environment (lock,
    allocations, the UART driver) is an argument. `transmitted` lists what went out on the UART;
    `tx_tasks` drops its data without telling anybody when it cannot be sent. */
module SerialChunks {
  import opened Common
  import Hex
  import Crc16

  // ---------------------------------------------------------------- the context as a value

  datatype Chunk = Chunk(data: seq<byte>, index: int, total: int, id: Option<string>)

  datatype Context = Context(id: string, data: seq<byte>, capacity: nat, expected: int, received: int)

  datatype Status = Ok | InvalidArg | InvalidState | NoMemory | Timeout

  datatype Outcome = Rejected(status: Status) | Stored | Completed(frame: seq<byte>)

  const EMPTY := Context("", [], 0, 0, 0)
  const SIZE_RANGE: nat := 0x1_0000_0000

  /** transfer_id is a 64-byte field: what snprintf keeps and strncmp compares is 63 characters. */
  function Stem(id: string): string {
    if |id| > 63 then id[..63] else id
  }

  predicate SameId(a: string, b: string) { Stem(a) == Stem(b) }

  /** Ids of one transfer as the 64-byte field can tell: the same, or alike in their first 63 characters. */
  predicate Agree(a: string, b: string) {
    a == b || (|a| >= 63 && |b| >= 63 && a[..63] == b[..63])
  }

  lemma SameIdMeans(a: string, b: string)
    ensures SameId(a, b) <==> Agree(a, b)
    ensures |Stem(a)| <= 63 && Agree(Stem(a), a)
  {
    assert |a| == 63 ==> a[..63] == a;
    assert |b| == 63 ==> b[..63] == b;
  }

  predicate ChunkMode(k: Chunk) {
    k.id.Some? && k.total > 1 && k.index >= 0
  }

  function GrownCapacity(required: nat): nat {
    var grown := (required + 512) % SIZE_RANGE;
    if grown < required then required else grown
  }

  /** What `process_uart_chunk` does to the context while it holds the lock. */
  function Accept(c: Context, k: Chunk, memoryOk: bool): (r: (Context, Outcome))
    requires ChunkMode(k)
  {
    var started :=
      if k.index == 0 || !SameId(c.id, k.id.value) then Context(Stem(k.id.value), [], 0, k.total, 0) else c;
    if k.total != started.expected || k.index != started.received then
      (EMPTY, Rejected(InvalidState))
    else if |started.data| + |k.data| > started.capacity && !memoryOk then
      (EMPTY, Rejected(NoMemory))
    else
      var required := |started.data| + |k.data|;
      var grown := started.(
        data := started.data + k.data,
        capacity := if required <= started.capacity then started.capacity else GrownCapacity(required),
        received := started.received + 1);
      if grown.received >= grown.expected then (EMPTY, Completed(grown.data)) else (grown, Stored)
  }

  // ---------------------------------------------------------------- the firmware object

  /** How one `tx_tasks` goes: its copy of the data, `uart_mutex` within 100 ms, the send buffer, the
      driver. */
  datatype Tx = Tx(copied: bool, portLocked: bool, buffered: bool, written: bool)

  predicate GoesOut(tx: Tx) { tx.copied && tx.portLocked && tx.buffered && tx.written }

  function Out(frame: seq<byte>, tx: Tx): seq<seq<byte>> { if GoesOut(tx) then [frame] else [] }

  datatype Env = Env(cleanOk: bool, dataOk: bool, mutexOk: bool, locked: bool, memoryOk: bool, tx: Tx)

  /** The chunk a `uart_tx` message stands for, unless it is turned down before the context. */
  function Request(text: string, hexMode: bool, index: int, total: int, id: string, env: Env): Option<Chunk> {
    if total > 1 && id == "" then None
    else
      match Hex.Decode(text, hexMode, env.cleanOk, env.dataOk)
      case Payload(data) =>
        var k := Chunk(data, index, total, if id == "" then None else Some(id));
        if data == [] || (ChunkMode(k) && !(env.mutexOk && env.locked)) then None else Some(k)
      case _ => None
  }

  class ChunkServer {
    var transferId: string
    var buffer: array?<byte>
    var length: nat
    var capacity: nat
    var expected: int
    var received: int
    var transmitted: seq<seq<byte>>

    ghost predicate Valid()
      reads this, buffer
    {
      && (if buffer == null then capacity == length == 0 else length <= capacity == buffer.Length)
      && |transferId| <= 63
    }

    ghost function Abs(): Context
      reads this, buffer
      requires Valid()
    {
      Context(transferId, if buffer == null then [] else buffer[..length], capacity, expected, received)
    }

    constructor ()
      ensures Valid() && Abs() == EMPTY && transmitted == [] && buffer == null
    {
      transferId, buffer, length, capacity, expected, received, transmitted := "", null, 0, 0, 0, 0, [];
    }

    /** `serial_chunk_reset_locked` */
    method Reset()
      modifies this
      ensures Valid() && Abs() == EMPTY && buffer == null && transmitted == old(transmitted)
    {
      buffer := null;
      transferId, length, capacity, expected, received := "", 0, 0, 0, 0;
    }

    /** `serial_chunk_reserve_locked`; realloc keeps the contents. */
    method Reserve(required: nat, memoryOk: bool) returns (ok: bool)
      requires Valid() && required < SIZE_RANGE && length <= required
      modifies this`buffer, this`capacity
      ensures Valid() && ok == (required <= old(capacity) || memoryOk)
      ensures Abs() == old(Abs()).(capacity := capacity)
      ensures capacity == if ok && required > old(capacity) then GrownCapacity(required) else old(capacity)
      ensures ok ==> required <= capacity
      ensures buffer == old(buffer) || (buffer != null && fresh(buffer))
    {
      if required <= capacity {
        return true;
      }
      if !memoryOk {
        return false;
      }
      var newCapacity := GrownCapacity(required);
      var grown := new byte[newCapacity];
      if buffer != null {
        forall i | 0 <= i < length {
          grown[i] := buffer[i];
        }
        assert grown[..length] == buffer[..length];
      }
      buffer, capacity := grown, newCapacity;
      ok := true;
    }

    /** memcpy behind the stored bytes. */
    method Append(data: seq<byte>)
      requires Valid() && buffer != null && length + |data| <= capacity
      modifies this`length, this`received, buffer
      ensures Valid() && Abs() == old(Abs()).(data := old(Abs()).data + data, received := old(received) + 1)
    {
      forall i | 0 <= i < |data| {
        buffer[length + i] := data[i];
      }
      assert buffer[..length + |data|] == old(buffer[..length]) + data;
      length := length + |data|;
      received := received + 1;
    }

    /** The part of `process_uart_chunk` that runs under the lock. */
    method AcceptLocked(k: Chunk, memoryOk: bool) returns (r: Outcome)
      requires Valid() && ChunkMode(k) && k.data != [] && length + |k.data| < SIZE_RANGE
      modifies this, buffer
      ensures Valid() && (buffer == old(buffer) || buffer == null || fresh(buffer))
      ensures (Abs(), r) == Accept(old(Abs()), k, memoryOk)
      ensures transmitted == old(transmitted)
    {
      if k.index == 0 || !SameId(transferId, k.id.value) {
        Reset();
        transferId := Stem(k.id.value);
        expected := k.total;
      }
      if k.total != expected || k.index != received {
        Reset();
        return Rejected(InvalidState);
      }
      var newLength := length + |k.data|;
      var reserved := Reserve(newLength, memoryOk);
      if !reserved {
        Reset();
        return Rejected(NoMemory);
      }
      Append(k.data);
      if received >= expected {
        r := Completed(buffer[..length]);
        Reset();
      } else {
        r := Stored;
      }
    }

    /** `tx_tasks` with `sendData`; whatever goes wrong, the caller is not told. */
    method TxTasks(data: seq<byte>, tx: Tx)
      modifies this`transmitted
      ensures transmitted ==
              old(transmitted) + if tx.copied && tx.portLocked && tx.buffered && tx.written then [data] else []
      ensures transmitted == old(transmitted) + Out(data, tx)
    {
      if !tx.copied {
        return;
      }
      if !tx.portLocked {
        return;
      }
      if !tx.buffered {
        return;
      }
      if tx.written {
        transmitted := transmitted + [data];
      }
    }

    /** `process_uart_chunk`. Two live heap blocks fit the 32-bit address space together. */
    method ProcessUartChunk(k: Chunk, env: Env) returns (status: Status)
      requires Valid() && length + |k.data| < SIZE_RANGE
      modifies this, buffer
      ensures Valid() && (buffer == old(buffer) || buffer == null || fresh(buffer))
      ensures k.id.None? || k.total <= 1 || k.index < 0 ==>
        Abs() == old(Abs()) && status == if k.data == [] then InvalidArg else Ok
      ensures k.data == [] ==>
        status == InvalidArg && Abs() == old(Abs()) && transmitted == old(transmitted)
      ensures k.data != [] && !ChunkMode(k) ==>
        status == Ok && Abs() == old(Abs()) && transmitted == old(transmitted) + Out(k.data, env.tx)
      ensures k.data != [] && ChunkMode(k) && !(env.mutexOk && env.locked) ==>
        status == (if env.mutexOk then Timeout else NoMemory) && Abs() == old(Abs()) && transmitted == old(transmitted)
      ensures k.data != [] && ChunkMode(k) && env.mutexOk && env.locked ==>
        var r := Accept(old(Abs()), k, env.memoryOk);
        && Abs() == r.0
        && status == (if r.1.Rejected? then r.1.status else Ok)
        && transmitted == old(transmitted) + (if r.1.Completed? then Out(r.1.frame, env.tx) else [])
    {
      if |k.data| == 0 {
        return InvalidArg;
      }
      if !ChunkMode(k) {
        TxTasks(k.data, env.tx);
        return Ok;
      }
      if !env.mutexOk {
        return NoMemory;
      }
      if !env.locked {
        return Timeout;
      }
      var r := AcceptLocked(k, env.memoryOk);
      match r
      case Rejected(why) =>
        status := why;
      case Stored =>
        status := Ok;
      case Completed(final) =>
        if |final| > 0 {
          TxTasks(final, env.tx);
        }
        status := Ok;
    }

    /** The `uart_tx` branch of the web-socket handler: decode, then process. */
    method HandleUartTx(text: string, hexMode: bool, index: int, total: int, id: string, env: Env)
      returns (acknowledged: bool)
      requires Valid() && length + |text| < SIZE_RANGE
      modifies this, buffer
      ensures Valid() && (buffer == old(buffer) || buffer == null || fresh(buffer))
      ensures total > 1 && id == "" ==> !acknowledged
      ensures total <= 1 || id == "" || index < 0 ==> Abs() == old(Abs())
      ensures total <= 1 || (index < 0 && id != "") ==>
        var decoded := Hex.Decode(text, hexMode, env.cleanOk, env.dataOk);
        (acknowledged <==> decoded.Payload? && decoded.data != [])
      ensures
        match Request(text, hexMode, index, total, id, env)
        case None =>
          !acknowledged && Abs() == old(Abs()) && transmitted == old(transmitted)
        case Some(k) =>
          if !ChunkMode(k) then
            acknowledged && Abs() == old(Abs()) && transmitted == old(transmitted) + Out(k.data, env.tx)
          else
            var r := Accept(old(Abs()), k, env.memoryOk);
            && Abs() == r.0
            && acknowledged == !r.1.Rejected?
            && transmitted == old(transmitted) + (if r.1.Completed? then Out(r.1.frame, env.tx) else [])
    {
      if total > 1 && id == "" {
        return false;
      }
      hide Accept, Hex.Decode, ChunkMode, Out;
      var decoded := Hex.DecodeInstructionPayload(text, hexMode, env.cleanOk, env.dataOk);
      if !decoded.Payload? {
        return false;
      }
      Hex.DecodedShorter(text, hexMode, env.cleanOk, env.dataOk);
      var status := ProcessUartChunk(Chunk(decoded.data, index, total, if id == "" then None else Some(id)), env);
      acknowledged := status == Ok;
    }
  }
}
