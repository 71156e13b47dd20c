/** UART to page: the firmware cuts a frame into 128-byte web-socket messages
    (`send_uart_to_websocket`), the page puts them together again (`handleUartDataMessage`),
    whatever the order, the repetitions and the other frames in between. */
module Downlink {
  import opened Common
  import Hex

  const WS_UART_CHUNK_SIZE := 128
  const HEX_BUFFER_SIZE := 400

  /** `getFrameKey`: capture time and direction. */
  datatype Key = Key(frameId: int, isTx: bool)

  datatype Message = Message(
    key: Key, len: nat, chunkIndex: int, chunkTotal: int, chunkLen: nat, offset: nat, hex: string)

  // ---------------------------------------------------------------- cutting

  function ChunkTotal(len: nat): (n: nat)
    ensures n >= 1
  {
    if len == 0 then 1 else (len + WS_UART_CHUNK_SIZE - 1) / WS_UART_CHUNK_SIZE
  }

  /** As few messages as 128 bytes each allow, and one for a frame without any. */
  lemma ChunkTotalLeast(len: nat)
    ensures len == 0 ==> ChunkTotal(len) == 1
    ensures len > 0 ==> 128 * (ChunkTotal(len) - 1) < len <= 128 * ChunkTotal(len)
  {
  }

  function Slice(data: seq<byte>, i: nat): seq<byte>
    requires i < ChunkTotal(|data|)
  {
    var offset := i * WS_UART_CHUNK_SIZE;
    data[offset..if offset + WS_UART_CHUNK_SIZE > |data| then |data| else offset + WS_UART_CHUNK_SIZE]
  }

  function MessageOf(data: seq<byte>, key: Key, i: nat): Message
    requires i < ChunkTotal(|data|)
  {
    Message(key, |data|, i, ChunkTotal(|data|), |Slice(data, i)|, i * WS_UART_CHUNK_SIZE, Hex.Spaced(Slice(data, i)))
  }

  function Slices(data: seq<byte>, n: nat): seq<seq<byte>>
    requires n <= ChunkTotal(|data|)
  {
    seq(n, i requires 0 <= i < n => Slice(data, i))
  }

  /** The first n slices are the data up to the end of slice n-1: no gap, no overlap. */
  lemma {:induction false} SlicesCover(data: seq<byte>, n: nat)
    requires n <= ChunkTotal(|data|)
    ensures Concat(Slices(data, n)) ==
            data[..if n * WS_UART_CHUNK_SIZE > |data| then |data| else n * WS_UART_CHUNK_SIZE]
    decreases n
  {
    var parts := Slices(data, n);
    if n > 0 {
      SlicesCover(data, n - 1);
      assert parts[..|parts| - 1] == Slices(data, n - 1);
    }
  }

  /** What becomes of one message: queued, dropped because the queue is full, or given up with
      everything after it because an allocation failed. */
  datatype Fate = Queued | QueueFull | Abandoned

  function Delivered(data: seq<byte>, key: Key, fates: nat -> Fate, from: nat): seq<Message>
    requires from <= ChunkTotal(|data|)
    decreases ChunkTotal(|data|) - from
  {
    if from == ChunkTotal(|data|) || fates(from) == Abandoned then []
    else (if fates(from) == Queued then [MessageOf(data, key, from)] else []) + Delivered(data, key, fates, from + 1)
  }

  /** A chunk is queued exactly if there was room for it and no allocation failed for it or before it. */
  lemma {:induction false} QueuedIff(data: seq<byte>, key: Key, fates: nat -> Fate, from: nat, i: nat)
    requires from <= i < ChunkTotal(|data|)
    ensures MessageOf(data, key, i) in Delivered(data, key, fates, from) <==>
            fates(i) == Queued && forall j :: from <= j < i ==> fates(j) != Abandoned
    decreases ChunkTotal(|data|) - from
  {
    hide MessageOf;
    IndexOf(data, key, i);
    IndexOf(data, key, from);
    if fates(from) != Abandoned {
      if from < i {
        QueuedIff(data, key, fates, from + 1, i);
      } else {
        NotAgain(data, key, fates, from + 1, i);
      }
    }
  }

  lemma IndexOf(data: seq<byte>, key: Key, i: nat)
    requires i < ChunkTotal(|data|)
    ensures MessageOf(data, key, i).chunkIndex == i
  {
  }

  lemma {:induction false} NotAgain(data: seq<byte>, key: Key, fates: nat -> Fate, from: nat, i: nat)
    requires i < from <= ChunkTotal(|data|)
    ensures MessageOf(data, key, i) !in Delivered(data, key, fates, from)
    decreases ChunkTotal(|data|) - from
  {
    hide MessageOf;
    if from < ChunkTotal(|data|) {
      IndexOf(data, key, i);
      IndexOf(data, key, from);
      NotAgain(data, key, fates, from + 1, i);
    }
  }

  /** `send_uart_to_websocket` */
  method SendUartToWebsocket(data: seq<byte>, key: Key, fates: nat -> Fate) returns (queue: seq<Message>)
    ensures queue == Delivered(data, key, fates, 0)
  {
    hide Hex.Spaced;
    queue := [];
    var chunkTotal := if |data| == 0 then 1 else (|data| + WS_UART_CHUNK_SIZE - 1) / WS_UART_CHUNK_SIZE;
    for chunkIndex := 0 to chunkTotal
      invariant queue + Delivered(data, key, fates, chunkIndex) == Delivered(data, key, fates, 0)
    {
      var message := BuildMessage(data, key, chunkIndex, chunkTotal);
      ghost var sent, rest := queue, Delivered(data, key, fates, chunkIndex + 1);
      if fates(chunkIndex) == Abandoned {
        return;
      }
      if fates(chunkIndex) == Queued {
        queue := queue + [message];
        assert sent + ([message] + rest) == queue + rest;
      } else {
        assert [] + rest == rest;
      }
    }
  }

  /** One message of the loop: the slice's place, its length and its hex text. */
  method BuildMessage(data: seq<byte>, key: Key, chunkIndex: nat, chunkTotal: nat) returns (message: Message)
    requires chunkTotal == ChunkTotal(|data|) && chunkIndex < chunkTotal
    ensures message == MessageOf(data, key, chunkIndex)
  {
    hide Hex.Spaced;
    var len := |data|;
    var offset := if len == 0 then 0 else chunkIndex * WS_UART_CHUNK_SIZE;
    var chunkLen :=
      if len == 0 then 0
      else if offset + WS_UART_CHUNK_SIZE > len then len - offset else WS_UART_CHUNK_SIZE;
    var hex := PrintChunk(data, offset, chunkLen);
    assert data[offset..offset + chunkLen] == Slice(data, chunkIndex);
    message := Message(key, len, chunkIndex, chunkTotal, chunkLen, offset, hex);
  }

  /** The `"%02X "` loop into hex_str; its room check never cuts a chunk short. */
  method PrintChunk(data: seq<byte>, offset: nat, chunkLen: nat) returns (hex: string)
    requires offset + chunkLen <= |data| && chunkLen <= WS_UART_CHUNK_SIZE
    ensures hex == Hex.Spaced(data[offset..offset + chunkLen])
  {
    hide Hex.Pair;
    var hexStr := new char[HEX_BUFFER_SIZE];
    var hexPos, i := 0, 0;
    while i < chunkLen && hexPos < HEX_BUFFER_SIZE - 4
      invariant 0 <= i <= chunkLen && hexPos == 3 * i
      invariant hexStr[..hexPos] == Hex.Spaced(data[offset..offset + i])
    {
      ghost var done := data[offset..offset + i + 1];
      assert done[..|done| - 1] == data[offset..offset + i];
      var pair := Hex.Pair(data[offset + i]);
      hexStr[hexPos], hexStr[hexPos + 1], hexStr[hexPos + 2] := pair[0], pair[1], ' ';
      assert hexStr[..hexPos + 3] == hexStr[..hexPos] + pair + " ";
      hexPos := hexPos + 3;
      i := i + 1;
    }
    hex := hexStr[..hexPos];
  }

  lemma {:induction false} AllDelivered(data: seq<byte>, key: Key, fates: nat -> Fate, from: nat)
    requires from <= ChunkTotal(|data|) && forall i :: from <= i < ChunkTotal(|data|) ==> fates(i) == Queued
    ensures |Delivered(data, key, fates, from)| == ChunkTotal(|data|) - from
    ensures forall i :: 0 <= i < ChunkTotal(|data|) - from ==>
              Delivered(data, key, fates, from)[i] == MessageOf(data, key, from + i)
    decreases ChunkTotal(|data|) - from
  {
    if from < ChunkTotal(|data|) {
      AllDelivered(data, key, fates, from + 1);
    }
  }

  // ---------------------------------------------------------------- the page

  datatype Entry = Entry(chunkTotal: int, hexChunks: seq<string>, received: nat, receivedSet: set<int>)

  datatype Line = Line(key: Key, hex: string)

  datatype View = View(buffer: map<Key, Entry>, lines: seq<Line>)

  /** Array element assignment in the page's language: writing past the end grows the array. */
  function Put(chunks: seq<string>, i: int, s: string): seq<string> {
    if i < 0 then chunks
    else if i < |chunks| then chunks[i := s]
    else chunks + seq(i - |chunks|, _ => "") + [s]
  }

  function TrimEnd(s: string): string {
    if s != "" && s[|s| - 1] == ' ' then TrimEnd(s[..|s| - 1]) else s
  }

  function TrimStart(s: string): string {
    if s != "" && s[0] == ' ' then TrimStart(s[1..]) else s
  }

  function Trim(s: string): string { TrimEnd(TrimStart(s)) }

  /** Behind the end the array grows as far as it must, with empty texts. */
  lemma PutMeans(chunks: seq<string>, i: int, s: string)
    ensures i < 0 ==> Put(chunks, i, s) == chunks
    ensures i >= 0 ==>
      var after := Put(chunks, i, s);
      && |after| == (if i < |chunks| then |chunks| else i + 1)
      && forall k :: 0 <= k < |after| ==> after[k] == if k == i then s else if k < |chunks| then chunks[k] else ""
  {
  }

  ghost predicate AllSpaces(s: string) { forall i :: 0 <= i < |s| ==> s[i] == ' ' }

  ghost predicate Bare(s: string) { s != "" ==> s[0] != ' ' && s[|s| - 1] != ' ' }

  lemma {:induction false} TrimEndMeans(s: string)
    ensures TrimEnd(s) <= s && AllSpaces(s[|TrimEnd(s)|..])
    ensures TrimEnd(s) != "" ==> TrimEnd(s)[|TrimEnd(s)| - 1] != ' '
    decreases |s|
  {
    if s != "" && s[|s| - 1] == ' ' {
      var front := s[..|s| - 1];
      TrimEndMeans(front);
      assert s == front + " ";
      assert s[|TrimEnd(s)|..] == front[|TrimEnd(s)|..] + " ";
    }
  }

  lemma {:induction false} TrimStartMeans(s: string)
    ensures |TrimStart(s)| <= |s| && s[|s| - |TrimStart(s)|..] == TrimStart(s)
    ensures AllSpaces(s[..|s| - |TrimStart(s)|])
    ensures TrimStart(s) != "" ==> TrimStart(s)[0] != ' '
    decreases |s|
  {
    if s != "" && s[0] == ' ' {
      TrimStartMeans(s[1..]);
      var n := |s| - |TrimStart(s)|;
      assert s[n..] == s[1..][n - 1..] && s[..n] == " " + s[1..][..n - 1];
    }
  }

  /** Spaces at both ends go, and nothing else. */
  lemma TrimMeans(s: string)
    ensures Bare(Trim(s))
    ensures exists a: string, b: string :: AllSpaces(a) && AllSpaces(b) && s == a + Trim(s) + b
  {
    var t := TrimStart(s);
    TrimStartMeans(s);
    TrimEndMeans(t);
    var a, b := s[..|s| - |t|], t[|Trim(s)|..];
    assert t == Trim(s) + b;
    assert s == a + t;
    assert s == a + Trim(s) + b;
  }

  function EntryFor(v: View, m: Message): Entry
    requires m.chunkTotal >= 0
  {
    if m.key in v.buffer then v.buffer[m.key]
    else Entry(m.chunkTotal, seq(m.chunkTotal, _ => ""), 0, {})
  }

  function Handle(v: View, m: Message): View {
    if m.chunkTotal <= 1 then v.(lines := v.lines + [Line(m.key, Trim(m.hex))])
    else
      var entry := EntryFor(v, m);
      var updated := entry.(
        received := if m.chunkIndex in entry.receivedSet then entry.received else entry.received + 1,
        receivedSet := entry.receivedSet + {m.chunkIndex},
        hexChunks := Put(entry.hexChunks, m.chunkIndex, m.hex));
      if updated.received >= updated.chunkTotal then
        View(v.buffer - {m.key}, v.lines + [Line(m.key, Trim(Concat(updated.hexChunks)))])
      else v.(buffer := v.buffer[m.key := updated])
  }

  /** A message that is the only one of its frame is shown at once and disturbs no other frame. */
  lemma SingleShown(v: View, m: Message)
    requires m.chunkTotal <= 1
    ensures Handle(v, m) == View(v.buffer, v.lines + [Line(m.key, Trim(m.hex))])
  {
    hide Trim;
  }

  class UartPanel {
    var isReceiving: bool
    var uartChunkBuffer: map<Key, Entry>
    var lines: seq<Line>

    constructor ()
      ensures isReceiving && uartChunkBuffer == map[] && lines == []
    {
      isReceiving, uartChunkBuffer, lines := true, map[], [];
    }

    /** `handleUartDataMessage`, with the hex display selected. */
    method HandleUartDataMessage(data: Message)
      modifies this`uartChunkBuffer, this`lines
      ensures View(uartChunkBuffer, lines) ==
              if isReceiving then Handle(old(View(uartChunkBuffer, lines)), data) else old(View(uartChunkBuffer, lines))
    {
      if !isReceiving {
        return;
      }
      if data.chunkTotal <= 1 {
        lines := lines + [Line(data.key, Trim(data.hex))];
        return;
      }
      var entry;
      if data.key in uartChunkBuffer {
        entry := uartChunkBuffer[data.key];
      } else {
        entry := Entry(data.chunkTotal, seq(data.chunkTotal, _ => ""), 0, {});
        uartChunkBuffer := uartChunkBuffer[data.key := entry];
      }
      if data.chunkIndex !in entry.receivedSet {
        entry := entry.(receivedSet := entry.receivedSet + {data.chunkIndex}, received := entry.received + 1);
      } else {
        assert entry.receivedSet + {data.chunkIndex} == entry.receivedSet;
      }
      entry := entry.(hexChunks := Put(entry.hexChunks, data.chunkIndex, data.hex));
      if entry.received >= entry.chunkTotal {
        uartChunkBuffer := uartChunkBuffer - {data.key};
        lines := lines + [Line(data.key, Trim(Concat(entry.hexChunks)))];
        assert uartChunkBuffer == old(uartChunkBuffer) - {data.key};
      } else {
        uartChunkBuffer := uartChunkBuffer[data.key := entry];
        assert uartChunkBuffer == old(uartChunkBuffer)[data.key := entry];
      }
    }
  }

  function Shown(messages: seq<Message>): View {
    if messages == [] then View(map[], [])
    else Handle(Shown(messages[..|messages| - 1]), messages[|messages| - 1])
  }

  // ---------------------------------------------------------------- hex of the whole frame

  lemma {:induction false} SpacedAppend(a: seq<byte>, b: seq<byte>)
    ensures Hex.Spaced(a + b) == Hex.Spaced(a) + Hex.Spaced(b)
    decreases |b|
  {
    hide Hex.Pair;
    if b == [] {
      assert a + b == a;
    } else {
      assert (a + b)[..|a + b| - 1] == a + b[..|b| - 1];
      SpacedAppend(a, b[..|b| - 1]);
    }
  }

  lemma {:induction false} SpacedConcat(parts: seq<seq<byte>>)
    ensures Concat(seq(|parts|, i requires 0 <= i < |parts| => Hex.Spaced(parts[i]))) == Hex.Spaced(Concat(parts))
    decreases |parts|
  {
    var printed := seq(|parts|, i requires 0 <= i < |parts| => Hex.Spaced(parts[i]));
    if parts != [] {
      var front := parts[..|parts| - 1];
      SpacedConcat(front);
      assert printed[..|printed| - 1] == seq(|front|, i requires 0 <= i < |front| => Hex.Spaced(front[i]));
      SpacedAppend(Concat(front), parts[|parts| - 1]);
    }
  }

  lemma {:induction false} SpacedIsJoined(bytes: seq<byte>)
    requires bytes != []
    ensures Hex.Spaced(bytes) == Hex.BytesToHex(bytes) + " "
    ensures Hex.BytesToHex(bytes) != ""
    ensures Hex.BytesToHex(bytes)[0] != ' ' && Hex.BytesToHex(bytes)[|Hex.BytesToHex(bytes)| - 1] != ' '
    decreases |bytes|
  {
    hide Hex.Pair;
    Hex.PairReads(bytes[0]);
    if |bytes| == 1 {
      assert bytes[..0] == [];
    } else {
      assert bytes == [bytes[0]] + bytes[1..];
      assert [bytes[0]][..0] == [];
      SpacedAppend([bytes[0]], bytes[1..]);
      SpacedIsJoined(bytes[1..]);
    }
  }

  lemma TrimmedSpaced(bytes: seq<byte>)
    ensures Trim(Hex.Spaced(bytes)) == Hex.BytesToHex(bytes)
  {
    hide Hex.Pair;
    if bytes == [] {
      assert TrimStart("") == "" && TrimEnd("") == "";
    } else {
      var x := Hex.BytesToHex(bytes);
      SpacedIsJoined(bytes);
      hide Hex.Spaced, Hex.BytesToHex;
      assert (x + " ")[0] == x[0];
      assert TrimStart(x + " ") == x + " ";
      assert (x + " ")[..|x + " "| - 1] == x;
      assert TrimEnd(x + " ") == TrimEnd(x) == x;
    }
  }

  /** The hex texts of all chunks, in place. */
  function ChunkHexes(data: seq<byte>): seq<string> {
    var n := ChunkTotal(|data|);
    seq(n, i requires 0 <= i < n => Hex.Spaced(Slice(data, i)))
  }

  /** Every chunk printed on its own, put in order, joined and trimmed: the frame printed whole. */
  lemma WholeHex(data: seq<byte>)
    ensures Trim(Concat(ChunkHexes(data))) == Hex.BytesToHex(data)
  {
    hide Hex.Spaced, Hex.BytesToHex, Trim, Slice, Concat;
    var n := ChunkTotal(|data|);
    var parts := Slices(data, n);
    SlicesCover(data, n);
    assert Concat(parts) == data by { WholePrefix(data, n); }
    SpacedConcat(parts);
    assert ChunkHexes(data) == seq(|parts|, i requires 0 <= i < |parts| => Hex.Spaced(parts[i]));
    TrimmedSpaced(data);
  }

  lemma WholePrefix(data: seq<byte>, n: nat)
    requires n == ChunkTotal(|data|)
    ensures data[..if n * WS_UART_CHUNK_SIZE > |data| then |data| else n * WS_UART_CHUNK_SIZE] == data
  {
  }

  // ---------------------------------------------------------------- streams of messages

  /** The message is a chunk of the frame its key stands for. */
  ghost predicate Genuine(m: Message, frames: map<Key, seq<byte>>) {
    && m.key in frames
    && 0 <= m.chunkIndex < ChunkTotal(|frames[m.key]|)
    && m == MessageOf(frames[m.key], m.key, m.chunkIndex)
  }

  ghost predicate AllGenuine(messages: seq<Message>, frames: map<Key, seq<byte>>) {
    forall i :: 0 <= i < |messages| ==> Genuine(messages[i], frames)
  }

  function Range(n: nat): (r: set<int>)
    ensures forall i :: i in r <==> 0 <= i < n
  {
    if n == 0 then {} else Range(n - 1) + {n - 1}
  }

  /** Chunk numbers of one frame that occur in the stream. */
  function Indices(messages: seq<Message>, k: Key): set<int> {
    if messages == [] then {}
    else
      var m := messages[|messages| - 1];
      Indices(messages[..|messages| - 1], k) + if m.key == k then {m.chunkIndex} else {}
  }

  /** Chunk numbers of one frame seen since it was last complete. */
  function Pending(messages: seq<Message>, k: Key): set<int> {
    if messages == [] then {}
    else
      var m := messages[|messages| - 1];
      var before := Pending(messages[..|messages| - 1], k);
      if m.key != k then before
      else if |before + {m.chunkIndex}| >= m.chunkTotal then {}
      else before + {m.chunkIndex}
  }

  function Completions(messages: seq<Message>, k: Key): nat {
    if messages == [] then 0
    else
      var m := messages[|messages| - 1];
      var before := Pending(messages[..|messages| - 1], k);
      Completions(messages[..|messages| - 1], k)
      + if m.key == k && |before + {m.chunkIndex}| >= m.chunkTotal then 1 else 0
  }

  function LinesFor(lines: seq<Line>, k: Key): seq<string> {
    if lines == [] then []
    else
      LinesFor(lines[..|lines| - 1], k)
      + if lines[|lines| - 1].key == k then [lines[|lines| - 1].hex] else []
  }

  lemma LinesForSnoc(lines: seq<Line>, line: Line, k: Key)
    ensures LinesFor(lines + [line], k) == LinesFor(lines, k) + if line.key == k then [line.hex] else []
  {
    assert (lines + [line])[..|lines|] == lines;
  }

  lemma {:induction false} RangeSize(n: nat)
    ensures |Range(n)| == n
    decreases n
  {
    if n > 0 {
      RangeSize(n - 1);
      assert Range(n) == Range(n - 1) + {n - 1};
    }
  }

  lemma FullRange(q: set<int>, n: nat)
    requires q <= Range(n)
    ensures |q| <= n && (|q| >= n <==> q == Range(n))
  {
    RangeSize(n);
    var rest := Range(n) - q;
    assert q + rest == Range(n) && q !! rest;
    assert |q| + |rest| == n;
    if |q| >= n {
      assert rest == {};
    }
  }

  /** The page's entry holds exactly the pending chunks of the frame, each in its place. */
  ghost predicate Holds(entry: Entry, data: seq<byte>, seen: set<int>) {
    && entry.chunkTotal == |entry.hexChunks| == ChunkTotal(|data|)
    && entry.received == |seen|
    && entry.receivedSet == seen
    && forall i :: 0 <= i < ChunkTotal(|data|) ==>
         entry.hexChunks[i] == if i in seen then ChunkHexes(data)[i] else ""
  }

  ghost predicate Tracks(v: View, data: seq<byte>, k: Key, seen: set<int>, completions: nat) {
    && seen <= Range(ChunkTotal(|data|)) && |seen| < ChunkTotal(|data|)
    && (k in v.buffer <==> seen != {})
    && (k in v.buffer ==> Holds(v.buffer[k], data, seen))
    && LinesFor(v.lines, k) == Times(completions, Hex.BytesToHex(data))
  }

  function Times(n: nat, s: string): seq<string> { seq(n, _ => s) }

  /** What the page's entry becomes when chunk i of the frame arrives. */
  function Updated(v: View, m: Message): Entry
    requires m.chunkTotal >= 0
  {
    var entry := EntryFor(v, m);
    entry.(
      received := if m.chunkIndex in entry.receivedSet then entry.received else entry.received + 1,
      receivedSet := entry.receivedSet + {m.chunkIndex},
      hexChunks := Put(entry.hexChunks, m.chunkIndex, m.hex))
  }

  lemma EntryUpdated(v: View, data: seq<byte>, k: Key, seen: set<int>, completions: nat, i: nat)
    requires Tracks(v, data, k, seen, completions) && i < ChunkTotal(|data|)
    ensures Holds(Updated(v, MessageOf(data, k, i)), data, seen + {i})
  {
    hide Hex.Spaced, Slice;
    var entry := EntryFor(v, MessageOf(data, k, i));
    assert Holds(entry, data, seen);
    if i in seen {
      assert seen + {i} == seen;
    }
  }

  lemma FullEntry(entry: Entry, data: seq<byte>)
    requires Holds(entry, data, Range(ChunkTotal(|data|)))
    ensures Trim(Concat(entry.hexChunks)) == Hex.BytesToHex(data)
  {
    WholeHex(data);
    hide ChunkTotal, Hex.Spaced, Hex.BytesToHex, Slice, Trim, Concat;
    forall i | 0 <= i < ChunkTotal(|data|)
      ensures entry.hexChunks[i] == ChunkHexes(data)[i]
    {
      assert i in Range(ChunkTotal(|data|));
    }
    assert entry.hexChunks == ChunkHexes(data);
  }

  lemma OneMore(n: nat, s: string)
    ensures Times(n + 1, s) == Times(n, s) + [s]
  {
  }

  lemma ChunkArrives(v: View, data: seq<byte>, k: Key, seen: set<int>, completions: nat, i: nat)
    requires Tracks(v, data, k, seen, completions) && i < ChunkTotal(|data|)
    ensures
      var n := ChunkTotal(|data|);
      var q := seen + {i};
      Tracks(Handle(v, MessageOf(data, k, i)), data, k, if |q| >= n then {} else q,
             if |q| >= n then completions + 1 else completions)
  {
    if ChunkTotal(|data|) == 1 {
      OnlyChunk(v, data, k, seen, completions, i);
    } else if |seen + {i}| >= ChunkTotal(|data|) {
      LastChunk(v, data, k, seen, completions, i);
    } else {
      AnotherChunk(v, data, k, seen, completions, i);
    }
  }

  lemma OnlyChunk(v: View, data: seq<byte>, k: Key, seen: set<int>, completions: nat, i: nat)
    requires Tracks(v, data, k, seen, completions) && i < ChunkTotal(|data|) == 1
    ensures |seen + {i}| >= 1 && Tracks(Handle(v, MessageOf(data, k, i)), data, k, {}, completions + 1)
  {
    OneChunk(data);
    WholeHex(data);
    hide ChunkTotal, Hex.Spaced, Hex.BytesToHex, Trim, Slice, Concat, Holds, ChunkHexes, Times;
    assert seen == {} && seen + {i} == {i};
    LinesForSnoc(v.lines, Line(k, Hex.BytesToHex(data)), k);
    OneMore(completions, Hex.BytesToHex(data));
  }

  lemma LastChunk(v: View, data: seq<byte>, k: Key, seen: set<int>, completions: nat, i: nat)
    requires Tracks(v, data, k, seen, completions) && i < ChunkTotal(|data|) && ChunkTotal(|data|) > 1
    requires |seen + {i}| >= ChunkTotal(|data|)
    ensures Tracks(Handle(v, MessageOf(data, k, i)), data, k, {}, completions + 1)
  {
    EntryUpdated(v, data, k, seen, completions, i);
    FullRange(seen + {i}, ChunkTotal(|data|));
    FullEntry(Updated(v, MessageOf(data, k, i)), data);
    hide ChunkTotal, Hex.Spaced, Hex.BytesToHex, Trim, Slice, Concat, ChunkHexes, Times, Put;
    LinesForSnoc(v.lines, Line(k, Hex.BytesToHex(data)), k);
    OneMore(completions, Hex.BytesToHex(data));
  }

  lemma AnotherChunk(v: View, data: seq<byte>, k: Key, seen: set<int>, completions: nat, i: nat)
    requires Tracks(v, data, k, seen, completions) && i < ChunkTotal(|data|) && ChunkTotal(|data|) > 1
    requires |seen + {i}| < ChunkTotal(|data|)
    ensures Tracks(Handle(v, MessageOf(data, k, i)), data, k, seen + {i}, completions)
  {
    EntryUpdated(v, data, k, seen, completions, i);
    FullRange(seen + {i}, ChunkTotal(|data|));
    hide ChunkTotal, Hex.Spaced, Hex.BytesToHex, Trim, Slice, Concat, ChunkHexes, Times, Put;
  }

  lemma OneChunk(data: seq<byte>)
    requires ChunkTotal(|data|) == 1
    ensures Concat(ChunkHexes(data)) == ChunkHexes(data)[0]
    ensures |ChunkHexes(data)| == 1 && ChunkHexes(data)[0] == Hex.Spaced(Slice(data, 0))
  {
    assert ChunkHexes(data)[..0] == [];
  }

  lemma ForeignMessage(v: View, data: seq<byte>, k: Key, seen: set<int>, completions: nat, m: Message)
    requires Tracks(v, data, k, seen, completions) && m.key != k && m.chunkTotal >= 0
    ensures Tracks(Handle(v, m), data, k, seen, completions)
  {
    hide Trim, Concat, Put, Holds;
    var w := Handle(v, m);
    if |w.lines| > |v.lines| {
      LinesForSnoc(v.lines, w.lines[|v.lines|], k);
    }
  }

  /** Whatever genuine messages arrive in whatever order: the page's state for a frame is its
      pending chunks, and each completed round shows the whole frame's hex text once. */
  lemma {:induction false} ViewTracks(frames: map<Key, seq<byte>>, messages: seq<Message>, k: Key)
    requires AllGenuine(messages, frames) && k in frames
    ensures Tracks(Shown(messages), frames[k], k, Pending(messages, k), Completions(messages, k))
    decreases |messages|
  {
    hide Handle, MessageOf, Tracks;
    if messages == [] {
      NothingShown(frames[k], k);
    } else {
      var front, m := messages[..|messages| - 1], messages[|messages| - 1];
      ViewTracks(frames, front, k);
      assert Genuine(m, frames);
      if m.key == k {
        ChunkArrives(Shown(front), frames[k], k, Pending(front, k), Completions(front, k), m.chunkIndex);
        assert m.chunkTotal == ChunkTotal(|frames[k]|) by { TotalOf(m, frames); }
      } else {
        TotalOf(m, frames);
        ForeignMessage(Shown(front), frames[k], k, Pending(front, k), Completions(front, k), m);
      }
    }
  }

  lemma NothingShown(data: seq<byte>, k: Key)
    ensures Tracks(View(map[], []), data, k, {}, 0)
  {
  }

  lemma TotalOf(m: Message, frames: map<Key, seq<byte>>)
    requires Genuine(m, frames)
    ensures m.chunkTotal == ChunkTotal(|frames[m.key]|)
  {
  }

  lemma {:induction false} BeforeCompletion(frames: map<Key, seq<byte>>, messages: seq<Message>, k: Key)
    requires AllGenuine(messages, frames) && k in frames
    requires Indices(messages, k) != Range(ChunkTotal(|frames[k]|))
    ensures Indices(messages, k) <= Range(ChunkTotal(|frames[k]|))
    ensures Pending(messages, k) == Indices(messages, k) && Completions(messages, k) == 0
    decreases |messages|
  {
    hide MessageOf;
    var n := ChunkTotal(|frames[k]|);
    IndicesInRange(frames, messages, k);
    if messages != [] {
      var front, m := messages[..|messages| - 1], messages[|messages| - 1];
      assert Genuine(m, frames);
      TotalOf(m, frames);
      IndicesInRange(frames, front, k);
      BeforeCompletion(frames, front, k);
      FullRange(Indices(messages, k), n);
    }
  }

  lemma {:induction false} IndicesInRange(frames: map<Key, seq<byte>>, messages: seq<Message>, k: Key)
    requires AllGenuine(messages, frames) && k in frames
    ensures Indices(messages, k) <= Range(ChunkTotal(|frames[k]|))
    decreases |messages|
  {
    hide MessageOf;
    if messages != [] {
      assert Genuine(messages[|messages| - 1], frames);
      IndicesInRange(frames, messages[..|messages| - 1], k);
    }
  }

  /** A frame some chunk of which never arrives is never shown. */
  lemma MissingChunkNeverShown(frames: map<Key, seq<byte>>, messages: seq<Message>, k: Key, j: nat)
    requires AllGenuine(messages, frames) && k in frames
    requires j < ChunkTotal(|frames[k]|) && j !in Indices(messages, k)
    ensures LinesFor(Shown(messages).lines, k) == []
  {
    assert j in Range(ChunkTotal(|frames[k]|));
    BeforeCompletion(frames, messages, k);
    ViewTracks(frames, messages, k);
  }

  lemma {:induction false} NoMoreOf(a: seq<Message>, b: seq<Message>, k: Key)
    requires forall i :: 0 <= i < |b| ==> b[i].key != k
    ensures Pending(a + b, k) == Pending(a, k) && Completions(a + b, k) == Completions(a, k)
    decreases |b|
  {
    if b == [] {
      assert a + b == a;
    } else {
      assert (a + b)[..|a + b| - 1] == a + b[..|b| - 1];
      NoMoreOf(a, b[..|b| - 1], k);
    }
  }

  /** Chunks in any order, repeated at will, mixed with any other frames: if m is the first message
      with which every chunk of frame k has arrived and k is not sent again, the page shows frame k
      exactly once, whole, and keeps nothing of it. */
  lemma CompleteFrameShownOnce(frames: map<Key, seq<byte>>, a: seq<Message>, m: Message, b: seq<Message>, k: Key)
    requires AllGenuine(a + [m] + b, frames) && k in frames && m.key == k
    requires Indices(a, k) != Range(ChunkTotal(|frames[k]|))
    requires Indices(a + [m], k) == Range(ChunkTotal(|frames[k]|))
    requires forall i :: 0 <= i < |b| ==> b[i].key != k
    ensures LinesFor(Shown(a + [m] + b).lines, k) == [Hex.BytesToHex(frames[k])]
    ensures k !in Shown(a + [m] + b).buffer
  {
    hide *;
    GenuineParts(a, m, b, frames);
    FirstCompletion(frames, a, m, k);
    NoMoreOf(a + [m], b, k);
    ViewTracks(frames, a + [m] + b, k);
    ShownOnce(Shown(a + [m] + b), frames[k], k);
  }

  lemma ShownOnce(v: View, data: seq<byte>, k: Key)
    requires Tracks(v, data, k, {}, 1)
    ensures LinesFor(v.lines, k) == [Hex.BytesToHex(data)] && k !in v.buffer
  {
    hide Hex.BytesToHex, Holds;
  }

  lemma GenuineParts(a: seq<Message>, m: Message, b: seq<Message>, frames: map<Key, seq<byte>>)
    requires AllGenuine(a + [m] + b, frames)
    ensures AllGenuine(a, frames) && Genuine(m, frames)
  {
    hide Genuine;
    var whole := a + [m] + b;
    assert Genuine(whole[|a|], frames);
    forall i | 0 <= i < |a| ensures Genuine(a[i], frames) {
      assert whole[i] == a[i];
    }
  }

  lemma FirstCompletion(frames: map<Key, seq<byte>>, a: seq<Message>, m: Message, k: Key)
    requires AllGenuine(a, frames) && Genuine(m, frames) && k in frames && m.key == k
    requires Indices(a, k) != Range(ChunkTotal(|frames[k]|))
    requires Indices(a + [m], k) == Range(ChunkTotal(|frames[k]|))
    ensures Pending(a + [m], k) == {} && Completions(a + [m], k) == 1
  {
    hide MessageOf;
    assert (a + [m])[..|a|] == a;
    TotalOf(m, frames);
    BeforeCompletion(frames, a, k);
    FullRange(Indices(a + [m], k), ChunkTotal(|frames[k]|));
  }

  lemma {:induction false} OnlyQueuedArrive(data: seq<byte>, k: Key, fates: nat -> Fate, from: nat, m: Message)
    requires from <= ChunkTotal(|data|) && m in Delivered(data, k, fates, from)
    ensures from <= m.chunkIndex < ChunkTotal(|data|) && fates(m.chunkIndex) == Queued
    ensures m == MessageOf(data, k, m.chunkIndex)
    decreases ChunkTotal(|data|) - from
  {
    hide Slice, Hex.Spaced;
    if fates(from) != Queued || m != MessageOf(data, k, from) {
      OnlyQueuedArrive(data, k, fates, from + 1, m);
    }
  }

  lemma {:induction false} LostIndex(data: seq<byte>, messages: seq<Message>, k: Key, fates: nat -> Fate, j: nat)
    requires forall i :: 0 <= i < |messages| && messages[i].key == k ==> messages[i] in Delivered(data, k, fates, 0)
    requires fates(j) != Queued
    ensures j !in Indices(messages, k)
    decreases |messages|
  {
    if messages != [] {
      var m := messages[|messages| - 1];
      LostIndex(data, messages[..|messages| - 1], k, fates, j);
      if m.key == k {
        OnlyQueuedArrive(data, k, fates, 0, m);
      }
    }
  }

  /** If the firmware could not queue one of a frame's chunks, the frame is never shown. */
  lemma LossyFrameNeverShown(frames: map<Key, seq<byte>>, messages: seq<Message>, k: Key, fates: nat -> Fate, j: nat)
    requires AllGenuine(messages, frames) && k in frames
    requires forall i :: 0 <= i < |messages| && messages[i].key == k ==>
      messages[i] in Delivered(frames[k], k, fates, 0)
    requires j < ChunkTotal(|frames[k]|) && fates(j) != Queued
    ensures LinesFor(Shown(messages).lines, k) == []
  {
    LostIndex(frames[k], messages, k, fates, j);
    MissingChunkNeverShown(frames, messages, k, j);
  }

  /** The messages of frame k in the stream are exactly what the firmware queued, each of them once. */
  ghost predicate ArrivedOnce(messages: seq<Message>, data: seq<byte>, k: Key, fates: nat -> Fate) {
    && (forall m :: m in Delivered(data, k, fates, 0) ==> m in messages)
    && (forall p :: 0 <= p < |messages| && messages[p].key == k ==> messages[p] in Delivered(data, k, fates, 0))
    && (forall p, q :: 0 <= p < q < |messages| && messages[p].key == messages[q].key == k ==>
          messages[p] != messages[q])
  }

  lemma {:induction false} IndexIn(messages: seq<Message>, k: Key, i: int)
    ensures i in Indices(messages, k) <==>
            exists p :: 0 <= p < |messages| && messages[p].key == k && messages[p].chunkIndex == i
    decreases |messages|
  {
    if messages != [] {
      var n := |messages| - 1;
      IndexIn(messages[..n], k, i);
      if i in Indices(messages[..n], k) {
        var p :| 0 <= p < n && messages[..n][p].key == k && messages[..n][p].chunkIndex == i;
        assert messages[p] == messages[..n][p];
      }
      if p :| 0 <= p < |messages| && messages[p].key == k && messages[p].chunkIndex == i {
        assert p < n ==> messages[..n][p] == messages[p];
      }
    }
  }

  lemma {:induction false} LastOf(messages: seq<Message>, k: Key) returns (p: int)
    ensures -1 <= p < |messages| && (p >= 0 ==> messages[p].key == k)
    ensures forall q :: p < q < |messages| ==> messages[q].key != k
    decreases |messages|
  {
    if messages == [] {
      p := -1;
    } else if messages[|messages| - 1].key == k {
      p := |messages| - 1;
    } else {
      p := LastOf(messages[..|messages| - 1], k);
      assert forall q :: p < q < |messages| - 1 ==> messages[q] == messages[..|messages| - 1][q];
    }
  }

  lemma AllIndices(data: seq<byte>, messages: seq<Message>, k: Key, fates: nat -> Fate)
    requires ArrivedOnce(messages, data, k, fates)
    requires forall i :: 0 <= i < ChunkTotal(|data|) ==> fates(i) == Queued
    ensures Range(ChunkTotal(|data|)) <= Indices(messages, k)
  {
    hide Slice, Hex.Spaced;
    AllDelivered(data, k, fates, 0);
    forall i | i in Range(ChunkTotal(|data|)) ensures i in Indices(messages, k) {
      var m := Delivered(data, k, fates, 0)[i];
      assert m == MessageOf(data, k, i) && m in messages;
      IndexIn(messages, k, i);
    }
  }

  /** The last message of the frame is the one that brings the last missing chunk. */
  lemma LastIsMissing(data: seq<byte>, messages: seq<Message>, k: Key, fates: nat -> Fate, p: nat)
    requires ArrivedOnce(messages, data, k, fates) && p < |messages| && messages[p].key == k
    ensures messages[p].chunkIndex !in Indices(messages[..p], k)
  {
    hide Delivered, MessageOf;
    var i := messages[p].chunkIndex;
    if i in Indices(messages[..p], k) {
      IndexIn(messages[..p], k, i);
      var q :| 0 <= q < p && messages[..p][q].key == k && messages[..p][q].chunkIndex == i;
      OnlyQueuedArrive(data, k, fates, 0, messages[p]);
      OnlyQueuedArrive(data, k, fates, 0, messages[q]);
      assert false;
    }
  }

  lemma NoneAfter(messages: seq<Message>, k: Key, p: nat)
    requires p < |messages| && forall q :: p < q < |messages| ==> messages[q].key != k
    ensures var rest := messages[p + 1..]; forall i :: 0 <= i < |rest| ==> rest[i].key != k
    ensures messages == messages[..p] + [messages[p]] + messages[p + 1..]
    ensures messages[..p + 1] == messages[..p] + [messages[p]]
  {
  }

  lemma IndicesUpTo(messages: seq<Message>, k: Key, p: nat)
    requires p < |messages| && forall q :: p < q < |messages| ==> messages[q].key != k
    ensures Indices(messages, k) == Indices(messages[..p + 1], k)
  {
    forall i ensures i in Indices(messages, k) <==> i in Indices(messages[..p + 1], k) {
      IndexIn(messages, k, i);
      IndexIn(messages[..p + 1], k, i);
      assert forall q :: 0 <= q <= p ==> messages[..p + 1][q] == messages[q];
    }
  }

  lemma QueuedFrameShown(frames: map<Key, seq<byte>>, messages: seq<Message>, k: Key, fates: nat -> Fate)
    requires AllGenuine(messages, frames) && k in frames && ArrivedOnce(messages, frames[k], k, fates)
    requires forall i :: 0 <= i < ChunkTotal(|frames[k]|) ==> fates(i) == Queued
    ensures LinesFor(Shown(messages).lines, k) == [Hex.BytesToHex(frames[k])] && k !in Shown(messages).buffer
  {
    var data := frames[k];
    AllIndices(data, messages, k, fates);
    IndicesInRange(frames, messages, k);
    assert 0 in Range(ChunkTotal(|data|));
    IndexIn(messages, k, 0);
    var p := LastOf(messages, k);
    assert p >= 0;
    LastIsMissing(data, messages, k, fates, p);
    NoneAfter(messages, k, p);
    IndicesUpTo(messages, k, p);
    LastInRange(frames, messages, k, p);
    hide *;
    CompleteFrameShownOnce(frames, messages[..p], messages[p], messages[p + 1..], k);
  }

  lemma LastInRange(frames: map<Key, seq<byte>>, messages: seq<Message>, k: Key, p: nat)
    requires AllGenuine(messages, frames) && k in frames && p < |messages| && messages[p].key == k
    requires messages[p].chunkIndex !in Indices(messages[..p], k)
    ensures Indices(messages[..p], k) != Range(ChunkTotal(|frames[k]|))
  {
    hide MessageOf;
    assert Genuine(messages[p], frames);
  }

  /** From the firmware's queue to the page: if the frame's queued messages all arrive, each once, in any
      order and among any others, the frame is shown once and whole if every chunk was queued, and
      otherwise not at all. */
  lemma ShownOnceIffAllQueued(frames: map<Key, seq<byte>>, messages: seq<Message>, k: Key, fates: nat -> Fate)
    requires AllGenuine(messages, frames) && k in frames && ArrivedOnce(messages, frames[k], k, fates)
    ensures LinesFor(Shown(messages).lines, k) ==
            if forall i :: 0 <= i < ChunkTotal(|frames[k]|) ==> fates(i) == Queued then [Hex.BytesToHex(frames[k])]
            else []
  {
    if forall i :: 0 <= i < ChunkTotal(|frames[k]|) ==> fates(i) == Queued {
      QueuedFrameShown(frames, messages, k, fates);
    } else {
      hide Delivered, Shown, LinesFor, MessageOf;
      var j :| 0 <= j < ChunkTotal(|frames[k]|) && fates(j) != Queued;
      LossyFrameNeverShown(frames, messages, k, fates, j);
    }
  }
}
