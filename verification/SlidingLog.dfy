/** The detailed log kept for the web page: a buffer of 1024 characters from which the oldest text is
    pushed out. The C buffer's terminator can land one cell past its end; the array here has that cell
    too, as index 1024. */
module SlidingLog {
  import opened Common

  const LOG_BUFFER_SIZE := 1024
  const LOG_MSG_SIZE := 256

  // ---------------------------------------------------------------- what is logged

  /** What one call adds: `None` is a failed `vsnprintf`; texts that are empty or do not fit the
      message buffer are skipped, a missing newline is added where there is room. */
  function Accepted(formatted: Option<string>): string {
    if formatted.None? || |formatted.value| == 0 || |formatted.value| >= LOG_MSG_SIZE then ""
    else
      var text := formatted.value;
      if text[|text| - 1] != '\n' && |text| < LOG_MSG_SIZE - 1 then text + "\n" else text
  }

  /** One event at the log; a log call that cannot get the mutex adds nothing. */
  datatype Op = Log(locked: bool, formatted: Option<string>) | Clear

  /** All text accepted since the log was last cleared. */
  function Text(ops: seq<Op>): string {
    if ops == [] then ""
    else
      var before := Text(ops[..|ops| - 1]);
      match ops[|ops| - 1]
      case Clear => ""
      case Log(locked, formatted) => if locked then before + Accepted(formatted) else before
  }

  /** The last 1024 characters. */
  function Window(text: string): string {
    if |text| <= LOG_BUFFER_SIZE then text else text[|text| - LOG_BUFFER_SIZE..]
  }

  // ---------------------------------------------------------------- the buffer

  /** What the buffer holds after one more line, moving as much old text down as still fits. */
  function Slide(stored: string, line: string): string
    requires |line| <= LOG_BUFFER_SIZE && |stored| <= LOG_BUFFER_SIZE
  {
    if |stored| + |line| >= LOG_BUFFER_SIZE then stored[|stored| + |line| - LOG_BUFFER_SIZE..] + line
    else stored + line
  }

  function Stored(ops: seq<Op>): (stored: string)
    ensures |stored| <= LOG_BUFFER_SIZE
  {
    if ops == [] then ""
    else
      var before := Stored(ops[..|ops| - 1]);
      match ops[|ops| - 1]
      case Clear => ""
      case Log(locked, formatted) => if locked then Slide(before, Accepted(formatted)) else before
  }

  lemma SuffixOfSuffix(text: string, from: nat, further: nat)
    requires from + further <= |text|
    ensures text[from..][further..] == text[from + further..]
  {
  }

  lemma SuffixOfSum(text: string, line: string, from: nat)
    requires from <= |text|
    ensures (text + line)[from..] == text[from..] + line
  {
  }

  lemma SlideIsWindow(text: string, line: string)
    requires |line| <= LOG_BUFFER_SIZE
    ensures |Window(text)| <= LOG_BUFFER_SIZE && Slide(Window(text), line) == Window(text + line)
  {
    var kept := Window(text);
    var gone := |text| - |kept|;
    if |kept| + |line| >= LOG_BUFFER_SIZE {
      var further := |kept| + |line| - LOG_BUFFER_SIZE;
      SuffixOfSuffix(text, gone, further);
      SuffixOfSum(text, line, gone + further);
    }
  }

  /** Whatever was logged and cleared: sliding text by text keeps exactly the last 1024 characters of
      everything accepted since the last clear. */
  lemma {:induction false} StoredIsWindow(ops: seq<Op>)
    ensures Stored(ops) == Window(Text(ops))
    decreases |ops|
  {
    if ops != [] {
      hide Window, Slide, Accepted;
      var front := ops[..|ops| - 1];
      StoredIsWindow(front);
      match ops[|ops| - 1]
      case Clear => EmptyWindow();
      case Log(locked, formatted) =>
        AcceptedFits(formatted);
        SlideIsWindow(Text(front), Accepted(formatted));
    }
    EmptyWindow();
  }

  lemma EmptyWindow()
    ensures Window("") == ""
  {
  }

  /** A text that is accepted is kept as it is, with a newline behind it unless it has one or, at 255
      characters, there is no room for it; all others add nothing. */
  lemma AcceptedMeans(formatted: Option<string>)
    ensures
      var line := Accepted(formatted);
      && (line != "" <==> formatted.Some? && 0 < |formatted.value| < LOG_MSG_SIZE)
      && (line != "" ==>
            && formatted.value <= line && |line| <= |formatted.value| + 1
            && (line[|line| - 1] == '\n' || (line == formatted.value && |line| == LOG_MSG_SIZE - 1))
            && (formatted.value[|formatted.value| - 1] == '\n' ==> line == formatted.value))
  {
  }

  /** So in the buffer the text of one call is set off from the next by a newline, unless a text of 255
      characters came without one: the buffer as a whole ends in one under the same condition. */
  lemma {:induction false} EndsInNewline(ops: seq<Op>)
    requires forall i :: 0 <= i < |ops| ==>
      ops[i].Log? && ops[i].formatted.Some? && |ops[i].formatted.value| == LOG_MSG_SIZE - 1 ==>
      ops[i].formatted.value[LOG_MSG_SIZE - 2] == '\n'
    ensures Stored(ops) != "" ==> Stored(ops)[|Stored(ops)| - 1] == '\n'
    decreases |ops|
  {
    if ops != [] {
      EndsInNewline(ops[..|ops| - 1]);
      if ops[|ops| - 1].Log? {
        AcceptedMeans(ops[|ops| - 1].formatted);
        AcceptedFits(ops[|ops| - 1].formatted);
        hide Accepted;
      }
    }
  }

  lemma AcceptedFits(formatted: Option<string>)
    ensures |Accepted(formatted)| < LOG_MSG_SIZE
  {
  }

  /** Nothing is missing exactly while the accepted text is no longer than the buffer. */
  lemma CompleteIffShort(ops: seq<Op>)
    ensures Stored(ops) == Text(ops) <==> |Text(ops)| <= LOG_BUFFER_SIZE
  {
    StoredIsWindow(ops);
  }

  /** The text of the newest call is always there in full, and at the end. */
  lemma NewestLineWhole(ops: seq<Op>, formatted: Option<string>)
    ensures
      var line, stored := Accepted(formatted), Stored(ops + [Log(true, formatted)]);
      |line| <= |stored| && stored[|stored| - |line|..] == line
  {
    assert (ops + [Log(true, formatted)])[..|ops|] == ops;
    AcceptedFits(formatted);
    hide Accepted;
  }

  // ---------------------------------------------------------------- the code

  predicate Printable(text: string) { forall i :: 0 <= i < |text| ==> text[i] != '\0' }

  /** No call logged a NUL. */
  predicate PrintableCalls(ops: seq<Op>) {
    forall i :: 0 <= i < |ops| ==> ops[i].Log? && ops[i].formatted.Some? ==> Printable(ops[i].formatted.value)
  }

  lemma {:induction false} StoredPrintable(ops: seq<Op>)
    requires PrintableCalls(ops)
    ensures Printable(Stored(ops))
    decreases |ops|
  {
    if ops != [] {
      StoredPrintable(ops[..|ops| - 1]);
    }
  }

  class DetailedLog {
    const logBuffer: array<char>
    var logPosition: nat
    ghost var history: seq<Op>

    ghost predicate Valid()
      reads this, logBuffer
    {
      && logBuffer.Length == LOG_BUFFER_SIZE + 1 && logPosition <= LOG_BUFFER_SIZE
      && logBuffer[logPosition] == '\0'
      && logBuffer[..logPosition] == Stored(history)
    }

    /** `sx_log_init` */
    constructor ()
      ensures Valid() && fresh(logBuffer) && history == []
    {
      logBuffer := new char[LOG_BUFFER_SIZE + 1](_ => '\0');
      logPosition, history := 0, [];
    }

    /** The message as it is sent and stored, if it is. */
    static method Format(formatted: Option<string>) returns (line: string)
      ensures line == Accepted(formatted)
    {
      if formatted.None? || |formatted.value| == 0 || |formatted.value| >= LOG_MSG_SIZE {
        return "";
      }
      line := formatted.value;
      if line[|line| - 1] != '\n' {
        if |line| < LOG_MSG_SIZE - 1 {
          line := line + "\n";
        }
      }
    }

    /** `log_output_func` with the mutex held; `sent` is what goes to the web socket. */
    method LogOutput(formatted: Option<string>) returns (sent: Option<string>)
      requires Valid()
      modifies this, logBuffer
      ensures Valid() && history == old(history) + [Log(true, formatted)]
      ensures sent == if Accepted(formatted) == "" then None else Some(Accepted(formatted))
      ensures logBuffer[..logPosition] == Window(Text(history))
    {
      StoredIsWindow(history + [Log(true, formatted)]);
      StoredSnoc(history, formatted);
      hide Stored, Text, Window, Accepted, Slide;
      var line := Format(formatted);
      if line == "" {
        SlideNothing(history, formatted);
        sent := None;
      } else {
        Append(line);
        sent := Some(line);
      }
      history := history + [Log(true, formatted)];
    }

    method Append(line: string)
      requires logBuffer.Length == LOG_BUFFER_SIZE + 1 && logPosition <= LOG_BUFFER_SIZE
      requires 0 < |line| < LOG_MSG_SIZE
      modifies this`logPosition, logBuffer
      ensures logPosition <= LOG_BUFFER_SIZE && logBuffer[logPosition] == '\0'
      ensures logBuffer[..logPosition] == Slide(old(logBuffer[..logPosition]), line)
    {
      ghost var before := logBuffer[..logPosition];
      if logPosition + |line| >= LOG_BUFFER_SIZE {
        var moveSize := LOG_BUFFER_SIZE - |line|;
        var from := logPosition + |line| - LOG_BUFFER_SIZE;
        forall i | 0 <= i < moveSize {
          logBuffer[i] := logBuffer[from + i];
        }
        logPosition := moveSize;
        assert logBuffer[..logPosition] == before[from..];
      }
      ghost var kept := logBuffer[..logPosition];
      forall i | 0 <= i < |line| {
        logBuffer[logPosition + i] := line[i];
      }
      logPosition := logPosition + |line|;
      logBuffer[logPosition] := '\0';
      assert logBuffer[..logPosition] == kept + line;
    }

    /** `sx_log_clear`, the part about the detailed log */
    method ClearLog()
      requires Valid()
      modifies this, logBuffer
      ensures Valid() && history == old(history) + [Clear] && logPosition == 0
    {
      forall i | 0 <= i < LOG_BUFFER_SIZE {
        logBuffer[i] := '\0';
      }
      logPosition := 0;
      history := history + [Clear];
    }

    /** `sx_log_get_buffer`: `strdup` reads up to the first NUL. */
    method GetBuffer() returns (text: Option<string>)
      requires Valid()
      ensures text.None? <==> Stored(history) == ""
      ensures text.Some? && Printable(Stored(history)) ==> text.value == Window(Text(history))
      ensures PrintableCalls(history) ==> text == if Text(history) == "" then None else Some(Window(Text(history)))
    {
      StoredIsWindow(history);
      if PrintableCalls(history) {
        StoredPrintable(history);
      }
      hide Stored, Text, PrintableCalls;
      if logPosition > 0 {
        var end := 0;
        while logBuffer[end] != '\0'
          invariant 0 <= end <= logPosition
          invariant forall i :: 0 <= i < end ==> logBuffer[i] != '\0'
          decreases logPosition - end
        {
          end := end + 1;
        }
        ghost var all := logBuffer[..logPosition];
        assert end < logPosition ==> all[end] == '\0';
        return Some(logBuffer[..end]);
      }
      return None;
    }
  }

  lemma StoredSnoc(ops: seq<Op>, formatted: Option<string>)
    ensures |Accepted(formatted)| < LOG_MSG_SIZE
    ensures Stored(ops + [Log(true, formatted)]) == Slide(Stored(ops), Accepted(formatted))
  {
    assert (ops + [Log(true, formatted)])[..|ops|] == ops;
    AcceptedFits(formatted);
    hide Accepted, Slide;
  }

  lemma SlideNothing(ops: seq<Op>, formatted: Option<string>)
    requires Accepted(formatted) == ""
    ensures Stored(ops + [Log(true, formatted)]) == Stored(ops)
  {
    StoredSnoc(ops, formatted);
    assert Stored(ops)[|Stored(ops)| + 0 - |Stored(ops)|..] == Stored(ops);
  }
}
