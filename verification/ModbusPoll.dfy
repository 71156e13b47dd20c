/** The Modbus polling task: how long a cycle over the templates may take, how the poll interval is
    adjusted to it, and what is sent. Times are the milliseconds the code asks to sleep or wait,
    including those inside `uart_reinit` and `tx_tasks`. */
module ModbusPoll {
  import opened Common
  import Crc16

  /** A template: its numbers as parsed from the configuration; `lineOk` says its serial line settings
      are acceptable. */
  datatype Item = Item(
    enabled: bool, lineOk: bool, timeout: int, interval: int, slave: int, func: int, reg: int, num: int)

  const SLICE_MS := 500
  const SETTLE_MS := 50
  const BUFFER_MS := 1000

  function Positive(x: int): nat { if x > 0 then x else 0 }

  function Smaller(a: int, b: int): int { if a < b then a else b }

  // ---------------------------------------------------------------- sleeping in slices

  function Sum(parts: seq<nat>): nat {
    if parts == [] then 0 else parts[0] + Sum(parts[1..])
  }

  function Slices(delayMs: int): seq<nat>
    decreases Positive(delayMs)
  {
    if delayMs <= 0 then [] else [Smaller(delayMs, SLICE_MS)] + Slices(delayMs - Smaller(delayMs, SLICE_MS))
  }

  /** Exactly the whole delay, in pieces of at most 500 ms. */
  lemma {:induction false} SlicesSum(delayMs: int)
    ensures Sum(Slices(delayMs)) == Positive(delayMs)
    ensures forall k :: 0 <= k < |Slices(delayMs)| ==> 1 <= Slices(delayMs)[k] <= SLICE_MS
    decreases Positive(delayMs)
  {
    if delayMs > 0 {
      SlicesSum(delayMs - Smaller(delayMs, SLICE_MS));
    }
  }

  lemma {:induction false} SumAppend(a: seq<nat>, b: seq<nat>)
    ensures Sum(a + b) == Sum(a) + Sum(b)
    decreases |a|
  {
    if a == [] {
      assert a + b == b;
    } else {
      assert (a + b)[1..] == a[1..] + b;
      SumAppend(a[1..], b);
    }
  }

  /** `modbus_delay_with_wdt`; `stops(k)` tells whether a stop is requested at the k-th look. */
  method ModbusDelayWithWdt(delayMs: int, stops: nat -> bool) returns (slices: seq<nat>)
    ensures slices <= Slices(delayMs)
    ensures forall k :: 0 <= k < |slices| ==> !stops(k)
    ensures slices == Slices(delayMs) || stops(|slices|)
    ensures Sum(slices) <= Positive(delayMs)
    ensures (forall k :: !stops(k)) ==> Sum(slices) == Positive(delayMs)
  {
    slices := [];
    var left := delayMs;
    SlicesSum(delayMs);
    hide Slices, Sum;
    while left > 0
      invariant slices + Slices(left) == Slices(delayMs)
      invariant forall k :: 0 <= k < |slices| ==> !stops(k)
      decreases left
    {
      SumAppend(slices, Slices(left));
      if stops(|slices|) {
        return;
      }
      var chunk := if left > SLICE_MS then SLICE_MS else left;
      SlicesNext(left, slices);
      slices := slices + [chunk];
      left := left - chunk;
    }
    SlicesDone(left);
  }

  lemma SlicesNext(left: int, before: seq<nat>)
    requires left > 0
    ensures var chunk := Smaller(left, SLICE_MS); (before + [chunk]) + Slices(left - chunk) == before + Slices(left)
  {
  }

  lemma SlicesDone(left: int)
    requires left <= 0
    ensures Slices(left) == []
  {
  }

  /** The wait for a response; the k-th look at the semaphore finds it given after `answers(k)` ms, or
      not at all. */
  method AwaitResponse(timeout: nat, stops: nat -> bool, answers: nat -> Option<nat>)
    returns (gotResponse: bool, elapsed: nat)
    ensures elapsed <= timeout
    ensures (forall k :: !stops(k)) ==> gotResponse || elapsed == timeout
    ensures gotResponse ==> exists k :: answers(k).Some?
  {
    gotResponse, elapsed := false, 0;
    var waitedMs, looks := 0, 0;
    while waitedMs < timeout && !stops(looks)
      invariant waitedMs <= timeout && elapsed == waitedMs && !gotResponse
      decreases timeout - waitedMs
    {
      var waitMs := if timeout - waitedMs > SLICE_MS then SLICE_MS else timeout - waitedMs;
      var answer := answers(looks);
      if answer.Some? {
        gotResponse := true;
        elapsed := waitedMs + Smaller(answer.value, waitMs);
        return;
      }
      waitedMs := waitedMs + waitMs;
      elapsed := waitedMs;
      looks := looks + 1;
    }
  }

  // ---------------------------------------------------------------- sleeping in uart_reinit

  const STOP_SLICE_MS := 10
  const STOP_LOOKS := 100
  const REINIT_DELAY_MS := 10
  const MUTEX_WAIT_MS := 1000

  const WAKE_WAIT_MS := 100
  const CONFIG_WAIT_MS := 200

  /** What one `uart_reinit` meets: the lock and how long it was waited for; for each of its two calls of
      `stop_rx_task` how long the wake-up message waited for room in the queue (none is sent if there is
      no processing task) and at which looks a UART task is still there; the wait for the lock on the
      configuration. */
  datatype Reinit = Reinit(
    locked: bool, lockWait: nat, wakeWait: nat, running: nat -> bool,
    configWait: nat, wakeWaitAgain: nat, runningAgain: nat -> bool)

  function Capped(wait: nat, limit: nat): nat { if wait < limit then wait else limit }

  /** Ten milliseconds for every look, from the k-th on, that finds a task; a hundred looks at most. */
  function StopSleep(running: nat -> bool, k: nat): (slept: nat)
    requires k <= STOP_LOOKS
    ensures slept % STOP_SLICE_MS == 0 && slept <= STOP_SLICE_MS * (STOP_LOOKS - k)
    ensures forall i :: k <= i < k + slept / STOP_SLICE_MS ==> running(i)
    ensures slept < STOP_SLICE_MS * (STOP_LOOKS - k) ==> !running(k + slept / STOP_SLICE_MS)
    decreases STOP_LOOKS - k
  {
    if k == STOP_LOOKS || !running(k) then 0 else STOP_SLICE_MS + StopSleep(running, k + 1)
  }

  function StopTime(wakeWait: nat, running: nat -> bool): nat {
    Capped(wakeWait, WAKE_WAIT_MS) + StopSleep(running, 0)
  }

  function ReinitSleep(e: Reinit): nat {
    if !e.locked then MUTEX_WAIT_MS
    else
      Capped(e.lockWait, MUTEX_WAIT_MS) + StopTime(e.wakeWait, e.running) + REINIT_DELAY_MS
      + Capped(e.configWait, CONFIG_WAIT_MS) + StopTime(e.wakeWaitAgain, e.runningAgain)
  }

  /** `stop_rx_task`, the time it takes */
  method StopRxTask(wakeWait: nat, running: nat -> bool) returns (slept: nat)
    ensures slept == StopTime(wakeWait, running)
  {
    slept := if wakeWait < WAKE_WAIT_MS then wakeWait else WAKE_WAIT_MS;
    var k := 0;
    while k < STOP_LOOKS
      invariant 0 <= k <= STOP_LOOKS
      invariant slept + StopSleep(running, k) == StopTime(wakeWait, running)
    {
      if !running(k) {
        break;
      }
      slept := slept + STOP_SLICE_MS;
      k := k + 1;
    }
  }

  /** `uart_reinit`, the time it takes */
  method UartReinit(e: Reinit) returns (slept: nat)
    ensures slept == ReinitSleep(e)
  {
    if !e.locked {
      return MUTEX_WAIT_MS;
    }
    var stop := StopRxTask(e.wakeWait, e.running);
    slept := Capped(e.lockWait, MUTEX_WAIT_MS) + stop + REINIT_DELAY_MS;
    slept := slept + Capped(e.configWait, CONFIG_WAIT_MS);
    var again := StopRxTask(e.wakeWaitAgain, e.runningAgain);
    slept := slept + again;
  }

  /** Ten milliseconds at the least; exactly those if both locks are free, the wake-up messages find
      room at once and no task is still there. */
  lemma ReinitFloor(e: Reinit)
    ensures ReinitSleep(e) >= REINIT_DELAY_MS
    ensures ReinitSleep(e) == REINIT_DELAY_MS <==>
            && e.locked && e.lockWait == 0 && e.configWait == 0 && e.wakeWait == 0 && e.wakeWaitAgain == 0
            && !e.running(0) && !e.runningAgain(0)
  {
  }

  /** And never more than 3.41 seconds, however long the waits: one for the lock, 0.2 for the
      configuration, 0.1 and 1 for each stop. */
  lemma ReinitCeiling(e: Reinit)
    ensures ReinitSleep(e) <= 3410
    ensures ReinitSleep(e) == 3410 <==>
            && e.locked && e.lockWait >= 1000 && e.configWait >= 200 && e.wakeWait >= 100 && e.wakeWaitAgain >= 100
            && (forall k :: 0 <= k < 100 ==> e.running(k)) && (forall k :: 0 <= k < 100 ==> e.runningAgain(k))
  {
    StopTimeFull(e.wakeWait, e.running);
    StopTimeFull(e.wakeWaitAgain, e.runningAgain);
    hide StopTime;
  }

  lemma StopTimeFull(wakeWait: nat, running: nat -> bool)
    ensures StopTime(wakeWait, running) <= 1100
    ensures StopTime(wakeWait, running) == 1100 <==> wakeWait >= 100 && forall k :: 0 <= k < 100 ==> running(k)
  {
    StopSleepFull(running, 0);
    hide StopSleep;
  }

  lemma {:induction false} StopSleepFull(running: nat -> bool, k: nat)
    requires k <= 100
    ensures StopSleep(running, k) <= 10 * (100 - k)
    ensures StopSleep(running, k) == 10 * (100 - k) <==> forall i :: k <= i < 100 ==> running(i)
    decreases 100 - k
  {
    if k < 100 {
      StopSleepFull(running, k + 1);
    }
  }

  const RECEIVE_WAIT_MS := 500

  const CATCH_UP_ABOVE := 18
  const CATCH_UP_MS := 50
  const PURGE_ABOVE := 15
  const PURGE_KEEPS := 5

  /** A message in the processing task's queue: a frame, and whether the old buffer can be grown for it,
      or the empty message that is to wake the task up. */
  datatype Queued = Frame(grown: bool) | Empty

  /** How long the task waits from a receive on: it looks for the stop after a frame it could handle and
      after half a second without any message, but not after a frame it skips or an empty message. */
  function ReceiveDelay(queue: seq<Queued>): nat {
    if queue == [] then RECEIVE_WAIT_MS
    else if queue[0] == Frame(true) then 0
    else ReceiveDelay(queue[1..])
  }

  function Kept(queue: seq<Queued>): seq<Queued> {
    if |queue| > PURGE_ABOVE then queue[|queue| - PURGE_KEEPS..] else queue
  }

  /** How long the processing task still waits once it is told to stop with these messages in its queue
      and no more to come; a backlog is purged first. */
  function ExitDelay(queue: seq<Queued>): nat {
    (if |queue| > CATCH_UP_ABOVE then CATCH_UP_MS else 0) + ReceiveDelay(Kept(queue))
  }

  lemma {:induction false} ReceiveDelayIff(queue: seq<Queued>)
    ensures ReceiveDelay(queue) == if Frame(true) in queue then 0 else RECEIVE_WAIT_MS
    decreases |queue|
  {
    if queue != [] {
      ReceiveDelayIff(queue[1..]);
      assert queue == [queue[0]] + queue[1..];
    }
  }

  /** So the wake-up does not wake it: it takes the half second exactly if no frame it can handle is left
      in the queue. */
  lemma ExitDelayIff(queue: seq<Queued>)
    ensures ExitDelay(queue) >= RECEIVE_WAIT_MS <==> Frame(true) !in Kept(queue)
    ensures Frame(true) in Kept(queue) ==> ExitDelay(queue) <= CATCH_UP_MS
  {
    ReceiveDelayIff(Kept(queue));
  }

  /** In numbers: of more than fifteen messages only the newest five count, and more than eighteen cost
      50 ms first. */
  lemma ExitDelayMeans(queue: seq<Queued>)
    ensures
      var from := if |queue| > 15 then |queue| - 5 else 0;
      var handled := exists i :: from <= i < |queue| && queue[i] == Frame(true);
      ExitDelay(queue) == (if |queue| > 18 then 50 else 0) + if handled then 0 else 500
  {
    ReceiveDelayIff(Kept(queue));
    var from := if |queue| > 15 then |queue| - 5 else 0;
    assert Kept(queue) == queue[from..];
    if i :| from <= i < |queue| && queue[i] == Frame(true) {
      assert queue[from..][i - from] == Frame(true);
    }
  }

  /** A `uart_reinit` on an idle line: the processing task finds nothing but the wake-up. */
  ghost predicate IdleLine(e: Reinit) {
    e.locked && forall k: nat :: STOP_SLICE_MS * k < ExitDelay([Empty]) ==> e.running(k)
  }

  lemma IdleReinit(e: Reinit)
    requires IdleLine(e)
    ensures ReinitSleep(e) >= RECEIVE_WAIT_MS + REINIT_DELAY_MS
  {
    ExitDelayIff([Empty]);
    var looks: nat := StopSleep(e.running, 0) / STOP_SLICE_MS;
    assert STOP_SLICE_MS * looks < ExitDelay([Empty]) ==> e.running(looks);
  }

  // ---------------------------------------------------------------- the budget

  /** Out of range: one second. */
  function Timeout(item: Item): nat {
    if item.timeout < 100 || item.timeout > 10000 then 1000 else item.timeout
  }

  function Interval(item: Item): nat { if item.interval <= 0 then 100 else item.interval }

  predicate Sends(item: Item) {
    && item.enabled && item.lineOk && 1 <= item.slave <= 247 && 1 <= item.func <= 6
    && 0 <= item.reg <= 65535 && 1 <= item.num <= 125
  }

  /** A timeout from a tenth of a second to ten and any positive interval are taken as configured; others
      become a second and a tenth of one. */
  lemma WaitMeans(item: Item)
    ensures Timeout(item) == if 100 <= item.timeout <= 10000 then item.timeout else 1000
    ensures Interval(item) == if item.interval >= 1 then item.interval else 100
    ensures Sends(item) ==> Wait(item) == Timeout(item) + Interval(item)
    ensures !Sends(item) ==> Wait(item) == 0
  {
  }

  /** What the task adds up to check the poll interval: the numbers as configured. */
  function Configured(items: seq<Item>): int {
    if items == [] then 0
    else
      var last := items[|items| - 1];
      Configured(items[..|items| - 1]) + if last.enabled then last.timeout + last.interval else 0
  }

  function Wait(item: Item): nat { if Sends(item) then Timeout(item) + Interval(item) else 0 }

  /** What a cycle can really spend on waiting for responses and on the intervals after them. */
  function Waits(items: seq<Item>): nat {
    if items == [] then 0 else Waits(items[..|items| - 1]) + Wait(items[|items| - 1])
  }

  /** Configured time of templates that are enabled but never send. */
  function Unused(items: seq<Item>): int {
    if items == [] then 0
    else
      var last := items[|items| - 1];
      Unused(items[..|items| - 1]) + if last.enabled && !Sends(last) then last.timeout + last.interval else 0
  }

  /** What happens during a cycle: stop requests seen before a template, while waiting, in its interval
      and in the final rest; the answers; how `uart_reinit` goes and how long `tx_tasks` sleeps. */
  datatype Env = Env(
    stop: nat -> bool, waitStop: nat -> nat -> bool, delayStop: nat -> nat -> bool, restStop: nat -> bool,
    answers: nat -> nat -> Option<nat>, reinit: nat -> Reinit, transmit: nat -> nat)

  /** What template i spends on its line and on sending, none of which the task adds up. */
  function Settle(item: Item, i: nat, env: Env): nat {
    if !item.enabled || !item.lineOk then 0
    else ReinitSleep(env.reinit(i)) + SETTLE_MS + if Sends(item) then env.transmit(i) else 0
  }

  /** A template that is off or whose line is refused costs nothing; one that does not send the
      reinitialisation and 50 ms. */
  lemma SettleMeans(item: Item, i: nat, env: Env)
    ensures !item.enabled || !item.lineOk ==> Settle(item, i, env) == 0
    ensures item.enabled && item.lineOk && !Sends(item) ==> Settle(item, i, env) == ReinitSleep(env.reinit(i)) + 50
    ensures Sends(item) ==> Settle(item, i, env) == ReinitSleep(env.reinit(i)) + 50 + env.transmit(i)
  {
    hide ReinitSleep;
  }

  function Settling(items: seq<Item>, env: Env): nat {
    if items == [] then 0
    else Settling(items[..|items| - 1], env) + Settle(items[|items| - 1], |items| - 1, env)
  }

  /** All of a cycle. */
  function Spending(items: seq<Item>, env: Env): nat { Waits(items) + Settling(items, env) }

  function EnabledCount(items: seq<Item>): nat {
    if items == [] then 0 else EnabledCount(items[..|items| - 1]) + if items[|items| - 1].enabled then 1 else 0
  }

  /** The poll interval in force: never less than the configured total and a second. */
  function Adjusted(pollTime: int, items: seq<Item>): int {
    if Configured(items) > 0 && EnabledCount(items) > 0 && pollTime < Configured(items) + BUFFER_MS
    then Configured(items) + BUFFER_MS else pollTime
  }

  method PollTimeBudget(pollTime: int, items: seq<Item>) returns (adjusted: int)
    ensures adjusted == Adjusted(pollTime, items)
  {
    var totalTemplateTime, enabledCount := 0, 0;
    for i := 0 to |items|
      invariant totalTemplateTime == Configured(items[..i]) && enabledCount == EnabledCount(items[..i])
    {
      assert items[..i + 1][..i] == items[..i];
      if items[i].enabled {
        var templateTotalTime := items[i].timeout + items[i].interval;
        totalTemplateTime := totalTemplateTime + templateTotalTime;
        enabledCount := enabledCount + 1;
      }
    }
    assert items[..|items|] == items;
    adjusted := pollTime;
    if totalTemplateTime > 0 && enabledCount > 0 {
      var minPollTime := totalTemplateTime + BUFFER_MS;
      if pollTime < minPollTime {
        adjusted := minPollTime;
      }
    }
  }

  predicate Regular(item: Item) { item.enabled ==> 100 <= item.timeout <= 10000 && item.interval > 0 }

  lemma {:induction false} RegularTotals(items: seq<Item>)
    requires forall i :: 0 <= i < |items| ==> Regular(items[i])
    ensures Waits(items) + Unused(items) == Configured(items) && Unused(items) >= 0
    ensures EnabledCount(items) > 0 ==> Configured(items) > 0
    ensures EnabledCount(items) == 0 ==> Configured(items) == 0
    decreases |items|
  {
    if items != [] {
      RegularTotals(items[..|items| - 1]);
      assert Regular(items[|items| - 1]);
    }
  }

  lemma {:induction false} SomeEnabled(items: seq<Item>)
    requires Configured(items) > 0
    ensures EnabledCount(items) > 0
    decreases |items|
  {
    if !items[|items| - 1].enabled {
      SomeEnabled(items[..|items| - 1]);
    }
  }

  /** A configured interval is kept if it is long enough; otherwise the least one that is comes in force.
      Templates that add up to nothing ask for nothing. */
  lemma AdjustedMeans(pollTime: int, items: seq<Item>)
    ensures
      var adjusted := Adjusted(pollTime, items);
      && adjusted >= pollTime
      && (Configured(items) <= 0 || pollTime >= Configured(items) + 1000 ==> adjusted == pollTime)
      && (Configured(items) > 0 && pollTime < Configured(items) + 1000 ==> adjusted == Configured(items) + 1000)
  {
    if Configured(items) > 0 {
      SomeEnabled(items);
    }
  }

  /** What is added up: timeout and interval of every template that is enabled, and of no other. */
  lemma ConfiguredSnoc(items: seq<Item>, item: Item)
    ensures Configured([]) == 0
    ensures Configured(items + [item]) ==
            if item.enabled then Configured(items) + item.timeout + item.interval else Configured(items)
  {
    assert (items + [item])[..|items|] == items;
  }

  /** For regular templates a cycle's waits leave a second of the poll interval, whatever interval was
      configured. */
  lemma RegularSlack(pollTime: int, items: seq<Item>)
    requires EnabledCount(items) > 0 && forall i :: 0 <= i < |items| ==> Regular(items[i])
    ensures Waits(items) + BUFFER_MS <= Adjusted(pollTime, items)
  {
    RegularTotals(items);
  }

  /** For arbitrary templates the second is there at every configured interval exactly when the numbers
      taken over from the configuration add up to something, and to no less than the numbers used. */
  lemma SlackIffTotals(items: seq<Item>)
    ensures (forall p: int :: Waits(items) + BUFFER_MS <= Adjusted(p, items)) <==>
            Configured(items) > 0 && Waits(items) <= Configured(items)
  {
    if Configured(items) > 0 {
      SomeEnabled(items);
      assert Adjusted(0, items) == Configured(items) + BUFFER_MS || Adjusted(0, items) == 0;
    } else {
      assert Adjusted(0, items) == 0;
    }
  }

  /** An out-of-range timeout is counted as it stands but waited for a full second. */
  lemma ShortTimeoutOverruns(items: seq<Item>)
    requires items == [Item(true, true, 50, 10, 1, 3, 0, 1)]
    ensures Waits(items) == 1010 && Adjusted(0, items) == 1060
  {
    var item := items[0];
    assert items == [] + [item] && items[..0] == [];
    assert Configured(items) == 60 && EnabledCount(items) == 1;
    assert Sends(item);
  }

  ghost predicate AllRegular(items: seq<Item>) { forall i :: 0 <= i < |items| ==> Regular(items[i]) }

  ghost predicate AllUsable(items: seq<Item>) {
    forall i :: 0 <= i < |items| ==> Regular(items[i]) && (items[i].enabled ==> Sends(items[i]))
  }

  /** With everything a cycle sleeps counted, regular templates fit every poll interval exactly if
      reinitialising, settling and sending take no more than the second, plus what was reserved for
      templates that never send. */
  lemma CycleFitsIff(items: seq<Item>, env: Env)
    requires EnabledCount(items) > 0 && AllRegular(items)
    ensures (forall p: int :: Spending(items, env) <= Adjusted(p, items)) <==>
            Settling(items, env) <= BUFFER_MS + Unused(items)
  {
    hide Settling;
    RegularTotals(items);
    assert Adjusted(0, items) == Configured(items) + BUFFER_MS;
  }

  lemma {:induction false} UsableTotals(items: seq<Item>, env: Env, each: nat)
    requires AllUsable(items)
    requires forall i: nat :: ReinitSleep(env.reinit(i)) + SETTLE_MS + env.transmit(i) >= each
    ensures Unused(items) == 0 && AllRegular(items) && Settling(items, env) >= each * EnabledCount(items)
    ensures (forall i: nat :: ReinitSleep(env.reinit(i)) + SETTLE_MS + env.transmit(i) == each) ==>
            Settling(items, env) == each * EnabledCount(items)
    decreases |items|
  {
    if items != [] {
      hide ReinitSleep;
      var front, last := items[..|items| - 1], items[|items| - 1];
      UsableTotals(front, env, each);
      assert Regular(last) && (last.enabled ==> Sends(last));
      assert Settle(last, |front|, env) ==
             if last.enabled then ReinitSleep(env.reinit(|front|)) + SETTLE_MS + env.transmit(|front|) else 0;
      assert each * (EnabledCount(front) + 1) == each * EnabledCount(front) + each;
    }
  }

  /** Sixteen templates are the most that can fit every interval, and they do if every sleep is at its
      least. */
  lemma SixteenAtMost(items: seq<Item>, env: Env)
    requires EnabledCount(items) > 0 && AllUsable(items)
    ensures (forall p: int :: Spending(items, env) <= Adjusted(p, items)) ==> EnabledCount(items) <= 16
    ensures (forall i: nat :: ReinitSleep(env.reinit(i)) == REINIT_DELAY_MS && env.transmit(i) == 0) ==>
            ((forall p: int :: Spending(items, env) <= Adjusted(p, items)) <==> EnabledCount(items) <= 16)
  {
    forall i: nat ensures ReinitSleep(env.reinit(i)) >= REINIT_DELAY_MS {
      ReinitFloor(env.reinit(i));
    }
    UsableTotals(items, env, REINIT_DELAY_MS + SETTLE_MS);
    hide Spending, Adjusted, Settling, ReinitSleep;
    CycleFitsIff(items, env);
  }

  /** On an idle line already two templates take longer than the interval they were given. */
  lemma TwoOverrunIdleLine(items: seq<Item>, env: Env)
    requires EnabledCount(items) >= 2 && AllUsable(items) && forall i: nat :: IdleLine(env.reinit(i))
    ensures Spending(items, env) > Adjusted(0, items)
  {
    forall i: nat ensures ReinitSleep(env.reinit(i)) >= RECEIVE_WAIT_MS + REINIT_DELAY_MS {
      IdleReinit(env.reinit(i));
    }
    UsableTotals(items, env, RECEIVE_WAIT_MS + REINIT_DELAY_MS + SETTLE_MS);
    RegularTotals(items);
    AdjustedMeans(0, items);
    assert 560 * EnabledCount(items) >= 1120;
    hide Settling, ReinitSleep, Adjusted, IdleLine, AllUsable, AllRegular, Waits, Unused, Configured, EnabledCount;
  }

  // ---------------------------------------------------------------- requests

  function ToByte(x: int): byte
    requires 0 <= x < 256
  {
    x as byte
  }

  function ToWord(x: int): bv16
    requires 0 <= x < 65536
  {
    x as bv16
  }

  function Header(item: Item): seq<byte>
    requires Sends(item)
  {
    [ToByte(item.slave), ToByte(item.func),
     Crc16.High(ToWord(item.reg)), Crc16.Low(ToWord(item.reg)),
     Crc16.High(ToWord(item.num)), Crc16.Low(ToWord(item.num))]
  }

  function Request(item: Item): (r: seq<byte>)
    requires Sends(item)
    ensures |r| == 8
  {
    Header(item) + Crc16.CrcBytes(Header(item))
  }

  method BuildRequest(item: Item) returns (request: array<byte>)
    requires Sends(item)
    ensures request[..] == Request(item)
  {
    hide ToByte, ToWord, Crc16.High, Crc16.Low, Crc16.Crc;
    request := new byte[8];
    var regAddr, regNum := ToWord(item.reg), ToWord(item.num);
    request[0] := ToByte(item.slave);
    request[1] := ToByte(item.func);
    request[2] := Crc16.High(regAddr);
    request[3] := Crc16.Low(regAddr);
    request[4] := Crc16.High(regNum);
    request[5] := Crc16.Low(regNum);
    assert request[..6] == Header(item);
    var crc := Crc16.CalculateCrc(request, 6);
    request[6] := Crc16.Low(crc);
    request[7] := Crc16.High(crc);
    assert request[..] == request[..6] + [request[6], request[7]];
  }

  function Word(high: byte, low: byte): bv16 { ((high as bv16) << 8) | (low as bv16) }

  /** A request checks, and tells the station, the function, the register and the count it was built
      from. */
  lemma RequestReads(item: Item)
    requires Sends(item)
    ensures
      var r := Request(item);
      && Crc16.Crc(r) == 0
      && r[0] == ToByte(item.slave) && r[1] == ToByte(item.func)
      && Word(r[2], r[3]) == ToWord(item.reg) && Word(r[4], r[5]) == ToWord(item.num)
  {
    RequestChecks(item);
    WordBack(ToWord(item.reg));
    WordBack(ToWord(item.num));
    hide Word, Crc16.Crc, Crc16.High, Crc16.Low, ToByte, ToWord;
  }

  lemma WordBack(w: bv16)
    ensures Word(Crc16.High(w), Crc16.Low(w)) == w
  {
  }

  lemma RequestChecks(item: Item)
    requires Sends(item)
    ensures Crc16.Crc(Request(item)) == 0 && Request(item)[..6] == Header(item)
  {
    var m := Header(item);
    var c := Crc16.CrcBytes(m);
    hide Header, Crc16.Crc;
    Crc16.FrameCheck(m, c[0], c[1]);
  }

  function Requests(items: seq<Item>): seq<seq<byte>> {
    if items == [] then []
    else
      var last := items[|items| - 1];
      Requests(items[..|items| - 1]) + if Sends(last) then [Request(last)] else []
  }

  // ---------------------------------------------------------------- a cycle

  ghost predicate NoStop(env: Env) {
    && (forall i :: !env.stop(i)) && (forall k :: !env.restStop(k))
    && (forall i, k :: !env.waitStop(i)(k)) && (forall i, k :: !env.delayStop(i)(k))
  }

  ghost predicate Silent(env: Env) { forall i, k :: env.answers(i)(k) == None }

  /** One template: settle the line, send, wait, rest. */
  method PollItem(item: Item, i: nat, env: Env) returns (spent: nat, sent: seq<seq<byte>>)
    ensures sent == Requests([item])
    ensures sent ==
            if && item.enabled && item.lineOk && 1 <= item.slave <= 247 && 1 <= item.func <= 6
               && 0 <= item.reg <= 65535 && 1 <= item.num <= 125 then [Request(item)] else []
    ensures spent <= Wait(item) + Settle(item, i, env)
    ensures NoStop(env) && Silent(env) ==> spent == Wait(item) + Settle(item, i, env)
  {
    hide ReinitSleep;
    assert [item][..0] == [];
    spent, sent := 0, [];
    if !item.enabled {
      return;
    }
    if !item.lineOk {
      return;
    }
    var reinit := UartReinit(env.reinit(i));
    spent := reinit + SETTLE_MS;
    if item.slave < 1 || item.slave > 247 {
      return;
    }
    if item.func < 1 || item.func > 6 {
      return;
    }
    if item.reg < 0 || item.reg > 65535 || item.num < 1 || item.num > 125 {
      return;
    }
    var request := BuildRequest(item);
    sent := [request[..]];
    spent := spent + env.transmit(i);
    var timeout := item.timeout;
    if timeout < 100 || timeout > 10000 {
      timeout := 1000;
    }
    var gotResponse, waited := AwaitResponse(timeout, env.waitStop(i), env.answers(i));
    var slices := ModbusDelayWithWdt(Interval(item), env.delayStop(i));
    spent := spent + waited + Sum(slices);
  }

  lemma Totals(items: seq<Item>, item: Item, env: Env)
    ensures Spending(items + [item], env) == Spending(items, env) + Wait(item) + Settle(item, |items|, env)
    ensures Requests(items + [item]) == Requests(items) + Requests([item])
  {
    hide Settle, Wait;
    assert (items + [item])[..|items|] == items;
    assert [item][..0] == [];
  }

  /** One pass over the templates, `polled` of them; all unless a stop is requested. */
  method PollCycle(items: seq<Item>, env: Env) returns (elapsed: nat, sent: seq<seq<byte>>, polled: nat)
    ensures polled <= |items| && sent == Requests(items[..polled])
    ensures elapsed <= Spending(items[..polled], env) <= Spending(items, env)
    ensures NoStop(env) ==> polled == |items| && items[..polled] == items
    ensures NoStop(env) && Silent(env) ==> elapsed == Spending(items, env)
  {
    elapsed, sent, polled := 0, [], 0;
    ghost var calm := NoStop(env) && Silent(env);
    ghost var done := items[..0];
    NothingYet(items, env);
    hide *;
    while polled < |items| && !env.stop(polled)
      invariant polled <= |items| && |done| == polled && done == items[..polled]
      invariant sent == Requests(done)
      invariant elapsed <= Spending(done, env) && (calm ==> elapsed == Spending(done, env))
    {
      Totals(done, items[polled], env);
      TakeOne(items, polled);
      var spent, requests := PollItem(items[polled], polled, env);
      done := done + [items[polled]];
      elapsed := elapsed + spent;
      sent := sent + requests;
      polled := polled + 1;
    }
    Monotone(items, polled, env);
    if NoStop(env) {
      NotStopped(env, polled);
      TakeAll(items);
    }
  }

  lemma TakeAll(items: seq<Item>)
    ensures items[..|items|] == items
  {
  }

  lemma NotStopped(env: Env, i: nat)
    requires NoStop(env)
    ensures !env.stop(i)
  {
  }

  lemma TakeOne(items: seq<Item>, i: nat)
    requires i < |items|
    ensures items[..i + 1] == items[..i] + [items[i]]
  {
  }

  lemma NothingYet(items: seq<Item>, env: Env)
    ensures Requests(items[..0]) == [] && Spending(items[..0], env) == 0
  {
  }

  lemma {:induction false} Monotone(items: seq<Item>, n: nat, env: Env)
    requires n <= |items|
    ensures Spending(items[..n], env) <= Spending(items, env)
    decreases |items|
  {
    hide Settle, Wait;
    if n < |items| {
      assert items[..|items| - 1][..n] == items[..n];
      Monotone(items[..|items| - 1], n, env);
    } else {
      assert items[..n] == items;
    }
  }

  function Longer(a: int, b: int): int { if a > b then a else b }

  /** A cycle and the rest after it. */
  method PollRound(period: int, items: seq<Item>, env: Env) returns (spent: nat, duration: nat)
    ensures spent <= Spending(items, env)
    ensures NoStop(env) ==> duration == Longer(period, spent)
    ensures NoStop(env) && Silent(env) ==> spent == Spending(items, env)
  {
    hide Spending, Silent;
    var elapsed, sent, polled := PollCycle(items, env);
    spent, duration := elapsed, elapsed;
    var remainingTime := period - elapsed;
    if remainingTime > 0 {
      var slices := ModbusDelayWithWdt(remainingTime, env.restStop);
      duration := duration + Sum(slices);
    }
  }

  /** Every cycle starts when the one before has ended, but not before the interval is over. */
  ghost predicate Scheduled(period: int, starts: seq<int>, spent: seq<nat>) {
    && |starts| == |spent| + 1 && starts[0] == 0
    && forall c :: 0 <= c < |spent| ==> starts[c + 1] == starts[c] + Longer(period, spent[c])
  }

  /** `modbus_poll_task` for a number of cycles; `starts` are the times at which they begin, `spent` what
      the cycles take before the final rest. If all fit, they begin at exactly the interval in force. */
  method ModbusPollTask(pollTime: int, items: seq<Item>, cycles: nat, envs: nat -> Env)
    returns (starts: seq<int>, spent: seq<nat>)
    ensures |starts| == cycles + 1 && |spent| == cycles
    ensures (forall c :: NoStop(envs(c))) ==> Scheduled(Adjusted(pollTime, items), starts, spent)
    ensures forall c :: 0 <= c < cycles ==> spent[c] <= Spending(items, envs(c))
    ensures forall c :: 0 <= c < cycles && NoStop(envs(c)) && Silent(envs(c)) ==> spent[c] == Spending(items, envs(c))
    ensures (forall c :: NoStop(envs(c)) && Spending(items, envs(c)) <= Adjusted(pollTime, items)) ==>
      forall c :: 0 <= c <= cycles ==> starts[c] == c * Adjusted(pollTime, items)
  {
    var period := PollTimeBudget(pollTime, items);
    ghost var calm := forall c :: NoStop(envs(c));
    ghost var fits := calm && forall c :: Spending(items, envs(c)) <= period;
    hide *;
    starts, spent := [0], [];
    ScheduleStarts(period);
    for c := 0 to cycles
      invariant |starts| == c + 1 && |spent| == c
      invariant calm ==> Scheduled(period, starts, spent)
      invariant forall k :: 0 <= k < c ==> spent[k] <= Spending(items, envs(k))
      invariant forall k :: 0 <= k < c && NoStop(envs(k)) && Silent(envs(k)) ==> spent[k] == Spending(items, envs(k))
    {
      var used, duration := PollRound(period, items, envs(c));
      if calm {
        ScheduleNext(period, starts, spent, used);
      }
      starts, spent := starts + [starts[c] + duration], spent + [used];
    }
    if fits {
      forall c | 0 <= c <= cycles ensures starts[c] == c * period {
        ExactPeriod(period, starts, spent, c);
      }
    }
  }

  lemma ScheduleStarts(period: int)
    ensures Scheduled(period, [0], [])
  {
  }

  lemma ScheduleNext(period: int, starts: seq<int>, spent: seq<nat>, used: nat)
    requires Scheduled(period, starts, spent)
    ensures Scheduled(period, starts + [starts[|spent|] + Longer(period, used)], spent + [used])
  {
    hide Longer;
  }

  /** Templates that fit are polled at exactly the interval in force. */
  lemma {:induction false} ExactPeriod(period: int, starts: seq<int>, spent: seq<nat>, c: nat)
    requires Scheduled(period, starts, spent) && c <= |spent|
    requires forall k :: 0 <= k < |spent| ==> spent[k] <= period
    ensures starts[c] == c * period
  {
    if c > 0 {
      ExactPeriod(period, starts, spent, c - 1);
    }
  }
}
