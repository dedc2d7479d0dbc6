/**
 The sliding window of app/adapters/tracker/base.py: a queue of recent request times that is meant to
 let at most `max` requests through in any 60 seconds, and the download loop that goes through it.
 Times are exact; `now` and `after` are the two readings of the clock in one call of `wait`.
 */
module RateLimiter {
  import opened Basics

  const WINDOW := 60.0
  const MAX_RETRIES := 3
  const MAX_RETRY_WAIT := 120.0
  const BASE_BACKOFF := 5.0

  datatype Call = Call(now: real, after: real)

  /** `log` is every request ever let through, `queue` the recent ones the limiter retains. */
  datatype State = State(log: seq<real>, queue: seq<real>)

  function Evict(queue: seq<real>, now: real): seq<real> {
    if queue != [] && queue[0] < now - WINDOW then Evict(queue[1..], now) else queue
  }

  /** How long the limiter sleeps; None when it reads the head of an empty queue. */
  function Ask(max: int, kept: seq<real>, now: real): Option<real> {
    if |kept| < max then Some(0.0)
    else if kept == [] then None
    else Some(if kept[0] + WINDOW > now then kept[0] + WINDOW - now else 0.0)
  }

  function Turn(max: int, s: State, c: Call): State {
    var kept := Evict(s.queue, c.now);
    if Ask(max, kept, c.now).None? then s.(queue := kept) else State(s.log + [c.after], kept + [c.after])
  }

  class Limiter {
    const max: int
    var queue: seq<real>
    ghost var log: seq<real>

    constructor (maxPerMin: int)
      ensures max == maxPerMin && Current() == State([], [])
    {
      max, queue, log := maxPerMin, [], [];
    }

    ghost function Current(): State
      reads this
    {
      State(log, queue)
    }

    /** `_RateLimiter.wait`: `slept` is the sleep asked for, None the IndexError of a limit below one. */
    method Wait(now: real, after: real) returns (slept: Option<real>)
      modifies this
      ensures slept == Ask(max, Evict(old(queue), now), now)
      ensures Current() == Turn(max, old(Current()), Call(now, after))
    {
      while queue != [] && queue[0] < now - WINDOW
        invariant log == old(log) && Evict(queue, now) == Evict(old(queue), now)
        decreases |queue|
      {
        queue := queue[1..];
      }
      slept := Some(0.0);
      if |queue| >= max {
        if queue == [] {
          return None;
        }
        var sleepFor := WINDOW - (now - queue[0]);
        if sleepFor > 0.0 {
          slept := Some(sleepFor);
        }
      }
      queue := queue + [after];
      log := log + [after];
    }
  }

  // ---------------------------------------------------------------- the bound

  /** Any `max + 1` consecutive requests span at least a window. */
  predicate Bounded(max: int, log: seq<real>) {
    forall i, j :: 0 <= i < |log| && 0 <= j < |log| && i + max <= j ==> log[j] - log[i] >= WINDOW
  }

  predicate Sorted(log: seq<real>) {
    forall i, j :: 0 <= i < j < |log| ==> log[i] <= log[j]
  }

  /** The queue is the end of the log, and what was evicted is older than a window. */
  predicate Retains(s: State) {
    && Sorted(s.log)
    && |s.queue| <= |s.log| && s.queue == s.log[|s.log| - |s.queue|..]
    && forall i :: 0 <= i < |s.log| - |s.queue| ==> s.log[i] + WINDOW < s.log[|s.log| - 1]
  }

  predicate Inv(max: int, s: State) {
    Retains(s) && Bounded(max, s.log) && |s.queue| <= max + 1
  }

  predicate NotBefore(s: State, now: real) {
    s.log == [] || s.log[|s.log| - 1] <= now
  }

  predicate StrictlyAfter(s: State, now: real) {
    s.log == [] || s.log[|s.log| - 1] < now
  }

  /** The sleep lasted at least as long as asked. */
  predicate Slept(max: int, s: State, c: Call) {
    var ask := Ask(max, Evict(s.queue, c.now), c.now);
    ask.Some? ==> c.after >= c.now + ask.value
  }

  /**
   The simple form, over the whole history: the first moment from `now` on at which one more request keeps
   the bound.
   */
  function Earliest(max: int, log: seq<real>, now: real): real
    requires max > 0
  {
    if |log| < max || log[|log| - max] + WINDOW <= now then now else log[|log| - max] + WINDOW
  }

  lemma {:induction false} EvictIsSuffix(queue: seq<real>, now: real)
    ensures var kept := Evict(queue, now);
      && |kept| <= |queue| && kept == queue[|queue| - |kept|..]
      && (kept != [] ==> kept[0] >= now - WINDOW)
      && forall i :: 0 <= i < |queue| - |kept| ==> queue[i] < now - WINDOW
  {
    if queue != [] && queue[0] < now - WINDOW {
      var rest, kept := queue[1..], Evict(queue, now);
      EvictIsSuffix(rest, now);
      assert kept == rest[|rest| - |kept|..] == queue[|queue| - |kept|..];
      forall i | 0 <= i < |queue| - |kept| ensures queue[i] < now - WINDOW {
        assert i == 0 || queue[i] == rest[i - 1];
      }
    }
  }

  /** After the eviction the queue holds exactly the requests of the last window. */
  lemma KeptIsLastWindow(s: State, now: real)
    requires Retains(s) && NotBefore(s, now)
    ensures var kept := Evict(s.queue, now);
      && |kept| <= |s.log| && kept == s.log[|s.log| - |kept|..]
      && forall i :: 0 <= i < |s.log| ==> (s.log[i] >= now - WINDOW <==> i >= |s.log| - |kept|)
  {
    hide Evict;
    var kept := Evict(s.queue, now);
    EvictIsSuffix(s.queue, now);
    var q := |s.log| - |s.queue|;
    var first := |s.log| - |kept|;
    forall i | 0 <= i < |s.log| ensures s.log[i] >= now - WINDOW <==> i >= first {
      if q <= i < first {
        assert s.log[i] == s.queue[i - q];
      } else if i >= first {
        assert s.log[first] == kept[0];
      }
    }
  }

  lemma BoundedByOneMore(max: int, log: seq<real>, after: real)
    requires max > 0 && Sorted(log) && Bounded(max, log)
    ensures Bounded(max, log + [after]) <==> |log| < max || log[|log| - max] + WINDOW <= after
  {
    var more := log + [after];
    if Bounded(max, more) && |log| >= max {
      assert more[|log|] - more[|log| - max] >= WINDOW;
    }
    if |log| < max || log[|log| - max] + WINDOW <= after {
      forall i, j | 0 <= i < |more| && i + max <= j < |more| ensures more[j] - more[i] >= WINDOW {
        if j == |log| {
          assert log[i] <= log[|log| - max];
        }
      }
    }
  }

  /**
   More than `max` requests in the last window are possible only at one instant: a window, to the tick,
   after the oldest.
   */
  lemma FullQueueIsAWindowOld(max: int, s: State, now: real)
    requires max > 0 && Retains(s) && Bounded(max, s.log) && NotBefore(s, now) && |Evict(s.queue, now)| > max
    ensures s.log != [] && s.log[|s.log| - 1] == now && Evict(s.queue, now)[0] == now - WINDOW
  {
    hide Evict;
    KeptIsLastWindow(s, now);
    var n, k := |s.log|, |Evict(s.queue, now)|;
    assert s.log[n - 1] - s.log[n - k] >= WINDOW;
    assert s.log[n - k] >= now - WINDOW;
  }

  /** With a clock that advances between calls, the queue holds at most `max` requests when it is consulted. */
  lemma {:induction false} RoomAfterEviction(max: int, s: State, now: real)
    requires max > 0 && Inv(max, s) && StrictlyAfter(s, now)
    ensures |Evict(s.queue, now)| <= max
  {
    hide Evict, Retains, Bounded;
    if |Evict(s.queue, now)| > max {
      FullQueueIsAWindowOld(max, s, now);
      assert false;
    }
  }

  /** The queue gives the answer of the whole history: it never sleeps less than needed, nor more. */
  lemma AskIsEarliest(max: int, s: State, now: real)
    requires max > 0 && Inv(max, s) && StrictlyAfter(s, now)
    ensures Ask(max, Evict(s.queue, now), now) == Some(Earliest(max, s.log, now) - now)
  {
    hide Evict;
    KeptIsLastWindow(s, now);
    RoomAfterEviction(max, s, now);
    var kept := Evict(s.queue, now);
    if |kept| == max {
      assert kept[0] == s.log[|s.log| - max];
    } else if |s.log| >= max {
      assert s.log[|s.log| - max] < now - WINDOW;
    }
  }

  lemma TurnKeepsInv(max: int, s: State, c: Call)
    requires max > 0 && Inv(max, s) && StrictlyAfter(s, c.now) && Slept(max, s, c)
    ensures Inv(max, Turn(max, s, c)) && Turn(max, s, c).log == s.log + [c.after] && c.now <= c.after
  {
    hide Evict, Bounded, Retains;
    KeptIsLastWindow(s, c.now);
    RoomAfterEviction(max, s, c.now);
    AskIsEarliest(max, s, c.now);
    RetainsSorted(s);
    BoundedByOneMore(max, s.log, c.after);
    TurnRetains(max, s, c);
  }

  /** A request that goes through keeps the queue the end of the log. */
  lemma TurnRetains(max: int, s: State, c: Call)
    requires max > 0 && Retains(s) && NotBefore(s, c.now) && c.now <= c.after
    ensures Retains(Turn(max, s, c)) && Turn(max, s, c).log == s.log + [c.after]
  {
    hide Evict, Retains;
    KeptIsLastWindow(s, c.now);
    RetainsSorted(s);
    AddRetains(s.log, Evict(s.queue, c.now), c);
  }

  lemma AddRetains(log: seq<real>, kept: seq<real>, c: Call)
    requires Sorted(log) && |kept| <= |log| && kept == log[|log| - |kept|..] && c.now <= c.after
    requires (log == [] || log[|log| - 1] <= c.now) && forall i :: 0 <= i < |log| - |kept| ==> log[i] < c.now - WINDOW
    ensures Retains(State(log + [c.after], kept + [c.after]))
  {
    var more, queue := log + [c.after], kept + [c.after];
    assert queue == more[|more| - |queue|..];
  }

  // ---------------------------------------------------------------- whole runs

  /** Every call starts after the previous one returned, and sleeps at least as long as it asks. */
  predicate Clocked(max: int, s: State, calls: seq<Call>)
    decreases |calls|
  {
    calls == [] ||
    (StrictlyAfter(s, calls[0].now) && Slept(max, s, calls[0]) && Clocked(max, Turn(max, s, calls[0]), calls[1..]))
  }

  function Run(max: int, s: State, calls: seq<Call>): State
    decreases |calls|
  {
    if calls == [] then s else Run(max, Turn(max, s, calls[0]), calls[1..])
  }

  /** In every run from a good state the bound survives and every call is one more request. */
  lemma {:induction false} RunKeepsInv(max: int, s: State, calls: seq<Call>)
    requires max > 0 && Inv(max, s) && Clocked(max, s, calls)
    ensures Inv(max, Run(max, s, calls))
    ensures Run(max, s, calls).log == s.log + seq(|calls|, k requires 0 <= k < |calls| => calls[k].after)
    decreases |calls|
  {
    hide Inv, Turn, Slept, StrictlyAfter;
    if calls != [] {
      TurnKeepsInv(max, s, calls[0]);
      RunKeepsInv(max, Turn(max, s, calls[0]), calls[1..]);
    }
  }

  function InWindow(log: seq<real>, start: real): nat {
    if log == [] then 0
    else InWindow(log[..|log| - 1], start) + if start <= log[|log| - 1] < start + WINDOW then 1 else 0
  }

  lemma {:induction false} InWindowAtMost(log: seq<real>, start: real, before: nat)
    requires before <= |log| && forall i :: 0 <= i < before ==> log[i] < start
    ensures InWindow(log, start) <= |log| - before
  {
    if log != [] {
      InWindowAtMost(log[..|log| - 1], start, if before < |log| then before else before - 1);
    }
  }

  lemma {:induction false} BoundedWindows(max: int, log: seq<real>, start: real)
    requires max > 0 && Sorted(log) && Bounded(max, log)
    ensures InWindow(log, start) <= max
  {
    if log != [] {
      var n := |log|;
      BoundedWindows(max, log[..n - 1], start);
      if n <= max {
        InWindowAtMost(log, start, 0);
      } else if start <= log[n - 1] < start + WINDOW {
        forall i | 0 <= i < n - max ensures log[i] < start {
          assert log[n - 1] - log[i] >= WINDOW;
        }
        InWindowAtMost(log, start, n - max);
      }
    }
  }

  /** The promise: whatever the calls, no 60 seconds hold more than `max` requests, and the queue stays short. */
  lemma AtMostMaxPerWindow(max: int, calls: seq<Call>, start: real)
    requires max > 0 && Clocked(max, State([], []), calls)
    ensures var s := Run(max, State([], []), calls);
      |s.log| == |calls| && InWindow(s.log, start) <= max && |s.queue| <= max + 1
  {
    hide Run, Clocked, InWindow;
    RunKeepsInv(max, State([], []), calls);
    BoundedWindows(max, Run(max, State([], []), calls).log, start);
  }

  lemma {:induction false} InWindowAtLeast(log: seq<real>, start: real, i: nat, j: nat)
    requires Sorted(log) && i <= j < |log| && log[i] >= start && log[j] < start + WINDOW
    ensures InWindow(log, start) >= j - i + 1
    decreases |log|
  {
    var front := log[..|log| - 1];
    if j < |log| - 1 {
      InWindowAtLeast(front, start, i, j);
    } else if i < j {
      assert front[j - 1] <= log[j];
      InWindowAtLeast(front, start, i, j - 1);
    }
  }

  /** The spacing is the bound: every window holds at most `max` requests exactly if any `max + 1` span one. */
  lemma WindowsIff(max: int, log: seq<real>)
    requires max > 0 && Sorted(log)
    ensures (forall start :: InWindow(log, start) <= max) <==> Bounded(max, log)
  {
    hide InWindow;
    if Bounded(max, log) {
      forall start ensures InWindow(log, start) <= max {
        BoundedWindows(max, log, start);
      }
    } else {
      var i, j :| 0 <= i < |log| && 0 <= j < |log| && i + max <= j && log[j] - log[i] < WINDOW;
      InWindowAtLeast(log, log[i], i, j);
    }
  }

  /** Under a clock that never goes back: every call sleeps at least as long as it asks. */
  predicate Paced(max: int, s: State, calls: seq<Call>)
    decreases |calls|
  {
    calls == [] ||
    (NotBefore(s, calls[0].now) && Slept(max, s, calls[0]) && Paced(max, Turn(max, s, calls[0]), calls[1..]))
  }

  /** The queue the call consults is not overfull, or it returns a window after the `max`-th entry from its end. */
  predicate OnTime(max: int, s: State, c: Call)
    requires max > 0
  {
    var kept := Evict(s.queue, c.now);
    |kept| <= max || kept[|kept| - max] + WINDOW <= c.after
  }

  predicate AllOnTime(max: int, s: State, calls: seq<Call>)
    requires max > 0
    decreases |calls|
  {
    calls == [] || (OnTime(max, s, calls[0]) && AllOnTime(max, Turn(max, s, calls[0]), calls[1..]))
  }

  /** One call, exactly. */
  lemma TurnBoundedIff(max: int, s: State, c: Call)
    requires max > 0 && Retains(s) && Bounded(max, s.log) && NotBefore(s, c.now) && Slept(max, s, c)
    ensures Retains(Turn(max, s, c)) && Turn(max, s, c).log == s.log + [c.after]
    ensures Bounded(max, Turn(max, s, c).log) <==> OnTime(max, s, c)
  {
    hide Evict, Bounded, Retains;
    var kept, n := Evict(s.queue, c.now), |s.log|;
    TurnRetains(max, s, c);
    KeptIsLastWindow(s, c.now);
    RetainsSorted(s);
    BoundedByOneMore(max, s.log, c.after);
    if |kept| >= max {
      assert kept[|kept| - max] == s.log[n - max];
    } else if n >= max {
      assert s.log[n - max] < c.now - WINDOW;
    }
  }

  lemma {:induction false} StaysUnbounded(max: int, s: State, calls: seq<Call>)
    requires max > 0 && !Bounded(max, s.log)
    ensures !Bounded(max, Run(max, s, calls).log)
    decreases |calls|
  {
    hide Evict;
    if calls != [] {
      var t := Turn(max, s, calls[0]);
      var i, j :| 0 <= i < |s.log| && 0 <= j < |s.log| && i + max <= j && s.log[j] - s.log[i] < WINDOW;
      assert t.log[j] - t.log[i] < WINDOW;
      StaysUnbounded(max, t, calls[1..]);
    }
  }

  lemma {:induction false} RunBoundedIff(max: int, s: State, calls: seq<Call>)
    requires max > 0 && Retains(s) && Bounded(max, s.log) && Paced(max, s, calls)
    ensures Retains(Run(max, s, calls))
    ensures Bounded(max, Run(max, s, calls).log) <==> AllOnTime(max, s, calls)
    decreases |calls|
  {
    hide Bounded, Retains, OnTime, Turn, Slept, NotBefore;
    if calls != [] {
      var t := Turn(max, s, calls[0]);
      TurnBoundedIff(max, s, calls[0]);
      if OnTime(max, s, calls[0]) {
        RunBoundedIff(max, t, calls[1..]);
      } else {
        StaysUnbounded(max, t, calls[1..]);
        RunRetains(max, t, calls[1..]);
      }
    }
  }

  lemma {:induction false} RunRetains(max: int, s: State, calls: seq<Call>)
    requires max > 0 && Retains(s) && Paced(max, s, calls)
    ensures Retains(Run(max, s, calls))
    decreases |calls|
  {
    hide Retains, Turn, NotBefore;
    if calls != [] {
      SleptIsForward(max, s, calls[0]);
      TurnRetains(max, s, calls[0]);
      RunRetains(max, Turn(max, s, calls[0]), calls[1..]);
    }
  }

  lemma SleptIsForward(max: int, s: State, c: Call)
    requires max > 0 && Slept(max, s, c)
    ensures c.now <= c.after
  {
  }

  /**
   The promise for any clock that never goes back, exactly: no 60 seconds hold more than `max` requests if and only if
   every call found a queue that was not overfull, or returned late enough all the same.
   */
  lemma PromiseIff(max: int, calls: seq<Call>)
    requires max > 0 && Paced(max, State([], []), calls)
    ensures (forall start :: InWindow(Run(max, State([], []), calls).log, start) <= max)
            <==> AllOnTime(max, State([], []), calls)
  {
    hide Run, Paced, InWindow, AllOnTime;
    RunBoundedIff(max, State([], []), calls);
    RetainsSorted(Run(max, State([], []), calls));
    WindowsIff(max, Run(max, State([], []), calls).log);
  }

  /** A limit below one lets nothing through: the first call fails, and so does every other. */
  lemma NoLimitNoRequest(max: int, calls: seq<Call>)
    requires max <= 0
    ensures Run(max, State([], []), calls) == State([], [])
    decreases |calls|
  {
    if calls != [] {
      NoLimitNoRequest(max, calls[1..]);
    }
  }

  // ---------------------------------------------------------------- a clock that stands still

  /** Two calls in the same instant, one window after the first: the limit of one lets both through. */
  lemma StandingClockBreaksTheBound()
    ensures var s0 := Turn(1, State([], []), Call(0.0, 0.0));
      var s1 := Turn(1, s0, Call(0.0, 60.0));
      && NotBefore(s0, 0.0) && Slept(1, s0, Call(0.0, 60.0))
      && NotBefore(s1, 60.0) && Slept(1, s1, Call(60.0, 60.0))
      && Turn(1, s1, Call(60.0, 60.0)).log == [0.0, 60.0, 60.0]
      && !Bounded(1, [0.0, 60.0, 60.0])
  {
    var log := [0.0, 60.0, 60.0];
    assert log[2] - log[1] < WINDOW;
    assert Evict([0.0], 0.0) == [0.0] && Evict([0.0, 60.0], 60.0) == [0.0, 60.0];
  }

  /**
   Exactly when a call keeps the bound under a clock that only never goes back: the queue it consults holds
   at most `max` requests, or the `max`-th from its end is already a window old.
   */
  lemma SafeIff(max: int, s: State, now: real)
    requires max > 0 && Retains(s) && Bounded(max, s.log) && NotBefore(s, now)
    ensures var kept := Evict(s.queue, now);
      (forall after :: Slept(max, s, Call(now, after)) ==> Bounded(max, s.log + [after]))
      <==> |kept| <= max || kept[|kept| - max] <= now - WINDOW
  {
    hide Evict, Bounded, Slept, Retains;
    var kept, n := Evict(s.queue, now), |s.log|;
    KeptIsLastWindow(s, now);
    RetainsSorted(s);
    forall after ensures Bounded(max, s.log + [after]) <==> n < max || s.log[n - max] + WINDOW <= after {
      BoundedByOneMore(max, s.log, after);
    }
    forall after
      ensures Slept(max, s, Call(now, after)) <==> Ask(max, kept, now).Some? && after >= now + Ask(max, kept, now).value
    {
      SleptMeans(max, s, Call(now, after));
    }
    if |kept| > max {
      FullQueueIsAWindowOld(max, s, now);
      assert Ask(max, kept, now) == Some(0.0);
      assert kept[|kept| - max] == s.log[n - max];
      if kept[|kept| - max] > now - WINDOW {
        assert Slept(max, s, Call(now, now)) && !Bounded(max, s.log + [now]);
      }
    } else if |kept| == max {
      assert kept[0] == s.log[n - max];
    } else if n >= max {
      assert s.log[n - max] < now - WINDOW;
    }
  }

  lemma RetainsSorted(s: State)
    requires Retains(s)
    ensures Sorted(s.log)
  {
  }

  lemma SleptMeans(max: int, s: State, c: Call)
    ensures Slept(max, s, c) <==>
            Ask(max, Evict(s.queue, c.now), c.now).Some? ==>
                c.after >= c.now + Ask(max, Evict(s.queue, c.now), c.now).value
  {
  }

  // ---------------------------------------------------------------- the download loop

  /**
   What comes back for one attempt: no connection, a 429 with the wait it names, a redirect to the login, an
   error status, or content.
   */
  datatype Reply = Broken | TooMany(retryAfter: Option<real>) | LoginRedirect | ErrorStatus | Answered

  datatype Fetched = Answer | UploadFailed | RateLimited | LimiterFailed

  function Backoff(attempt: nat): real {
    if attempt == 0 then BASE_BACKOFF else 2.0 * Backoff(attempt - 1)
  }

  /** `_retry_wait_seconds`, with the header already read as seconds from now when it can be. */
  function RetryWait(retryAfter: Option<real>, attempt: nat): (wait: real)
    ensures 1.0 <= wait <= MAX_RETRY_WAIT
    ensures retryAfter.Some? && 1.0 <= retryAfter.value <= MAX_RETRY_WAIT ==> wait == retryAfter.value
  {
    var wait := if retryAfter.Some? then retryAfter.value else Backoff(attempt);
    var atLeast := if wait > 1.0 then wait else 1.0;
    if atLeast < MAX_RETRY_WAIT then atLeast else MAX_RETRY_WAIT
  }

  /** `_get`: every attempt, retries included, passes through the limiter. */
  method Get(limiter: Limiter, clock: seq<Call>, replies: seq<Reply>)
    returns (outcome: Fetched, attempts: nat, waits: seq<real>)
    requires |clock| == |replies| == MAX_RETRIES + 1
    modifies limiter
    ensures attempts <= MAX_RETRIES + 1 && (attempts == 0 ==> outcome == LimiterFailed)
    ensures outcome == LimiterFailed ==>
              limiter.Current() == Run(limiter.max, old(limiter.Current()), clock[..Min(attempts + 1, MAX_RETRIES + 1)])
    ensures outcome != LimiterFailed ==>
              limiter.Current() == Run(limiter.max, old(limiter.Current()), clock[..attempts])
    ensures outcome == LimiterFailed ==> attempts <= MAX_RETRIES
    ensures forall k :: 0 <= k < attempts - 1 ==> replies[k].TooMany?
    ensures outcome == Answer ==> attempts > 0 && replies[attempts - 1].Answered?
    ensures outcome == UploadFailed ==> attempts > 0 && replies[attempts - 1] in {Broken, LoginRedirect, ErrorStatus}
    ensures outcome == RateLimited <==> attempts == MAX_RETRIES + 1 && replies[MAX_RETRIES].TooMany?
    ensures |waits| == if outcome == LimiterFailed then attempts else attempts - 1
    ensures forall k :: 0 <= k < |waits| ==> replies[k].TooMany? && waits[k] == RetryWait(replies[k].retryAfter, k)
  {
    waits := [];
    attempts := 0;
    for attempt := 0 to MAX_RETRIES + 1
      invariant attempts == attempt == |waits|
      invariant limiter.Current() == Run(limiter.max, old(limiter.Current()), clock[..attempt])
      invariant forall k :: 0 <= k < attempt ==> replies[k].TooMany? && waits[k] == RetryWait(replies[k].retryAfter, k)
      invariant attempt <= MAX_RETRIES
    {
      RunOneMore(limiter.max, old(limiter.Current()), clock, attempt);
      var slept := limiter.Wait(clock[attempt].now, clock[attempt].after);
      if slept.None? {
        return LimiterFailed, attempts, waits;
      }
      attempts := attempts + 1;
      match replies[attempt]
      case Broken =>
        return UploadFailed, attempts, waits;
      case LoginRedirect =>
        return UploadFailed, attempts, waits;
      case ErrorStatus =>
        return UploadFailed, attempts, waits;
      case Answered =>
        return Answer, attempts, waits;
      case TooMany(retryAfter) =>
        if attempt == MAX_RETRIES {
          return RateLimited, attempts, waits;
        }
        waits := waits + [RetryWait(retryAfter, attempt)];
    }
    assert false;
  }

  lemma {:induction false} RunOneMore(max: int, s: State, calls: seq<Call>, k: nat)
    requires k < |calls|
    ensures Run(max, s, calls[..k + 1]) == Turn(max, Run(max, s, calls[..k]), calls[k])
    decreases |calls|
  {
    hide Turn;
    if k > 0 {
      assert calls[..k + 1][1..] == calls[1..][..k] && calls[..k][1..] == calls[1..][..k - 1];
      RunOneMore(max, Turn(max, s, calls[0]), calls[1..], k - 1);
    } else {
      assert calls[..1][1..] == [];
    }
  }
}
