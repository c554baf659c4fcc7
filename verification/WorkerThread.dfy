/** `katla::WorkerThread`: its flags, and the timing of its loop on a nanosecond clock. */
module WorkerThread {

  /** Nanoseconds in a millisecond. */
  const MS: int := 1_000_000

  /** After a wait: whether the worker goes on, and the wakeup flag. */
  function GoesOn(stop: bool, wakeUp: bool): (bool, bool) { if stop then (false, wakeUp) else (true, false) }

  class Worker {
    /** `m_thread` is set. */
    var started: bool
    var stop: bool
    var wakeUp: bool
    /** In milliseconds. */
    var interval: int

    constructor ()
      ensures !started && !stop && !wakeUp && interval == 1000
    {
      started, stop, wakeUp, interval := false, false, false, 1000;
    }

    /** A second call is refused, but it has already replaced the interval. */
    method Init(interval: int) returns (ok: bool)
      modifies this
      ensures ok <==> !old(started)
      ensures started && this.interval == interval
      ensures ok ==> !stop && !wakeUp
      ensures !ok ==> stop == old(stop) && wakeUp == old(wakeUp)
    {
      this.interval := interval;
      if started {
        return false;
      }
      stop, wakeUp, started := false, false, true;
      ok := true;
    }

    method Wakeup()
      modifies this`wakeUp
      ensures wakeUp
    {
      wakeUp := true;
    }

    method Stop()
      modifies this`stop
      ensures stop
    {
      stop := true;
    }

    method Join()
      modifies this`started
      ensures !started
    {
      if started {
        started := false;
      }
    }

    /** The locked part of one turn of the loop, once the wait is over; `go` says that the work is run. */
    method AfterWait() returns (go: bool)
      modifies this`wakeUp
      ensures go <==> !stop
      ensures wakeUp == (old(wakeUp) && stop)
      ensures (go, wakeUp) == GoesOn(stop, old(wakeUp))
    {
      if stop {
        return false;
      }
      wakeUp := false;
      go := true;
    }
  }

  function Max(a: int, b: int): int { if a < b then b else a }

  /** The next wait in milliseconds after a pass of `elapsed` nanoseconds. */
  function WaitAfter(interval: int, elapsed: nat): int {
    if elapsed / MS < interval then interval - elapsed / MS else 0
  }

  /** The wait time asked for before pass i. */
  function WaitTime(interval: int, durations: seq<nat>, i: nat): int
    requires i <= |durations|
  {
    if i == 0 then interval else WaitAfter(interval, durations[i - 1])
  }

  /** `slept[i]` nanoseconds pass in the wait before pass i: all of it, or less when woken. */
  ghost predicate PossibleSleeps(interval: int, durations: seq<nat>, slept: seq<nat>) {
    && |slept| == |durations|
    && forall i :: 0 <= i < |slept| ==> slept[i] <= Max(0, WaitTime(interval, durations, i)) * MS
  }

  ghost predicate NeverWoken(interval: int, durations: seq<nat>, slept: seq<nat>) {
    && |slept| == |durations|
    && forall i :: 0 <= i < |slept| ==> slept[i] == Max(0, WaitTime(interval, durations, i)) * MS
  }

  /** The start of pass i. */
  function Start(durations: seq<nat>, slept: seq<nat>, i: nat): nat
    requires |slept| == |durations| && i < |slept|
  {
    if i == 0 then slept[0] else Start(durations, slept, i - 1) + durations[i - 1] + slept[i]
  }

  /** The loop of `exec`, for passes of the given durations and then a stop. */
  method Exec(interval: int, durations: seq<nat>, slept: seq<nat>) returns (waits: seq<int>, starts: seq<nat>)
    requires |slept| == |durations|
    ensures |waits| == |starts| == |durations|
    ensures forall i :: 0 <= i < |waits| ==> waits[i] == WaitTime(interval, durations, i)
    ensures forall i :: 0 <= i < |starts| ==> starts[i] == Start(durations, slept, i)
  {
    waits, starts := [], [];
    var waitTime := interval;
    var clock := 0;
    var pass := 0;
    while pass < |durations|
      invariant pass <= |durations|
      invariant waitTime == WaitTime(interval, durations, pass)
      invariant |waits| == |starts| == pass
      invariant forall i :: 0 <= i < pass ==> waits[i] == WaitTime(interval, durations, i)
      invariant forall i :: 0 <= i < pass ==> starts[i] == Start(durations, slept, i)
      invariant pass > 0 ==> clock == starts[pass - 1] + durations[pass - 1]
      invariant pass == 0 ==> clock == 0
    {
      waits := waits + [waitTime];
      clock := clock + slept[pass];
      starts := starts + [clock];
      clock := clock + durations[pass];
      waitTime := WaitAfter(interval, durations[pass]);
      pass := pass + 1;
    }
  }

  /** Every wait asked for is within [0, interval]; only the first one repeats a negative interval. */
  lemma WaitsAreWithinTheInterval(interval: int, durations: seq<nat>, i: nat)
    requires i <= |durations|
    ensures WaitTime(interval, durations, i) <= Max(0, interval)
    ensures WaitTime(interval, durations, i) < 0 <==> i == 0 && interval < 0
    ensures i == 0 ==> WaitTime(interval, durations, i) == interval
    ensures i > 0 ==> WaitTime(interval, durations, i) == Max(0, interval - durations[i - 1] / MS)
  {
    if i > 0 {
      assert durations[i - 1] / MS >= 0;
    }
  }

  /** Never woken, the first pass starts after one interval. */
  lemma FirstPassAfterTheInterval(interval: int, durations: seq<nat>, slept: seq<nat>)
    requires NeverWoken(interval, durations, slept) && durations != []
    ensures Start(durations, slept, 0) == if interval < 0 then 0 else interval * MS
  {
    assert slept[0] == Max(0, WaitTime(interval, durations, 0)) * MS;
  }

  /** The interval plus the sub-millisecond part of the work, or the work itself when that took longer. */
  function IdealGap(interval: int, elapsed: nat): int {
    if elapsed < interval * MS then interval * MS + elapsed % MS else elapsed
  }

  /** Never woken, one start follows the other after the interval or the work, whichever is longer, and
      less than a millisecond. */
  lemma GapWhenNeverWoken(interval: int, durations: seq<nat>, slept: seq<nat>, i: nat)
    requires NeverWoken(interval, durations, slept) && i + 1 < |durations|
    ensures var gap := Start(durations, slept, i + 1) - Start(durations, slept, i);
            && gap == IdealGap(interval, durations[i])
            && Max(interval * MS, durations[i]) <= gap < Max(interval * MS, durations[i]) + MS
  {
    var e := durations[i];
    assert e == e / MS * MS + e % MS;
    assert slept[i + 1] == WaitAfter(interval, e) * MS;
    if e / MS < interval {
      assert (interval - e / MS) * MS == interval * MS - e / MS * MS;
    }
  }

  /** Wakeups only shorten a gap, and never cut the work short. */
  lemma GapWhenWoken(interval: int, durations: seq<nat>, slept: seq<nat>, i: nat)
    requires PossibleSleeps(interval, durations, slept) && i + 1 < |durations|
    ensures var gap := Start(durations, slept, i + 1) - Start(durations, slept, i);
            durations[i] <= gap <= IdealGap(interval, durations[i])
  {
    var e := durations[i];
    assert e == e / MS * MS + e % MS;
    assert slept[i + 1] <= WaitAfter(interval, e) * MS;
    if e / MS < interval {
      assert (interval - e / MS) * MS == interval * MS - e / MS * MS;
    }
  }

  /** The ideal time of n gaps: each as long as the interval, or as its work if that is longer. */
  function IdealTime(interval: int, durations: seq<nat>, n: nat): int
    requires n <= |durations|
  {
    if n == 0 then 0 else IdealTime(interval, durations, n - 1) + Max(interval * MS, durations[n - 1])
  }

  /** n passes drift by less than n milliseconds. */
  lemma {:induction false} Drift(interval: int, durations: seq<nat>, slept: seq<nat>, n: nat)
    requires NeverWoken(interval, durations, slept) && 0 < n < |durations|
    ensures var drift := Start(durations, slept, n) - Start(durations, slept, 0) - IdealTime(interval, durations, n);
            0 <= drift < n * MS
  {
    GapWhenNeverWoken(interval, durations, slept, n - 1);
    if n > 1 {
      Drift(interval, durations, slept, n - 1);
    } else {
      assert IdealTime(interval, durations, 0) == 0;
    }
  }
}
