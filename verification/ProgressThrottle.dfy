// MotionProgressThrottle: how often a snapshot of the playing motion is due.
module ProgressThrottle {

  datatype State = State(windowStart: int, wasActive: bool)

  /** One call of poll(): the motion flag and the clock. */
  datatype Sample = Sample(active: bool, now: int)

  /** Due exactly when the motion was active before and a full interval passed since the window
      opened. */
  predicate Due(s: State, interval: int, p: Sample) {
    p.active && s.wasActive && p.now - s.windowStart >= interval
  }

  function Next(s: State, interval: int, p: Sample): State {
    State(if !p.active || !s.wasActive || Due(s, interval, p) then p.now else s.windowStart, p.active)
  }

  function Run(s: State, interval: int, ps: seq<Sample>): State {
    if ps == [] then s else Next(Run(s, interval, ps[..|ps| - 1]), interval, ps[|ps| - 1])
  }

  /** Poll `i` of the run asks for a snapshot. */
  predicate Emits(s: State, interval: int, ps: seq<Sample>, i: nat)
    requires i < |ps|
  {
    Due(Run(s, interval, ps[..i]), interval, ps[i])
  }

  predicate Monotone(ps: seq<Sample>) {
    forall i, j :: 0 <= i <= j < |ps| ==> ps[i].now <= ps[j].now
  }

  class MotionProgressThrottle {
    const interval: int
    var wasActive: bool
    var windowStart: int

    function Abs(): State
      reads this
    {
      State(windowStart, wasActive)
    }

    constructor (interval: int := 500)
      ensures this.interval == interval && Abs() == State(0, false)
    {
      this.interval := interval;
      wasActive, windowStart := false, 0;
    }

    method Poll(motionActive: bool, now: int) returns (due: bool)
      modifies this
      ensures due == Due(old(Abs()), interval, Sample(motionActive, now))
      ensures Abs() == Next(old(Abs()), interval, Sample(motionActive, now))
    {
      if !motionActive {
        windowStart := now;
        wasActive := false;
        return false;
      }
      if !wasActive {
        windowStart := now;
        wasActive := true;
        return false;
      }
      if now - windowStart >= interval {
        windowStart := now;
        return true;
      }
      return false;
    }
  }

  // ----- never too often ---------------------------------------------------------------------

  /** Once a poll has restarted the window, it never opens earlier again. */
  lemma {:induction false} WindowAfter(s: State, interval: int, ps: seq<Sample>, i: nat, n: nat)
    requires Monotone(ps) && i < n <= |ps| && Emits(s, interval, ps, i)
    ensures Run(s, interval, ps[..n]).windowStart >= ps[i].now
    decreases n
  {
    assert ps[..n][..n - 1] == ps[..n - 1];
    if n > i + 1 { WindowAfter(s, interval, ps, i, n - 1); }
  }

  /** On a monotone clock any two snapshots are at least one interval apart, through any mixture of
      active and idle polls. */
  lemma SnapshotsAreApart(s: State, interval: int, ps: seq<Sample>, i: nat, j: nat)
    requires Monotone(ps) && i < j < |ps|
    requires Emits(s, interval, ps, i) && Emits(s, interval, ps, j)
    ensures ps[j].now - ps[i].now >= interval
  {
    WindowAfter(s, interval, ps, i, j);
  }

  /** A snapshot comes at least one interval after the motion became active, and after every idle
      poll. */
  lemma {:induction false} SnapshotAfterIdle(s: State, interval: int, ps: seq<Sample>, i: nat, j: nat)
    requires Monotone(ps) && i < j < |ps| && !ps[i].active && Emits(s, interval, ps, j)
    ensures ps[j].now - ps[i + 1].now >= interval
  {
    WindowAfterIdle(s, interval, ps, i, j);
  }

  lemma {:induction false} WindowAfterIdle(s: State, interval: int, ps: seq<Sample>, i: nat, n: nat)
    requires Monotone(ps) && i < n <= |ps| && !ps[i].active
    ensures var now := Run(s, interval, ps[..n]);
            if n == i + 1 then !now.wasActive else now.windowStart >= ps[i + 1].now
    decreases n
  {
    assert ps[..n][..n - 1] == ps[..n - 1];
    if n > i + 1 { WindowAfterIdle(s, interval, ps, i, n - 1); }
  }

  // ----- never too rarely --------------------------------------------------------------------

  /** A motion starts at the first poll, stays active, and is polled at gaps of at most `gap`. */
  predicate ActiveStretch(s: State, ps: seq<Sample>, gap: int) {
    && ps != [] && !s.wasActive && Monotone(ps)
    && (forall i :: 0 <= i < |ps| ==> ps[i].active)
    && (forall i :: 0 < i < |ps| ==> ps[i].now - ps[i - 1].now <= gap)
  }

  /** The number of snapshots among the first `n` polls. */
  function Count(s: State, interval: int, ps: seq<Sample>, n: nat): nat
    requires n <= |ps|
  {
    if n == 0 then 0 else Count(s, interval, ps, n - 1) + if Emits(s, interval, ps, n - 1) then 1 else 0
  }

  /** Where the window stands after `k` snapshots, `n` polls into the stretch. */
  predicate OnPace(start: int, window: int, last: int, interval: int, gap: int, k: nat) {
    && k * interval <= window - start <= k * (interval + gap)
    && window <= last && (window == last || last - window < interval)
  }

  lemma PaceStep(start: int, window: int, last: int, now: int, interval: int, gap: int, k: nat)
    requires OnPace(start, window, last, interval, gap, k)
    requires interval >= 0 && last <= now <= last + gap
    ensures now - window >= interval ==> OnPace(start, now, now, interval, gap, k + 1)
    ensures now - window < interval ==> OnPace(start, window, now, interval, gap, k)
  {
    assert (k + 1) * interval == k * interval + interval;
    assert (k + 1) * (interval + gap) == k * (interval + gap) + interval + gap;
  }

  lemma {:induction false} StretchOnPace(s: State, interval: int, ps: seq<Sample>, gap: int, n: nat)
    requires ActiveStretch(s, ps, gap) && interval >= 0 && 1 <= n <= |ps|
    ensures Run(s, interval, ps[..n]).wasActive
    ensures OnPace(ps[0].now, Run(s, interval, ps[..n]).windowStart, ps[n - 1].now, interval, gap, Count(s, interval, ps, n))
  {
    assert ps[..n][..n - 1] == ps[..n - 1];
    var before := Run(s, interval, ps[..n - 1]);
    if n == 1 {
      assert before == s;
      assert Count(s, interval, ps, 1) == 0;
    } else {
      StretchOnPace(s, interval, ps, gap, n - 1);
      PaceStep(ps[0].now, before.windowStart, ps[n - 2].now, ps[n - 1].now, interval, gap, Count(s, interval, ps, n - 1));
    }
  }

  /** An active stretch of length T, polled at gaps of at most d, gives k snapshots with
      k * interval <= T < (k + 1) * (interval + d). */
  lemma CadenceBothSides(s: State, interval: int, ps: seq<Sample>, gap: int)
    requires ActiveStretch(s, ps, gap) && interval >= 0 && interval + gap > 0
    ensures var k, length := Count(s, interval, ps, |ps|), ps[|ps| - 1].now - ps[0].now;
            k * interval <= length < (k + 1) * (interval + gap)
  {
    var n := |ps|;
    StretchOnPace(s, interval, ps, gap, n);
    GapNotNegative(s, ps, gap);
    PaceBounds(ps[0].now, Run(s, interval, ps[..n]).windowStart, ps[n - 1].now, interval, gap, Count(s, interval, ps, n));
  }

  lemma PaceBounds(start: int, window: int, last: int, interval: int, gap: int, k: nat)
    requires OnPace(start, window, last, interval, gap, k) && interval >= 0 && interval + gap > 0
    requires start < last ==> gap >= 0
    ensures k * interval <= last - start < (k + 1) * (interval + gap)
  {
    var pace := k * (interval + gap);
    assert (k + 1) * (interval + gap) == pace + interval + gap;
    assert k * interval >= 0;
  }

  lemma GapNotNegative(s: State, ps: seq<Sample>, gap: int)
    requires ActiveStretch(s, ps, gap)
    ensures |ps| > 1 ==> gap >= 0
  {
    if |ps| > 1 { assert ps[0].now <= ps[1].now; }
  }
}
