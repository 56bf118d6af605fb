/**
 What a task's share of the build time is, without any sweep: in every interval between two
 consecutive time stamps, those that cover the interval share its length equally.
 */
module BuildShares {
  import opened BuildEvents

  /** Those tasks that run throughout [lo, hi]. */
  function Cover(tasks: seq<Task>, lo: real, hi: real): (c: set<nat>)
    ensures forall i: nat :: i in c <==> i < |tasks| && tasks[i].start <= lo && hi <= tasks[i].end
  {
    set i: nat | i < |tasks| && tasks[i].start <= lo && hi <= tasks[i].end
  }

  function Length(es: seq<Event>, k: nat): real
    requires k + 1 < |es|
  {
    es[k + 1].time - es[k].time
  }

  function CoverAt(tasks: seq<Task>, es: seq<Event>, k: nat): set<nat>
    requires k + 1 < |es|
  {
    Cover(tasks, es[k].time, es[k + 1].time)
  }

  /** An equal part of `x` among `n`. */
  function Split(x: real, n: nat): (r: real)
    requires n > 0
    ensures x == 0.0 ==> r == 0.0
    ensures x >= 0.0 ==> 0.0 <= r <= x
  {
    SplitIsSmaller(x, n as real);
    x / n as real
  }

  lemma SplitIsSmaller(x: real, n: real)
    requires n >= 1.0
    ensures x >= 0.0 ==> 0.0 <= x / n <= x
  {
    assert x / n * n == x;
  }

  /** What task `i` is charged for the `k`-th interval. */
  function Charge(tasks: seq<Task>, es: seq<Event>, i: nat, k: nat): real
    requires k + 1 < |es|
  {
    var c := CoverAt(tasks, es, k);
    if i in c then Split(Length(es, k), |c|) else 0.0
  }

  /** The share of task `i` in the first `n` intervals. */
  function Share(tasks: seq<Task>, es: seq<Event>, i: nat, n: nat): real
    requires n == 0 || n < |es|
  {
    if n == 0 then 0.0 else Share(tasks, es, i, n - 1) + Charge(tasks, es, i, n - 1)
  }

  /** Time during which at least one task runs, in the first `n` intervals. */
  function Busy(tasks: seq<Task>, es: seq<Event>, n: nat): real
    requires n == 0 || n < |es|
  {
    if n == 0 then 0.0
    else Busy(tasks, es, n - 1) + if CoverAt(tasks, es, n - 1) != {} then Length(es, n - 1) else 0.0
  }

  /** Time during which no task runs, in the first `n` intervals. */
  function Idle(tasks: seq<Task>, es: seq<Event>, n: nat): real
    requires n == 0 || n < |es|
  {
    if n == 0 then 0.0
    else Idle(tasks, es, n - 1) + if CoverAt(tasks, es, n - 1) == {} then Length(es, n - 1) else 0.0
  }

  function Sum(s: seq<real>): real {
    if s == [] then 0.0 else Sum(s[..|s| - 1]) + s[|s| - 1]
  }

  // ----- a share is between 0 and its own duration -----

  function Clamp(t: Task, x: real): real {
    if x < t.start then t.start else if x > t.end then t.end else x
  }

  lemma IntervalDoesNotStraddle(es: seq<Event>, k: nat, x: Event)
    requires Sorted(es) && k + 1 < |es| && x in es
    ensures es[k].time <= es[k + 1].time
    ensures x.time <= es[k].time || es[k + 1].time <= x.time
  {
    assert NotAfter(es[k], es[k + 1]);
    var p :| 0 <= p < |es| && es[p] == x;
    assert p < k ==> NotAfter(es[p], es[k]);
    assert k + 1 < p ==> NotAfter(es[k + 1], es[p]);
  }

  lemma ChargeWithinClamp(tasks: seq<Task>, es: seq<Event>, i: nat, k: nat)
    requires IsSchedule(tasks, es) && i < |tasks| && k + 1 < |es| && tasks[i].start <= tasks[i].end
    ensures 0.0 <= Charge(tasks, es, i, k) <= Clamp(tasks[i], es[k + 1].time) - Clamp(tasks[i], es[k].time)
  {
    assert HasBoth(tasks, es, i);
    IntervalDoesNotStraddle(es, k, StartOf(tasks, i));
    IntervalDoesNotStraddle(es, k, StopOf(tasks, i));
  }

  lemma {:induction false} ShareWithinClamp(tasks: seq<Task>, es: seq<Event>, i: nat, n: nat)
    requires IsSchedule(tasks, es) && i < |tasks| && n < |es| && tasks[i].start <= tasks[i].end
    ensures 0.0 <= Share(tasks, es, i, n) <= Clamp(tasks[i], es[n].time) - Clamp(tasks[i], es[0].time)
  {
    if n == 0 {
    } else {
      ShareWithinClamp(tasks, es, i, n - 1);
      ChargeWithinClamp(tasks, es, i, n - 1);
    }
  }

  lemma ShareWithinDuration(tasks: seq<Task>, es: seq<Event>, i: nat)
    requires IsSchedule(tasks, es) && i < |tasks| && tasks[i].start <= tasks[i].end
    ensures 0.0 <= Share(tasks, es, i, |es| - 1) <= tasks[i].end - tasks[i].start
  {
    hide Share;
    ShareWithinClamp(tasks, es, i, |es| - 1);
    assert HasBoth(tasks, es, i);
    ScheduleSpans(es, StartOf(tasks, i));
    ScheduleSpans(es, StopOf(tasks, i));
  }

  // ----- shares add up to the time in which something runs -----

  function Charges(tasks: seq<Task>, es: seq<Event>, k: nat, m: nat): (s: seq<real>)
    requires k + 1 < |es|
    ensures |s| == m
  {
    seq(m, i requires 0 <= i < m => Charge(tasks, es, i, k))
  }

  function Shares(tasks: seq<Task>, es: seq<Event>, n: nat, m: nat): (s: seq<real>)
    requires n == 0 || n < |es|
    ensures |s| == m
  {
    seq(m, i requires 0 <= i < m => Share(tasks, es, i, n))
  }

  function Times(n: nat, x: real): real { n as real * x }

  lemma OneMore(n: nat, x: real)
    ensures Times(0, x) == 0.0 && Times(n + 1, x) == Times(n, x) + x
  {
  }

  /** A sequence that holds `rate` exactly at the positions in `c`. */
  lemma {:induction false} SumCounts(s: seq<real>, c: set<nat>, rate: real)
    requires forall i: nat :: i < |s| ==> s[i] == if i in c then rate else 0.0
    ensures var hits := set i | i in c && i < |s|; Sum(s) == Times(|hits|, rate)
  {
    hide Times;
    var hits := set i | i in c && i < |s|;
    if s == [] {
      OneMore(0, rate);
      assert hits == {};
    } else {
      var m := |s| - 1;
      SumCounts(s[..m], c, rate);
      var below := set i | i in c && i < m;
      OneMore(|below|, rate);
      assert hits == if m in c then below + {m} else below;
    }
  }

  lemma ChargesAddUp(tasks: seq<Task>, es: seq<Event>, k: nat)
    requires k + 1 < |es|
    ensures Sum(Charges(tasks, es, k, |tasks|)) ==
      if CoverAt(tasks, es, k) != {} then Length(es, k) else 0.0
  {
    var c := CoverAt(tasks, es, k);
    var rate := if c != {} then Split(Length(es, k), |c|) else 0.0;
    SumCounts(Charges(tasks, es, k, |tasks|), c, rate);
    assert (set i | i in c && i < |tasks|) == c;
  }

  lemma {:induction false} SumAdds(a: seq<real>, b: seq<real>, c: seq<real>)
    requires |a| == |b| == |c|
    requires forall i :: 0 <= i < |a| ==> c[i] == a[i] + b[i]
    ensures Sum(c) == Sum(a) + Sum(b)
  {
    if a == [] {
    } else {
      var n := |a| - 1;
      SumAdds(a[..n], b[..n], c[..n]);
    }
  }

  lemma {:induction false} SumOfZeros(a: seq<real>)
    requires forall i :: 0 <= i < |a| ==> a[i] == 0.0
    ensures Sum(a) == 0.0
  {
    if a == [] {
    } else {
      SumOfZeros(a[..|a| - 1]);
    }
  }

  lemma {:induction false} SumUpdate(a: seq<real>, i: nat, x: real)
    requires i < |a|
    ensures Sum(a[i := x]) == Sum(a) - a[i] + x
  {
    var n := |a| - 1;
    if i == n {
      assert a[i := x][..n] == a[..n];
    } else {
      assert a[i := x][..n] == a[..n][i := x];
      SumUpdate(a[..n], i, x);
    }
  }

  lemma {:induction false} SharesAddUp(tasks: seq<Task>, es: seq<Event>, n: nat)
    requires n == 0 || n < |es|
    ensures Sum(Shares(tasks, es, n, |tasks|)) == Busy(tasks, es, n)
  {
    var m := |tasks|;
    if n == 0 {
      SumOfZeros(Shares(tasks, es, 0, m));
    } else {
      SharesAddUp(tasks, es, n - 1);
      ChargesAddUp(tasks, es, n - 1);
      SumAdds(Shares(tasks, es, n - 1, m), Charges(tasks, es, n - 1, m), Shares(tasks, es, n, m));
    }
  }

  lemma {:induction false} BusyAndIdle(tasks: seq<Task>, es: seq<Event>, n: nat)
    requires Sorted(es) && n < |es|
    ensures Busy(tasks, es, n) + Idle(tasks, es, n) == es[n].time - es[0].time
    ensures Idle(tasks, es, n) >= 0.0
    ensures Idle(tasks, es, n) == 0.0 <==>
      forall k :: 0 <= k < n && es[k].time < es[k + 1].time ==> CoverAt(tasks, es, k) != {}
  {
    if n == 0 {
    } else {
      BusyAndIdle(tasks, es, n - 1);
      assert NotAfter(es[n - 1], es[n]);
      var was := forall k :: 0 <= k < n - 1 && es[k].time < es[k + 1].time ==> CoverAt(tasks, es, k) != {};
      var now := forall k :: 0 <= k < n && es[k].time < es[k + 1].time ==> CoverAt(tasks, es, k) != {};
      assert now ==> was;
      if es[n - 1].time < es[n].time && CoverAt(tasks, es, n - 1) == {} {
        assert !now;
      } else {
        assert was ==> now;
      }
    }
  }
}
