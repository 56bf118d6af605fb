/**
 The report's sweep over sorted start and stop events.  It keeps one running total and charges
 each task the growth of that total while it ran; the result is the exact share.
 */
module BuildReport {
  import opened BuildEvents
  import opened BuildShares

  /** The first `k` events. */
  ghost function Seen(es: seq<Event>, k: nat): set<Event>
    requires k <= |es|
  {
    set x | x in es[..k]
  }

  lemma SeenGrows(es: seq<Event>, k: nat)
    requires NoRepeats(es) && k < |es|
    ensures es[k] !in Seen(es, k) && Seen(es, k + 1) == Seen(es, k) + {es[k]}
  {
    assert es[..k + 1] == es[..k] + [es[k]];
  }

  /** A task is in the dictionary iff its start has been visited and its stop has not. */
  ghost predicate RunningInv(tasks: seq<Task>, seen: set<Event>, running: map<nat, real>, weighted: seq<real>) {
    && |weighted| == |tasks|
    && (forall i :: i in running ==> i < |tasks|)
    && (forall i: nat :: i < |tasks| ==>
          (i in running <==> StartOf(tasks, i) in seen && StopOf(tasks, i) !in seen))
    && (forall i: nat :: i < |tasks| && StopOf(tasks, i) in seen ==>
          StartOf(tasks, i) in seen && tasks[i].start <= tasks[i].end)
    && (forall i: nat :: i < |tasks| && StopOf(tasks, i) !in seen ==> weighted[i] == 0.0)
  }

  /** What task `i` has been charged up to event `n`: pending while it runs, recorded once it stopped. */
  ghost predicate Charged(tasks: seq<Task>, es: seq<Event>, n: nat,
                          running: map<nat, real>, total: real, weighted: seq<real>, i: nat)
    requires n < |es| && i < |weighted|
  {
    Share(tasks, es, i, n) == if i in running then total - running[i] else weighted[i]
  }

  ghost predicate AllCharged(tasks: seq<Task>, es: seq<Event>, n: nat,
                             running: map<nat, real>, total: real, weighted: seq<real>)
    requires n < |es|
  {
    forall i: nat :: i < |weighted| ==> Charged(tasks, es, n, running, total, weighted, i)
  }

  lemma ScheduleHas(tasks: seq<Task>, es: seq<Event>, i: nat)
    requires IsSchedule(tasks, es) && i < |tasks|
    ensures Sorted(es) && NoRepeats(es) && StartOf(tasks, i) in es && StopOf(tasks, i) in es
  {
    assert HasBoth(tasks, es, i);
  }

  lemma ScheduleSize(tasks: seq<Task>, es: seq<Event>)
    requires IsSchedule(tasks, es)
    ensures |es| == 2 * |tasks|
  {
  }

  lemma ScheduleEvent(tasks: seq<Task>, es: seq<Event>, k: nat)
    requires IsSchedule(tasks, es) && k < |es|
    ensures Sorted(es) && NoRepeats(es) && es[k].task < |tasks|
    ensures es[k] == if es[k].action.Start? then StartOf(tasks, es[k].task) else StopOf(tasks, es[k].task)
  {
    assert IsEventOf(tasks, es[k]);
  }

  /** Between two different time stamps the running tasks are those that cover the interval. */
  lemma RunningCovers(tasks: seq<Task>, es: seq<Event>, k: nat, i: nat)
    requires IsSchedule(tasks, es) && 1 <= k < |es| && es[k - 1].time < es[k].time && i < |tasks|
    ensures StartOf(tasks, i) in Seen(es, k) && StopOf(tasks, i) !in Seen(es, k) <==> i in CoverAt(tasks, es, k - 1)
  {
    ScheduleHas(tasks, es, i);
    hide IsSchedule, Sorted, NoRepeats;
    VisitedIffNotLater(es, k, StartOf(tasks, i));
    VisitedIffNotLater(es, k, StopOf(tasks, i));
    IntervalDoesNotStraddle(es, k - 1, StopOf(tasks, i));
  }

  /** The running total once the clock has moved to event `k`. */
  function Advance(es: seq<Event>, k: nat, running: map<nat, real>, total: real): real
    requires 1 <= k < |es|
  {
    if |running| > 0 then total + Split(Length(es, k - 1), |running|) else total
  }

  /** Moving the clock to the next event charges every running task the same amount and no other task. */
  lemma ChargesRunning(tasks: seq<Task>, es: seq<Event>, k: nat,
                       running: map<nat, real>, weighted: seq<real>, i: nat)
    requires IsSchedule(tasks, es) && 1 <= k < |es| && i < |tasks|
    requires RunningInv(tasks, Seen(es, k), running, weighted)
    ensures Charge(tasks, es, i, k - 1) == Advance(es, k, running, 0.0) * if i in running then 1.0 else 0.0
  {
    ScheduleEvent(tasks, es, k);
    assert NotAfter(es[k - 1], es[k]);
    hide IsSchedule, Sorted, NoRepeats, Seen, Split;
    if es[k - 1].time < es[k].time {
      forall j: nat | j < |tasks|
        ensures j in running <==> j in CoverAt(tasks, es, k - 1)
      {
        RunningCovers(tasks, es, k, j);
      }
      assert running.Keys == CoverAt(tasks, es, k - 1);
      assert |running| == |running.Keys|;
    } else {
      assert Length(es, k - 1) == 0.0;
    }
  }

  lemma AdvanceCharges(tasks: seq<Task>, es: seq<Event>, k: nat,
                       running: map<nat, real>, total: real, weighted: seq<real>)
    requires IsSchedule(tasks, es) && 1 <= k < |es|
    requires RunningInv(tasks, Seen(es, k), running, weighted)
    requires AllCharged(tasks, es, k - 1, running, total, weighted)
    ensures AllCharged(tasks, es, k, running, Advance(es, k, running, total), weighted)
  {
    hide IsSchedule, Seen, Split, Charge;
    var now := Advance(es, k, running, total);
    forall i: nat | i < |tasks|
      ensures Charged(tasks, es, k, running, now, weighted, i)
    {
      assert Charged(tasks, es, k - 1, running, total, weighted, i);
      ChargesRunning(tasks, es, k, running, weighted, i);
    }
  }

  lemma RunningStarts(tasks: seq<Task>, seen: set<Event>, running: map<nat, real>, weighted: seq<real>,
                      j: nat, now: real)
    requires RunningInv(tasks, seen, running, weighted) && j < |tasks| && StartOf(tasks, j) !in seen
    ensures RunningInv(tasks, seen + {StartOf(tasks, j)}, running[j := now], weighted)
    ensures j !in running && weighted[j] == 0.0
  {
  }

  lemma RunningStops(tasks: seq<Task>, seen: set<Event>, running: map<nat, real>, weighted: seq<real>,
                     j: nat, charged: real)
    requires RunningInv(tasks, seen, running, weighted) && j in running
    requires tasks[j].start <= tasks[j].end
    ensures RunningInv(tasks, seen + {StopOf(tasks, j)}, running - {j}, weighted[j := charged])
  {
  }

  lemma StartKeepsRunning(tasks: seq<Task>, es: seq<Event>, k: nat,
                          running: map<nat, real>, now: real, weighted: seq<real>)
    requires IsSchedule(tasks, es) && k < |es| && es[k].action.Start?
    requires RunningInv(tasks, Seen(es, k), running, weighted)
    requires AllCharged(tasks, es, k, running, now, weighted)
    ensures RunningInv(tasks, Seen(es, k + 1), running[es[k].task := now], weighted)
    ensures AllCharged(tasks, es, k, running[es[k].task := now], now, weighted)
  {
    ScheduleEvent(tasks, es, k);
    SeenGrows(es, k);
    hide IsSchedule, Sorted, NoRepeats, Seen, Share, RunningInv;
    var j := es[k].task;
    RunningStarts(tasks, Seen(es, k), running, weighted, j, now);
    var running' := running[j := now];
    forall i: nat | i < |weighted|
      ensures Charged(tasks, es, k, running', now, weighted, i)
    {
      assert Charged(tasks, es, k, running, now, weighted, i);
    }
  }

  /** A task can only be found in the dictionary at its stop if its start was not later. */
  lemma StopAfterStart(tasks: seq<Task>, es: seq<Event>, k: nat)
    requires IsSchedule(tasks, es) && k < |es| && es[k].action.Stop?
    requires es[k].task < |tasks| && StartOf(tasks, es[k].task) in Seen(es, k)
    ensures tasks[es[k].task].start <= tasks[es[k].task].end
  {
    ScheduleEvent(tasks, es, k);
    hide IsSchedule, NoRepeats;
    var p :| 0 <= p < k && es[p] == StartOf(tasks, es[k].task);
    assert NotAfter(es[p], es[k]);
  }

  lemma RecordCharge(tasks: seq<Task>, es: seq<Event>, n: nat,
                     running: map<nat, real>, now: real, weighted: seq<real>, j: nat)
    requires n < |es| && j in running && j < |weighted|
    requires AllCharged(tasks, es, n, running, now, weighted)
    ensures AllCharged(tasks, es, n, running - {j}, now, weighted[j := now - running[j]])
  {
    hide Share;
    var running', weighted' := running - {j}, weighted[j := now - running[j]];
    forall i: nat | i < |weighted'|
      ensures Charged(tasks, es, n, running', now, weighted', i)
    {
      assert Charged(tasks, es, n, running, now, weighted, i);
    }
  }

  lemma StopKeepsRunning(tasks: seq<Task>, es: seq<Event>, k: nat,
                         running: map<nat, real>, now: real, weighted: seq<real>)
    requires IsSchedule(tasks, es) && k < |es| && es[k].action.Stop? && es[k].task in running
    requires RunningInv(tasks, Seen(es, k), running, weighted)
    requires AllCharged(tasks, es, k, running, now, weighted)
    ensures weighted[es[k].task] == 0.0
    ensures var j := es[k].task;
      && RunningInv(tasks, Seen(es, k + 1), running - {j}, weighted[j := now - running[j]])
      && AllCharged(tasks, es, k, running - {j}, now, weighted[j := now - running[j]])
  {
    hide AllCharged, Seen;
    ScheduleEvent(tasks, es, k);
    hide IsSchedule, Sorted;
    StopAfterStart(tasks, es, k);
    SeenGrows(es, k);
    RecordCharge(tasks, es, k, running, now, weighted, es[k].task);
    RunningStops(tasks, Seen(es, k), running, weighted, es[k].task, now - running[es[k].task]);
  }

  // ----- the whole report -----

  datatype Report = Report(weighted: seq<real>, weightedTotal: real, length: real, cpuTime: real)

  /** `Crash` is the IndexError of an empty log or the KeyError of a step that stops before it starts. */
  datatype Result = Crash | Done(report: Report)

  ghost predicate WellTimed(tasks: seq<Task>) {
    forall i :: 0 <= i < |tasks| ==> tasks[i].start <= tasks[i].end
  }

  ghost predicate NonNegative(tasks: seq<Task>) {
    forall i :: 0 <= i < |tasks| ==> 0.0 <= tasks[i].start && 0.0 <= tasks[i].end
  }

  function Durations(tasks: seq<Task>): seq<real> {
    seq(|tasks|, i requires 0 <= i < |tasks| => tasks[i].end - tasks[i].start)
  }

  /** The first pass over the entries: earliest start, latest end, total CPU time. */
  method Extent(tasks: seq<Task>) returns (earliest: real, latest: real, cpuTime: real)
    ensures cpuTime == Sum(Durations(tasks))
    ensures NonNegative(tasks) && tasks != [] ==>
      && (exists i :: 0 <= i < |tasks| && tasks[i].start == earliest)
      && (forall i :: 0 <= i < |tasks| ==> earliest <= tasks[i].start && tasks[i].end <= latest)
      && (latest == 0.0 || exists i :: 0 <= i < |tasks| && tasks[i].end == latest)
  {
    earliest, latest, cpuTime := -1.0, 0.0, 0.0;
    for k := 0 to |tasks|
      invariant cpuTime == Sum(Durations(tasks[..k]))
      invariant NonNegative(tasks) && k == 0 ==> earliest < 0.0
      invariant NonNegative(tasks) && k > 0 ==> 0.0 <= earliest && exists i :: 0 <= i < k && tasks[i].start == earliest
      invariant NonNegative(tasks) ==> forall i :: 0 <= i < k ==> earliest <= tasks[i].start
      invariant forall i :: 0 <= i < k ==> tasks[i].end <= latest
      invariant latest == 0.0 || exists i :: 0 <= i < k && tasks[i].end == latest
    {
      if earliest < 0.0 || tasks[k].start < earliest {
        earliest := tasks[k].start;
      }
      if tasks[k].end > latest {
        latest := tasks[k].end;
      }
      cpuTime := cpuTime + (tasks[k].end - tasks[k].start);
      assert Durations(tasks[..k + 1])[..k] == Durations(tasks[..k]);
    }
    assert tasks[..|tasks|] == tasks;
  }

  lemma SweepStarts(tasks: seq<Task>, es: seq<Event>, weighted: seq<real>)
    requires IsSchedule(tasks, es) && es != [] && |weighted| == |tasks|
    requires forall i :: 0 <= i < |weighted| ==> weighted[i] == 0.0
    ensures RunningInv(tasks, Seen(es, 0), map[], weighted)
    ensures AllCharged(tasks, es, 0, map[], 0.0, weighted)
    ensures Sum(weighted) == 0.0
  {
    assert Seen(es, 0) == {};
    SumOfZeros(weighted);
  }

  lemma NotRunningAtStop(tasks: seq<Task>, es: seq<Event>, k: nat, running: map<nat, real>, weighted: seq<real>)
    requires IsSchedule(tasks, es) && k < |es| && es[k].action.Stop? && es[k].task !in running
    requires RunningInv(tasks, Seen(es, k), running, weighted)
    ensures !WellTimed(tasks)
  {
    var j := es[k].task;
    ScheduleEvent(tasks, es, k);
    ScheduleHas(tasks, es, j);
    SeenGrows(es, k);
    hide IsSchedule, NoRepeats;
    var q :| 0 <= q < |es| && es[q] == StartOf(tasks, j);
    assert forall p :: 0 <= p < k ==> es[p] in Seen(es, k);
    assert NotAfter(es[k], es[q]);
    assert tasks[j].end < tasks[j].start;
  }

  lemma SweepEnds(tasks: seq<Task>, es: seq<Event>, running: map<nat, real>, total: real, weighted: seq<real>)
    requires IsSchedule(tasks, es) && es != []
    requires RunningInv(tasks, Seen(es, |es|), running, weighted)
    requires AllCharged(tasks, es, |es| - 1, running, total, weighted)
    ensures WellTimed(tasks) && weighted == Shares(tasks, es, |es| - 1, |tasks|)
  {
    assert es[..|es|] == es;
    hide Share;
    forall i: nat | i < |tasks|
      ensures tasks[i].start <= tasks[i].end && weighted[i] == Share(tasks, es, i, |es| - 1)
    {
      ScheduleHas(tasks, es, i);
      assert Charged(tasks, es, |es| - 1, running, total, weighted, i);
    }
  }

  /**
   The sweep itself.  It crashes iff some task stops before it starts; otherwise every task is
   charged exactly its share and the total is the sum of the shares.
   */
  method Sweep(tasks: seq<Task>, es: seq<Event>) returns (ok: bool, weighted: seq<real>, weightedTotal: real)
    requires IsSchedule(tasks, es) && tasks != []
    ensures ok <==> WellTimed(tasks)
    ensures ok ==> weighted == Shares(tasks, es, |es| - 1, |tasks|)
    ensures ok ==> weightedTotal == Sum(weighted)
  {
    hide IsSchedule, Seen, RunningInv, AllCharged, Sum;
    ScheduleSize(tasks, es);
    weighted := seq(|tasks|, i => 0.0);
    weightedTotal := 0.0;
    var running: map<nat, real> := map[];
    var lastTime, total := es[0].time, 0.0;
    SweepStarts(tasks, es, weighted);
    for k := 0 to |es|
      invariant |weighted| == |tasks|
      invariant RunningInv(tasks, Seen(es, k), running, weighted)
      invariant lastTime == es[if k == 0 then 0 else k - 1].time
      invariant AllCharged(tasks, es, if k == 0 then 0 else k - 1, running, total, weighted)
      invariant weightedTotal == Sum(weighted)
    {
      ScheduleEvent(tasks, es, k);
      var numRunning := |running|;
      if k > 0 {
        AdvanceCharges(tasks, es, k, running, total, weighted);
      }
      if numRunning > 0 {
        total := total + Split(es[k].time - lastTime, numRunning);
      }
      var j := es[k].task;
      if es[k].action.Start? {
        StartKeepsRunning(tasks, es, k, running, total, weighted);
        running := running[j := total];
      } else {
        if j !in running {
          NotRunningAtStop(tasks, es, k, running, weighted);
          return false, weighted, weightedTotal;
        }
        StopKeepsRunning(tasks, es, k, running, total, weighted);
        SumUpdate(weighted, j, total - running[j]);
        weightedTotal := weightedTotal + (total - running[j]);
        weighted := weighted[j := total - running[j]];
        running := running - {j};
      }
      lastTime := es[k].time;
    }
    SweepEnds(tasks, es, running, total, weighted);
    ok := true;
  }

  function Schedule(tasks: seq<Task>): (es: seq<Event>)
    ensures IsSchedule(tasks, es)
  {
    SortedEventsAreSchedule(tasks);
    SortEvents(EventsOf(tasks))
  }

  /** No moment between the first start and the last stop is without a running task. */
  ghost predicate NoGap(tasks: seq<Task>, es: seq<Event>) {
    forall k :: 0 <= k < |es| - 1 && es[k].time < es[k + 1].time ==> CoverAt(tasks, es, k) != {}
  }

  lemma ExtentOfSchedule(tasks: seq<Task>, es: seq<Event>, earliest: real, latest: real)
    requires IsSchedule(tasks, es) && tasks != [] && WellTimed(tasks) && NonNegative(tasks)
    requires exists i :: 0 <= i < |tasks| && tasks[i].start == earliest
    requires forall i :: 0 <= i < |tasks| ==> earliest <= tasks[i].start && tasks[i].end <= latest
    requires latest == 0.0 || exists i :: 0 <= i < |tasks| && tasks[i].end == latest
    ensures earliest == es[0].time && latest == es[|es| - 1].time
  {
    ScheduleEvent(tasks, es, 0);
    ScheduleEvent(tasks, es, |es| - 1);
    hide IsSchedule, Sorted, NoRepeats;
    var i :| 0 <= i < |tasks| && tasks[i].start == earliest;
    ScheduleHas(tasks, es, i);
    ScheduleSpans(es, StartOf(tasks, i));
    if exists j :: 0 <= j < |tasks| && tasks[j].end == latest {
      var j :| 0 <= j < |tasks| && tasks[j].end == latest;
      ScheduleHas(tasks, es, j);
      ScheduleSpans(es, StopOf(tasks, j));
    }
  }

  /**
   The numbers of the report.  Every task is charged its exact share, which is no more than its
   own duration; the shares add up to the time in which something was running; and that is the
   length of the build iff there was no idle gap.
   */
  method SummarizeEntries(tasks: seq<Task>) returns (r: Result)
    ensures r.Crash? <==> tasks == [] || !WellTimed(tasks)
    ensures r.Done? ==>
      var es := Schedule(tasks);
      && r.report.weighted == Shares(tasks, es, |es| - 1, |tasks|)
      && (forall i :: 0 <= i < |tasks| ==> 0.0 <= r.report.weighted[i] <= tasks[i].end - tasks[i].start)
      && r.report.weightedTotal == Busy(tasks, es, |es| - 1)
      && r.report.cpuTime == Sum(Durations(tasks))
      && (NonNegative(tasks) ==>
            && r.report.length == r.report.weightedTotal + Idle(tasks, es, |es| - 1)
            && (r.report.weightedTotal == r.report.length <==> NoGap(tasks, es)))
  {
    hide Shares, Share, Busy, Idle, Sum, IsSchedule, SortEvents;
    var earliest, latest, cpuTime := Extent(tasks);
    if tasks == [] {
      return Crash;
    }
    var es := Schedule(tasks);
    var ok, weighted, weightedTotal := Sweep(tasks, es);
    if !ok {
      return Crash;
    }
    ReportIsExact(tasks, es);
    if NonNegative(tasks) {
      ExtentOfSchedule(tasks, es, earliest, latest);
    }
    return Done(Report(weighted, weightedTotal, latest - earliest, cpuTime));
  }

  lemma ReportIsExact(tasks: seq<Task>, es: seq<Event>)
    requires IsSchedule(tasks, es) && tasks != [] && WellTimed(tasks)
    ensures var n := |es| - 1;
      && Sum(Shares(tasks, es, n, |tasks|)) == Busy(tasks, es, n)
      && Busy(tasks, es, n) + Idle(tasks, es, n) == es[n].time - es[0].time
      && (Idle(tasks, es, n) == 0.0 <==> NoGap(tasks, es))
      && (forall i :: 0 <= i < |tasks| ==>
            0.0 <= Shares(tasks, es, n, |tasks|)[i] <= tasks[i].end - tasks[i].start)
  {
    hide IsSchedule, Sorted, Share, Busy, Idle, Sum;
    ScheduleSize(tasks, es);
    ScheduleEvent(tasks, es, 0);
    SharesAddUp(tasks, es, |es| - 1);
    BusyAndIdle(tasks, es, |es| - 1);
    var shares := Shares(tasks, es, |es| - 1, |tasks|);
    forall i | 0 <= i < |tasks|
      ensures 0.0 <= shares[i] <= tasks[i].end - tasks[i].start
    {
      ShareWithinDuration(tasks, es, i);
    }
  }

  /** The summary divides by the length of the build, which is 0 iff all steps start and stop at one moment. */
  lemma LengthIsZeroIff(tasks: seq<Task>, es: seq<Event>)
    requires IsSchedule(tasks, es) && tasks != []
    ensures |es| > 0
    ensures es[|es| - 1].time - es[0].time == 0.0 <==>
      forall i :: 0 <= i < |tasks| ==> tasks[i].start == tasks[i].end == tasks[0].start
  {
    hide IsSchedule, Sorted, NoRepeats;
    ScheduleSize(tasks, es);
    ScheduleEvent(tasks, es, 0);
    ScheduleEvent(tasks, es, |es| - 1);
    forall i: nat | i < |tasks|
      ensures es[0].time <= tasks[i].start <= es[|es| - 1].time && es[0].time <= tasks[i].end <= es[|es| - 1].time
    {
      ScheduleHas(tasks, es, i);
      ScheduleSpans(es, StartOf(tasks, i));
      ScheduleSpans(es, StopOf(tasks, i));
    }
  }
}
