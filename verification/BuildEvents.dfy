/**
 Start and stop events of build steps, in the order the sweep visits them.
 */
module BuildEvents {

  datatype Task = Task(start: real, end: real)

  datatype Action = Start | Stop

  datatype Event = Event(time: real, action: Action, task: nat)

  /** The order on (time, action) pairs; "start" sorts before "stop". */
  predicate NotAfter(a: Event, b: Event) {
    a.time < b.time || (a.time == b.time && (a.action.Start? || b.action.Stop?))
  }

  ghost predicate Sorted(es: seq<Event>) {
    forall i, j :: 0 <= i < j < |es| ==> NotAfter(es[i], es[j])
  }

  ghost predicate NoRepeats<T>(s: seq<T>) {
    forall i, j :: 0 <= i < j < |s| ==> s[i] != s[j]
  }

  function StartOf(tasks: seq<Task>, i: nat): Event
    requires i < |tasks|
  {
    Event(tasks[i].start, Start, i)
  }

  function StopOf(tasks: seq<Task>, i: nat): Event
    requires i < |tasks|
  {
    Event(tasks[i].end, Stop, i)
  }

  /** Both events of every task, in entry order. */
  function EventsOf(tasks: seq<Task>): (es: seq<Event>)
    ensures |es| == 2 * |tasks|
  {
    seq(2 * |tasks|, k requires 0 <= k < 2 * |tasks| =>
      if k % 2 == 0 then StartOf(tasks, k / 2) else StopOf(tasks, k / 2))
  }

  predicate HasBoth(tasks: seq<Task>, es: seq<Event>, i: nat) {
    i < |tasks| && StartOf(tasks, i) in es && StopOf(tasks, i) in es
  }

  predicate IsEventOf(tasks: seq<Task>, e: Event) {
    e.task < |tasks| && e == if e.action.Start? then StartOf(tasks, e.task) else StopOf(tasks, e.task)
  }

  /** A list of events that holds both events of every task once and nothing else, in sweep order. */
  ghost predicate IsSchedule(tasks: seq<Task>, es: seq<Event>) {
    && Sorted(es) && NoRepeats(es) && |es| == 2 * |tasks|
    && (forall i: nat :: i < |tasks| ==> HasBoth(tasks, es, i))
    && (forall k :: 0 <= k < |es| ==> IsEventOf(tasks, es[k]))
  }

  function Insert(e: Event, es: seq<Event>): (r: seq<Event>)
    ensures |r| == |es| + 1
    ensures forall x :: x in r <==> x == e || x in es
  {
    if es == [] || NotAfter(e, es[0]) then [e] + es else [es[0]] + Insert(e, es[1..])
  }

  lemma {:induction false} InsertKeepsOrder(e: Event, es: seq<Event>)
    requires Sorted(es) && NoRepeats(es) && e !in es
    ensures Sorted(Insert(e, es)) && NoRepeats(Insert(e, es))
  {
    if es != [] && !NotAfter(e, es[0]) {
      var rest := Insert(e, es[1..]);
      InsertKeepsOrder(e, es[1..]);
      forall j | 0 <= j < |rest|
        ensures NotAfter(es[0], rest[j]) && es[0] != rest[j]
      {
        assert rest[j] in rest;
        if rest[j] != e {
          var k :| 0 <= k < |es[1..]| && es[1..][k] == rest[j];
          assert es[k + 1] == rest[j];
        }
      }
    }
  }

  function SortEvents(es: seq<Event>): (r: seq<Event>)
    ensures |r| == |es|
    ensures forall x :: x in r <==> x in es
  {
    if es == [] then [] else Insert(es[0], SortEvents(es[1..]))
  }

  lemma {:induction false} SortEventsSorts(es: seq<Event>)
    requires NoRepeats(es)
    ensures Sorted(SortEvents(es)) && NoRepeats(SortEvents(es))
  {
    if es == [] {
    } else {
      SortEventsSorts(es[1..]);
      InsertKeepsOrder(es[0], SortEvents(es[1..]));
    }
  }

  lemma SortedEventsAreSchedule(tasks: seq<Task>)
    ensures IsSchedule(tasks, SortEvents(EventsOf(tasks)))
  {
    var all := EventsOf(tasks);
    forall i, j | 0 <= i < j < |all|
      ensures all[i] != all[j]
    {
      assert all[i].task == i / 2 && all[j].task == j / 2;
      assert all[i].action.Start? == (i % 2 == 0) && all[j].action.Start? == (j % 2 == 0);
    }
    SortEventsSorts(all);
    var es := SortEvents(all);
    forall i: nat | i < |tasks|
      ensures HasBoth(tasks, es, i)
    {
      assert all[2 * i] == StartOf(tasks, i) && all[2 * i + 1] == StopOf(tasks, i);
    }
    forall k | 0 <= k < |es|
      ensures IsEventOf(tasks, es[k])
    {
      assert es[k] in all;
    }
  }

  /** In a schedule, an event has been visited when the sweep leaves time `t` iff it is not later than `t`. */
  lemma VisitedIffNotLater(es: seq<Event>, k: nat, x: Event)
    requires Sorted(es) && 1 <= k < |es| && es[k - 1].time < es[k].time && x in es
    ensures x in es[..k] <==> x.time <= es[k - 1].time
  {
    var p :| 0 <= p < |es| && es[p] == x;
    if p < k {
      assert es[..k][p] == x;
      assert p < k - 1 ==> NotAfter(es[p], es[k - 1]);
    } else {
      assert k < p ==> NotAfter(es[k], es[p]);
      assert forall q :: 0 <= q < k - 1 ==> NotAfter(es[q], es[k - 1]);
    }
  }

  lemma ScheduleSpans(es: seq<Event>, x: Event)
    requires Sorted(es) && x in es
    ensures es[0].time <= x.time <= es[|es| - 1].time
  {
    var p :| 0 <= p < |es| && es[p] == x;
    assert 0 < p ==> NotAfter(es[0], es[p]);
    assert p < |es| - 1 ==> NotAfter(es[p], es[|es| - 1]);
  }
}
