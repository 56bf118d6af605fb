/**
 The collector between the engine and one consumer.  When the consumer falls behind, outputs are
 merged; whatever the interleaving of puts and gets, the consumer can reassemble everything.
 */
module OutputCollector {
  import opened Wrappers
  import opened LogprobDict
  import opened OutputStream
  import opened OutputObjects

  datatype Event = Put(output: Request) | Get

  /** The pending output, and what the consumer has taken so far. */
  datatype Mailbox = Mailbox(output: Option<Request>, received: seq<Request>)

  function Step(m: Mailbox, e: Event, aggregate: bool): Mailbox {
    match e
    case Put(r) =>
      if m.output.None? then m.(output := Some(r))
      else m.(output := Some(AddRequest(m.output.value, r, aggregate)))
    case Get =>
      if m.output.None? then m else Mailbox(None, m.received + [m.output.value])
  }

  function Run(es: seq<Event>, aggregate: bool): Mailbox {
    if es == [] then Mailbox(None, []) else Step(Run(es[..|es| - 1], aggregate), es[|es| - 1], aggregate)
  }

  function Puts(es: seq<Event>): seq<Request> {
    if es == [] then []
    else
      var e := es[|es| - 1];
      Puts(es[..|es| - 1]) + if e.Put? then [e.output] else []
  }

  /** Everything that has left the engine: what was taken, then what is pending. */
  function Sent(m: Mailbox): seq<Request> {
    m.received + if m.output.Some? then [m.output.value] else []
  }

  ghost predicate Complete(m: Mailbox, puts: seq<Request>, aggregate: bool, present: bool) {
    && AllWellFormed(Sent(m), present)
    && (Sent(m) == [] <==> puts == [])
    && (puts != [] ==> Fold(Sent(m), aggregate) == Fold(puts, aggregate))
  }

  lemma StepKeepsComplete(m: Mailbox, e: Event, puts: seq<Request>, aggregate: bool, present: bool)
    requires Complete(m, puts, aggregate, present)
    requires e.Put? ==> WellFormed(e.output, present)
    ensures Complete(Step(m, e, aggregate), puts + if e.Put? then [e.output] else [], aggregate, present)
  {
    hide Fold, WellFormed;
    match e
    case Put(r) =>
      FoldSnoc(puts, r, aggregate);
      if m.output.None? {
        FoldSnoc(m.received, r, aggregate);
        assert Sent(m) == m.received;
      } else {
        var p := m.output.value;
        assert WellFormed(Sent(m)[|m.received|], present);
        assert AllWellFormed(m.received, present) by {
          forall i | 0 <= i < |m.received| ensures WellFormed(m.received[i], present) {
            assert Sent(m)[i] == m.received[i];
          }
        }
        MergeIntoLast(m.received, p, r, aggregate, present);
        AddRequestKeepsWellFormed(p, r, aggregate, present);
      }
    case Get =>
      assert Sent(Step(m, e, aggregate)) == Sent(m);
      assert puts + [] == puts;
  }

  /** A consumer that merges what it takes ends up with the merge of everything that was put. */
  lemma {:induction false} NothingIsLost(es: seq<Event>, aggregate: bool, present: bool)
    requires forall i :: 0 <= i < |es| && es[i].Put? ==> WellFormed(es[i].output, present)
    ensures Complete(Run(es, aggregate), Puts(es), aggregate, present)
  {
    if es == [] {
    } else {
      var n := |es| - 1;
      NothingIsLost(es[..n], aggregate, present);
      StepKeepsComplete(Run(es[..n], aggregate), es[n], Puts(es[..n]), aggregate, present);
    }
  }

  /** Something is pending iff the last thing that happened was a put. */
  lemma {:induction false} PendingIff(es: seq<Event>, aggregate: bool)
    ensures Run(es, aggregate).output.Some? <==> es != [] && es[|es| - 1].Put?
  {
    if es == [] {
    } else {
      PendingIff(es[..|es| - 1], aggregate);
    }
  }

  /** A get leaves nothing pending: what the consumer then has taken is the merge of all that was put. */
  lemma GetDelivers(es: seq<Event>, aggregate: bool, present: bool)
    requires forall i :: 0 <= i < |es| && es[i].Put? ==> WellFormed(es[i].output, present)
    ensures var m := Run(es + [Get], aggregate);
      && m.output.None? && m.received == Sent(Run(es, aggregate))
      && (m.received == [] <==> Puts(es) == [])
      && (Puts(es) != [] ==> Fold(m.received, aggregate) == Fold(Puts(es), aggregate))
  {
    hide Fold, WellFormed;
    assert (es + [Get])[..|es|] == es;
    NothingIsLost(es, aggregate, present);
    assert Run(es, aggregate).received + [] == Run(es, aggregate).received;
  }

  // ----- the end of a request -----

  lemma SomeFinishedConcat(a: seq<Request>, b: seq<Request>)
    ensures SomeFinished(a + b) <==> SomeFinished(a) || SomeFinished(b)
  {
    var ab := a + b;
    if SomeFinished(a) {
      var i :| 0 <= i < |a| && a[i].finished;
      assert ab[i].finished;
    }
    if SomeFinished(b) {
      var i :| 0 <= i < |b| && b[i].finished;
      assert ab[|a| + i].finished;
    }
    if SomeFinished(ab) && !SomeFinished(a) {
      var i :| 0 <= i < |ab| && ab[i].finished;
      assert i >= |a| && b[i - |a|].finished;
    }
  }

  /** Both contain a finished request or neither does, and they end with the same transfer parameters. */
  ghost predicate SameEnd(sent: seq<Request>, puts: seq<Request>) {
    && (SomeFinished(sent) <==> SomeFinished(puts))
    && (sent == [] <==> puts == [])
    && (sent != [] ==> sent[|sent| - 1].kvTransferParams == puts[|puts| - 1].kvTransferParams)
  }

  lemma StepKeepsEnd(m: Mailbox, e: Event, puts: seq<Request>, aggregate: bool)
    requires SameEnd(Sent(m), puts)
    ensures SameEnd(Sent(Step(m, e, aggregate)), puts + if e.Put? then [e.output] else [])
  {
    hide SomeFinished;
    match e
    case Get =>
      assert Sent(Step(m, e, aggregate)) == Sent(m) && puts + [] == puts;
    case Put(r) =>
      SomeFinishedConcat(puts, [r]);
      if m.output.None? {
        assert Sent(m) == m.received;
        SomeFinishedConcat(m.received, [r]);
      } else {
        var merged := AddRequest(m.output.value, r, aggregate);
        SomeFinishedConcat(m.received, [m.output.value]);
        SomeFinishedConcat(m.received, [merged]);
        OneFinished(m.output.value, r, merged);
      }
  }

  /**
   The consumer learns that a request has ended: in any run, one of the outputs taken or pending
   is finished iff a finished one was put, and the last of them has the newest transfer parameters.
   */
  lemma {:induction false} EndIsSeen(es: seq<Event>, aggregate: bool)
    ensures var sent, puts := Sent(Run(es, aggregate)), Puts(es);
      && (SomeFinished(sent) <==> SomeFinished(puts))
      && (sent == [] <==> puts == [])
      && (sent != [] ==> sent[|sent| - 1].kvTransferParams == puts[|puts| - 1].kvTransferParams)
  {
    hide SomeFinished, Step;
    if es == [] {
      assert Sent(Run(es, aggregate)) == [] == Puts(es);
    } else {
      var n := |es| - 1;
      EndIsSeen(es[..n], aggregate);
      StepKeepsEnd(Run(es[..n], aggregate), es[n], Puts(es[..n]), aggregate);
    }
  }

  lemma OneFinished(p: Request, r: Request, merged: Request)
    requires merged.finished == (p.finished || r.finished)
    ensures SomeFinished([merged]) <==> SomeFinished([p]) || SomeFinished([r])
  {
    assert [merged][0] == merged && [p][0] == p && [r][0] == r;
  }

  /** Two consumers with the same events in mind: one of increments, one of the matching cumulative outputs. */
  lemma DeltaAndCumulativeAgree(es: seq<Event>, es': seq<Event>, present: bool)
    requires forall i :: 0 <= i < |es| && es[i].Put? ==> WellFormed(es[i].output, present)
    requires Puts(es) != [] && Puts(es') == CumulativeRequests(Puts(es))
    ensures Sent(Run(es, true)) != [] && Sent(Run(es', false)) != []
    ensures Fold(Sent(Run(es, true)), true) == Fold(Sent(Run(es', false)), false)
  {
    hide WellFormed, Fold, CumulativeRequests, Run, Step;
    PutsAreWellFormed(es, present);
    CumulativeKeepsWellFormed(Puts(es), present);
    WellFormedPuts(es', present);
    NothingIsLost(es, true, present);
    NothingIsLost(es', false, present);
    DeltaFoldEqualsCumulativeFold(Puts(es), present);
  }

  lemma {:induction false} PutsAreWellFormed(es: seq<Event>, present: bool)
    requires forall i :: 0 <= i < |es| && es[i].Put? ==> WellFormed(es[i].output, present)
    ensures AllWellFormed(Puts(es), present)
  {
    hide WellFormed;
    if es == [] {
    } else {
      PutsAreWellFormed(es[..|es| - 1], present);
    }
  }

  lemma {:induction false} WellFormedPuts(es: seq<Event>, present: bool)
    requires AllWellFormed(Puts(es), present)
    ensures forall i :: 0 <= i < |es| && es[i].Put? ==> WellFormed(es[i].output, present)
  {
    hide WellFormed;
    if es == [] {
    } else {
      var n := |es| - 1;
      forall k | 0 <= k < |Puts(es[..n])| ensures WellFormed(Puts(es[..n])[k], present) {
        assert Puts(es)[k] == Puts(es[..n])[k];
      }
      WellFormedPuts(es[..n], present);
      if es[n].Put? { assert Puts(es)[|Puts(es[..n])|] == es[n].output; }
    }
  }

  datatype OutputKind = Cumulative | Delta | FinalOnly

  class Collector {
    const aggregate: bool
    var output: RequestOutput?
    ghost var received: seq<Request>

    /** The objects the collector may change: itself and the pending output. */
    ghost function Footprint(): set<object>
      reads this, output
    {
      {this} + if output == null then {} else {output} + Objects(output.outputs)
    }

    ghost predicate Valid()
      reads this, output
    {
      output != null ==> Distinct(output.outputs)
    }

    ghost function Abs(): Mailbox
      reads this, output, if output == null then [] else output.outputs
    {
      Mailbox(if output == null then None else Some(output.Abs()), received)
    }

    /** Only increments are aggregated; other outputs replace each other. */
    constructor (kind: OutputKind)
      ensures aggregate == kind.Delta? && Valid() && Abs() == Mailbox(None, []) && Footprint() == {this}
    {
      aggregate := kind == Delta;
      output := null;
      received := [];
    }

    /**
     put: the pending output absorbs the new one in place.  `ok` is false when one of the
     assertions on logprobs fails.
     */
    method PutOutput(r: RequestOutput) returns (ok: bool)
      requires Valid() && Distinct(r.outputs) && ({r} + Objects(r.outputs)) !! Footprint()
      modifies Footprint(), Objects(r.outputs)
      ensures ok <==>
        old(output) == null || AllFit(old(Abs()).output.value.outputs, old(Views(r.outputs)), aggregate)
      ensures ok ==> Valid() && Abs() == Step(old(Abs()), Put(old(r.Abs())), aggregate)
      ensures ok ==> Footprint() <= old(Footprint()) + {r} + old(Objects(r.outputs))
    {
      hide Views, AllFit, Distinct;
      if output == null {
        output := r;
        ok := true;
      } else {
        ok := output.Add(r, aggregate);
      }
    }

    /** get_nowait: the pending output changes hands, and the collector no longer touches it. */
    method GetNowait() returns (r: RequestOutput?)
      requires Valid()
      modifies this
      ensures r == old(output) && Valid() && Footprint() == {this}
      ensures Abs() == Step(old(Abs()), Get, aggregate)
    {
      r := output;
      if r != null {
        received := received + [r.Abs()];
        output := null;
      }
    }
  }

  /** Each of the objects holds the value it was taken with, and owns nothing outside `gone`. */
  ghost predicate Kept(taken: seq<RequestOutput>, values: seq<Request>, gone: set<object>)
    reads gone
  {
    && |taken| == |values|
    && forall i :: 0 <= i < |taken| ==>
         taken[i] in gone && Objects(taken[i].outputs) <= gone && taken[i].Abs() == values[i]
  }

  /**
   Any sequence of puts and gets, with outputs whose logprobs are uniformly present or absent:
   no assertion fails, the collector is where the mailbox is, and what the consumer has taken
   is never changed afterwards.
   */
  method Collect(es: seq<Event>, kind: OutputKind, ghost present: bool)
    returns (c: Collector, taken: seq<RequestOutput>)
    requires forall i :: 0 <= i < |es| && es[i].Put? ==> WellFormed(es[i].output, present)
    ensures c.Valid() && c.Abs() == Run(es, kind.Delta?)
    ensures |taken| == |Run(es, kind.Delta?).received|
    ensures forall i :: 0 <= i < |taken| ==> taken[i].Abs() == Run(es, kind.Delta?).received[i]
  {
    hide WellFormed, AllFit, Run, Step, Kept;
    c := new Collector(kind);
    ghost var aggregate := kind.Delta?;
    taken := [];
    ghost var gone: set<object> := {};
    NothingYet(es, aggregate);
    NothingTaken(gone);
    for k := 0 to |es|
      invariant fresh(c.Footprint()) && gone !! c.Footprint() && c.aggregate == aggregate && c.Valid()
      invariant c.Abs() == Run(es[..k], aggregate)
      invariant Kept(taken, c.received, gone)
    {
      RunNext(es, k, aggregate);
      match es[k]
      case Put(r) =>
        PendingFits(es[..k], r, aggregate, present);
        PutNew(c, r, taken, gone);
      case Get =>
        taken, gone := TakeNext(c, taken, gone);
    }
    SameAsTaken(taken, c.received, gone);
    assert es[..|es|] == es;
  }

  method PutNew(c: Collector, r: Request, ghost taken: seq<RequestOutput>, ghost gone: set<object>)
    requires c.Valid() && gone !! c.Footprint() && Kept(taken, c.received, gone)
    requires c.output != null ==> AllFit(c.Abs().output.value.outputs, r.outputs, c.aggregate)
    modifies c.Footprint()
    ensures c.Valid() && gone !! c.Footprint() && fresh(c.Footprint() - old(c.Footprint()))
    ensures c.Abs() == Step(old(c.Abs()), Put(r), c.aggregate) && Kept(taken, c.received, gone)
  {
    hide Views, AllFit, Distinct, Kept;
    ghost var mine := c.Footprint();
    var o := MakeOutput(r);
    assert Objects(o.outputs) !! mine;
    var ok := c.PutOutput(o);
    assert ok;
  }

  method TakeNext(c: Collector, taken: seq<RequestOutput>, ghost gone: set<object>)
    returns (taken': seq<RequestOutput>, ghost gone': set<object>)
    requires c.Valid() && gone !! c.Footprint() && Kept(taken, c.received, gone)
    modifies c
    ensures c.Valid() && gone' !! c.Footprint() && c.Footprint() == {c}
    ensures c.Abs() == Step(old(c.Abs()), Get, c.aggregate) && Kept(taken', c.received, gone')
  {
    hide Views, Distinct, Objects;
    gone' := gone + (c.Footprint() - {c});
    taken' := taken;
    var o := c.GetNowait();
    if o != null {
      taken' := taken + [o];
    }
  }

  lemma NothingTaken(gone: set<object>)
    ensures Kept([], [], gone)
  {
  }

  lemma SameAsTaken(taken: seq<RequestOutput>, values: seq<Request>, gone: set<object>)
    requires Kept(taken, values, gone)
    ensures |taken| == |values| && forall i :: 0 <= i < |taken| ==> taken[i].Abs() == values[i]
  {
  }

  lemma NothingYet(es: seq<Event>, aggregate: bool)
    ensures Run(es[..0], aggregate) == Mailbox(None, [])
  {
  }

  lemma RunNext(es: seq<Event>, k: nat, aggregate: bool)
    requires k < |es|
    ensures Run(es[..k + 1], aggregate) == Step(Run(es[..k], aggregate), es[k], aggregate)
  {
    assert es[..k + 1][..k] == es[..k];
  }

  lemma PendingFits(es: seq<Event>, r: Request, aggregate: bool, present: bool)
    requires forall i :: 0 <= i < |es| && es[i].Put? ==> WellFormed(es[i].output, present)
    requires WellFormed(r, present)
    ensures var m := Run(es, aggregate);
      m.output.Some? ==> AllFit(m.output.value.outputs, r.outputs, aggregate)
  {
    NothingIsLost(es, aggregate, present);
    var m := Run(es, aggregate);
    if m.output.Some? {
      assert WellFormed(Sent(m)[|m.received|], present);
      UniformFits(m.output.value.outputs, r.outputs, aggregate, present);
    }
  }
}
