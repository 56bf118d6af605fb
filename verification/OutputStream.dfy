/**
 Streams of request outputs: increments merged by extension carry the same information as
 cumulative outputs merged by replacement.
 */
module OutputStream {
  import opened Wrappers
  import opened LogprobDict
  import opened OutputMerge

  // ----- increments and cumulative outputs -----

  function TextOf(ds: seq<Completion>, x: int): string {
    if ds == [] then ""
    else
      var d := ds[|ds| - 1];
      TextOf(ds[..|ds| - 1], x) + if d.index == x then d.text else ""
  }

  function TokensOf(ds: seq<Completion>, x: int): seq<int> {
    if ds == [] then []
    else
      var d := ds[|ds| - 1];
      TokensOf(ds[..|ds| - 1], x) + if d.index == x then d.tokens else []
  }

  function LogprobsOf(ds: seq<Completion>, x: int): seq<Dict> {
    if ds == [] then []
    else
      var d := ds[|ds| - 1];
      LogprobsOf(ds[..|ds| - 1], x) + if d.index == x && d.logprobs.Some? then d.logprobs.value else []
  }

  /** The last increment with index `x`. */
  function LastOf(ds: seq<Completion>, x: int): Option<Completion> {
    if ds == [] then None
    else if ds[|ds| - 1].index == x then Some(ds[|ds| - 1])
    else LastOf(ds[..|ds| - 1], x)
  }

  /** What the last increment of `ds` looks like when outputs are cumulative. */
  function CumulativeOf(ds: seq<Completion>): Completion
    requires ds != []
  {
    var d := ds[|ds| - 1];
    d.(text := TextOf(ds, d.index), tokens := TokensOf(ds, d.index),
       logprobs := if d.logprobs.Some? then Some(LogprobsOf(ds, d.index)) else None)
  }

  /** The cumulative stream that matches a stream of increments. */
  function Cumulatives(ds: seq<Completion>): (cs: seq<Completion>)
    ensures |cs| == |ds|
  {
    if ds == [] then [] else Cumulatives(ds[..|ds| - 1]) + [CumulativeOf(ds)]
  }

  /** Merging increments leaves, for each index, everything that was sent for it. */
  ghost predicate HoldsAll(cs: seq<Completion>, ds: seq<Completion>, x: int) {
    var i := Find(cs, x);
    if i < |cs| then
      && LastOf(ds, x).Some? && cs[i].cumulativeLogprob == LastOf(ds, x).value.cumulativeLogprob
      && cs[i].finishReason == LastOf(ds, x).value.finishReason
      && cs[i].stopReason == LastOf(ds, x).value.stopReason
      && cs[i].text == TextOf(ds, x) && cs[i].tokens == TokensOf(ds, x)
      && (cs[i].logprobs.Some? ==> cs[i].logprobs.value == LogprobsOf(ds, x))
    else LastOf(ds, x).None? && TextOf(ds, x) == "" && TokensOf(ds, x) == [] && LogprobsOf(ds, x) == []
  }

  lemma {:induction false} IncrementsAddUp(ds: seq<Completion>, present: bool, x: int)
    requires Uniform(ds, present)
    ensures HoldsAll(AddAll([], ds, true), ds, x)
  {
    if ds == [] {
    } else {
      var n := |ds| - 1;
      var d, cs := ds[n], AddAll([], ds[..n], true);
      IncrementsAddUp(ds[..n], present, x);
      AddAllKeepsUniform([], ds[..n], true, present);
      FindAfterAddOne(cs, d, true, x);
      OneIncrement(cs, ds[..n], d, x, present);
      assert ds[..n] + [d] == ds;
    }
  }

  lemma OneIncrement(cs: seq<Completion>, before: seq<Completion>, d: Completion, x: int, present: bool)
    requires HoldsAll(cs, before, x) && Uniform(cs, present) && d.logprobs.Some? == present
    ensures HoldsAll(AddOne(cs, d, true), before + [d], x)
  {
    hide Find;
    FindAfterAddOne(cs, d, true, x);
    var ds := before + [d];
    assert ds[..|before|] == before;
    if d.index == x {
      var i := Find(cs, x);
      if i < |cs| && d.logprobs.Some? && d.logprobs.value == [] {
        assert LogprobsOf(before, x) + [] == LogprobsOf(before, x);
      }
    } else {
      assert TextOf(ds, x) == TextOf(before, x) && TokensOf(ds, x) == TokensOf(before, x);
      assert LogprobsOf(ds, x) == LogprobsOf(before, x);
    }
  }

  /** Both kinds of stream leave the same completions, in the same order. */
  lemma {:induction false} DeltaEqualsCumulative(ds: seq<Completion>, present: bool)
    requires Uniform(ds, present)
    ensures AddAll([], ds, true) == AddAll([], Cumulatives(ds), false)
  {
    hide TextOf, TokensOf, LogprobsOf, LastOf, HoldsAll, AddOne, CumulativeOf;
    if ds == [] {
    } else {
      var n := |ds| - 1;
      var d, cs := ds[n], AddAll([], ds[..n], true);
      DeltaEqualsCumulative(ds[..n], present);
      AddAllSnoc([], Cumulatives(ds[..n]), CumulativeOf(ds), false);
      IncrementsAddUp(ds, present, d.index);
      AddAllKeepsUniform([], ds[..n], true, present);
      assert ds[..n] + [d] == ds;
      ExtendedIsCumulative(cs, ds, present);
    }
  }

  lemma ExtendedIsCumulative(cs: seq<Completion>, ds: seq<Completion>, present: bool)
    requires ds != [] && Uniform(cs, present) && Uniform(ds, present)
    requires HoldsAll(AddOne(cs, ds[|ds| - 1], true), ds, ds[|ds| - 1].index)
    ensures AddOne(cs, ds[|ds| - 1], true) == AddOne(cs, CumulativeOf(ds), false)
  {
    hide Find, TextOf, TokensOf, LogprobsOf;
    var d := ds[|ds| - 1];
    FindAfterAddOne(cs, d, true, d.index);
  }

  // ----- whole outputs -----

  datatype Request = Request(outputs: seq<Completion>, finished: bool, kvTransferParams: Option<int>)

  function AddRequest(r: Request, n: Request, aggregate: bool): Request {
    Request(AddAll(r.outputs, n.outputs, aggregate), r.finished || n.finished, n.kvTransferParams)
  }

  /** All of `rs` merged into the first one. */
  function Fold(rs: seq<Request>, aggregate: bool): Request
    requires rs != []
  {
    if |rs| == 1 then rs[0] else AddRequest(Fold(rs[..|rs| - 1], aggregate), rs[|rs| - 1], aggregate)
  }

  ghost predicate WellFormed(r: Request, present: bool) {
    UniqueIndices(r.outputs) && Uniform(r.outputs, present)
  }

  ghost predicate AllWellFormed(rs: seq<Request>, present: bool) {
    forall i :: 0 <= i < |rs| ==> WellFormed(rs[i], present)
  }

  lemma AddRequestKeepsWellFormed(r: Request, n: Request, aggregate: bool, present: bool)
    requires WellFormed(r, present) && WellFormed(n, present)
    ensures WellFormed(AddRequest(r, n, aggregate), present)
  {
    AddAllKeepsUnique(r.outputs, n.outputs, aggregate);
    AddAllKeepsUniform(r.outputs, n.outputs, aggregate, present);
  }

  lemma AddRequestAssociative(a: Request, b: Request, c: Request, aggregate: bool, present: bool)
    requires WellFormed(a, present) && WellFormed(b, present) && WellFormed(c, present)
    ensures AddRequest(AddRequest(a, b, aggregate), c, aggregate)
      == AddRequest(a, AddRequest(b, c, aggregate), aggregate)
  {
    AddAllAssociative(a.outputs, b.outputs, c.outputs, aggregate, present);
  }

  lemma {:induction false} FoldKeepsWellFormed(rs: seq<Request>, aggregate: bool, present: bool)
    requires rs != [] && AllWellFormed(rs, present)
    ensures WellFormed(Fold(rs, aggregate), present)
  {
    hide WellFormed;
    if |rs| == 1 {
    } else {
      FoldKeepsWellFormed(rs[..|rs| - 1], aggregate, present);
      AddRequestKeepsWellFormed(Fold(rs[..|rs| - 1], aggregate), rs[|rs| - 1], aggregate, present);
    }
  }

  ghost predicate SomeFinished(rs: seq<Request>) {
    exists i :: 0 <= i < |rs| && rs[i].finished
  }

  /** A merged request is finished iff one of its parts is, and has the transfer parameters of the last one. */
  lemma {:induction false} FoldFlags(rs: seq<Request>, aggregate: bool)
    requires rs != []
    ensures Fold(rs, aggregate).finished <==> SomeFinished(rs)
    ensures Fold(rs, aggregate).kvTransferParams == rs[|rs| - 1].kvTransferParams
  {
    hide AddAll;
    var n := |rs| - 1;
    if n == 0 {
      assert rs[0].finished ==> SomeFinished(rs);
    } else {
      FoldFlags(rs[..n], aggregate);
      if SomeFinished(rs[..n]) {
        var i :| 0 <= i < n && rs[..n][i].finished;
        assert rs[i].finished;
      }
      if SomeFinished(rs) && !rs[n].finished {
        var i :| 0 <= i < |rs| && rs[i].finished;
        assert rs[..n][i].finished;
      }
    }
  }

  lemma FoldSnoc(rs: seq<Request>, r: Request, aggregate: bool)
    ensures Fold(rs + [r], aggregate) == if rs == [] then r else AddRequest(Fold(rs, aggregate), r, aggregate)
  {
    assert (rs + [r])[..|rs|] == rs;
  }

  /** Merging a new output into the last one of a list, or sending it separately. */
  lemma MergeIntoLast(rs: seq<Request>, p: Request, r: Request, aggregate: bool, present: bool)
    requires AllWellFormed(rs, present) && WellFormed(p, present) && WellFormed(r, present)
    ensures Fold(rs + [AddRequest(p, r, aggregate)], aggregate) == AddRequest(Fold(rs + [p], aggregate), r, aggregate)
  {
    hide WellFormed, AddRequest;
    FoldSnoc(rs, AddRequest(p, r, aggregate), aggregate);
    FoldSnoc(rs, p, aggregate);
    if rs != [] {
      FoldKeepsWellFormed(rs, aggregate, present);
      AddRequestAssociative(Fold(rs, aggregate), p, r, aggregate, present);
    }
  }

  // ----- folding increments and folding cumulative outputs -----

  /** The completions of all outputs, one after the other. */
  function Flatten(rs: seq<Request>): seq<Completion> {
    if rs == [] then [] else Flatten(rs[..|rs| - 1]) + rs[|rs| - 1].outputs
  }

  lemma {:induction false} AddAllConcat(a: seq<Completion>, b: seq<Completion>, c: seq<Completion>, aggregate: bool)
    ensures AddAll(a, b + c, aggregate) == AddAll(AddAll(a, b, aggregate), c, aggregate)
  {
    hide AddOne;
    if c == [] {
      assert b + c == b;
    } else {
      var n := |c| - 1;
      AddAllConcat(a, b, c[..n], aggregate);
      assert b + c == (b + c[..n]) + [c[n]];
      AddAllSnoc(a, b + c[..n], c[n], aggregate);
    }
  }

  lemma {:induction false} AddAllToEmpty(ns: seq<Completion>, aggregate: bool)
    requires UniqueIndices(ns)
    ensures AddAll([], ns, aggregate) == ns
  {
    if ns == [] {
    } else {
      var n := |ns| - 1;
      AddAllToEmpty(ns[..n], aggregate);
      FindIs(ns[..n], n, ns[n].index);
      assert ns[..n] + [ns[n]] == ns;
    }
  }

  /** Folding requests is adding their completions one after the other. */
  lemma {:induction false} FoldIsAddAll(rs: seq<Request>, aggregate: bool)
    requires rs != [] && UniqueIndices(rs[0].outputs)
    ensures Fold(rs, aggregate).outputs == AddAll([], Flatten(rs), aggregate)
  {
    hide UniqueIndices, AddAll;
    var n := |rs| - 1;
    if n == 0 {
      assert rs[..0] == [] && Flatten(rs) == [] + rs[0].outputs == rs[0].outputs;
      AddAllToEmpty(rs[0].outputs, aggregate);
    } else {
      FoldIsAddAll(rs[..n], aggregate);
      AddAllConcat([], Flatten(rs[..n]), rs[n].outputs, aggregate);
    }
  }

  /** The requests of the cumulative stream that matches a stream of incremental requests. */
  function CumulativeRequests(rs: seq<Request>): (cs: seq<Request>)
    ensures |cs| == |rs|
  {
    if rs == [] then []
    else
      var n := |rs| - 1;
      var sent := |Flatten(rs[..n])|;
      CumulativeRequests(rs[..n]) + [rs[n].(outputs := Cumulatives(Flatten(rs))[sent..])]
  }

  lemma {:induction false} CumulativesPrefix(a: seq<Completion>, b: seq<Completion>)
    ensures Cumulatives(a + b)[..|a|] == Cumulatives(a)
  {
    if b == [] {
      assert a + b == a;
    } else {
      var n := |b| - 1;
      CumulativesPrefix(a, b[..n]);
      assert (a + b)[..|a| + n] == a + b[..n];
    }
  }

  lemma {:induction false} FlattenCumulative(rs: seq<Request>)
    ensures Flatten(CumulativeRequests(rs)) == Cumulatives(Flatten(rs))
  {
    hide Cumulatives, Flatten;
    if rs == [] {
      NothingFlat();
    } else {
      var n := |rs| - 1;
      var before := Flatten(rs[..n]);
      FlattenCumulative(rs[..n]);
      CumulativesPrefix(before, rs[n].outputs);
      assert rs == rs[..n] + [rs[n]];
      FlattenSnoc(rs[..n], rs[n]);
      var all := Cumulatives(Flatten(rs));
      FlattenSnoc(CumulativeRequests(rs[..n]), rs[n].(outputs := all[|before|..]));
      assert all == all[..|before|] + all[|before|..];
    }
  }

  lemma NothingFlat()
    ensures Flatten([]) == [] && Cumulatives([]) == []
  {
  }

  lemma FlattenSnoc(rs: seq<Request>, r: Request)
    ensures Flatten(rs + [r]) == Flatten(rs) + r.outputs
  {
    assert (rs + [r])[..|rs|] == rs;
  }

  lemma {:induction false} CumulativesKeepIndex(ds: seq<Completion>, i: nat)
    requires i < |ds|
    ensures Cumulatives(ds)[i].index == ds[i].index && Cumulatives(ds)[i].logprobs.Some? == ds[i].logprobs.Some?
  {
    if i < |ds| - 1 { CumulativesKeepIndex(ds[..|ds| - 1], i); }
  }

  /** A cumulative request has the indices, the flags and the kind of logprobs of its increment. */
  lemma {:induction false} CumulativeLooksLike(rs: seq<Request>, k: nat)
    requires k < |rs|
    ensures var c := CumulativeRequests(rs)[k];
      && c.finished == rs[k].finished && c.kvTransferParams == rs[k].kvTransferParams
      && |c.outputs| == |rs[k].outputs|
      && forall i :: 0 <= i < |c.outputs| ==>
           && c.outputs[i].index == rs[k].outputs[i].index
           && c.outputs[i].logprobs.Some? == rs[k].outputs[i].logprobs.Some?
  {
    hide Cumulatives, Flatten;
    var n := |rs| - 1;
    if k < n {
      CumulativeLooksLike(rs[..n], k);
    } else {
      var sent := |Flatten(rs[..n])|;
      assert rs == rs[..n] + [rs[n]];
      FlattenSnoc(rs[..n], rs[n]);
      forall i | 0 <= i < |rs[n].outputs|
        ensures Cumulatives(Flatten(rs))[sent + i].index == rs[n].outputs[i].index
        ensures Cumulatives(Flatten(rs))[sent + i].logprobs.Some? == rs[n].outputs[i].logprobs.Some?
      {
        CumulativesKeepIndex(Flatten(rs), sent + i);
      }
    }
  }

  lemma CumulativeKeepsWellFormed(rs: seq<Request>, present: bool)
    requires AllWellFormed(rs, present)
    ensures AllWellFormed(CumulativeRequests(rs), present)
  {
    hide CumulativeRequests;
    forall k | 0 <= k < |rs| ensures WellFormed(CumulativeRequests(rs)[k], present) {
      CumulativeLooksLike(rs, k);
    }
  }

  lemma {:induction false} FlattenIsUniform(rs: seq<Request>, present: bool)
    requires AllWellFormed(rs, present)
    ensures Uniform(Flatten(rs), present)
  {
    if rs == [] {
    } else {
      FlattenIsUniform(rs[..|rs| - 1], present);
    }
  }

  lemma {:induction false} SameFlags(rs: seq<Request>, cs: seq<Request>)
    requires rs != [] && |cs| == |rs|
    requires forall k :: 0 <= k < |rs| ==>
      cs[k].finished == rs[k].finished && cs[k].kvTransferParams == rs[k].kvTransferParams
    ensures Fold(cs, false).finished == Fold(rs, true).finished
    ensures Fold(cs, false).kvTransferParams == Fold(rs, true).kvTransferParams
  {
    if |rs| == 1 {
    } else {
      SameFlags(rs[..|rs| - 1], cs[..|rs| - 1]);
    }
  }

  /** Folding increments with aggregation and folding the matching cumulative outputs with replacement agree. */
  lemma DeltaFoldEqualsCumulativeFold(rs: seq<Request>, present: bool)
    requires rs != [] && AllWellFormed(rs, present)
    ensures Fold(rs, true) == Fold(CumulativeRequests(rs), false)
  {
    hide Fold, Flatten, CumulativeRequests, AddAll, Cumulatives;
    var cs := CumulativeRequests(rs);
    CumulativeKeepsWellFormed(rs, present);
    FoldIsAddAll(rs, true);
    FoldIsAddAll(cs, false);
    FlattenCumulative(rs);
    FlattenIsUniform(rs, present);
    DeltaEqualsCumulative(Flatten(rs), present);
    forall k | 0 <= k < |rs|
      ensures cs[k].finished == rs[k].finished && cs[k].kvTransferParams == rs[k].kvTransferParams
    {
      CumulativeLooksLike(rs, k);
    }
    SameFlags(rs, cs);
  }
}
