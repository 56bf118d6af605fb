/**
 Request outputs as objects: `add` updates completions in place.
 */
module OutputObjects {
  import opened Wrappers
  import opened LogprobDict
  import opened OutputMerge
  import opened OutputStream

  class CompletionOutput {
    const index: int
    var text: string
    var tokenIds: seq<int>
    var cumulativeLogprob: Option<real>
    var logprobs: Option<seq<Dict>>
    var finishReason: Option<string>
    var stopReason: Option<string>

    ghost function Abs(): Completion
      reads this
    {
      Completion(index, text, tokenIds, cumulativeLogprob, logprobs, finishReason, stopReason)
    }

    constructor (c: Completion)
      ensures Abs() == c
    {
      index, text, tokenIds := c.index, c.text, c.tokens;
      cumulativeLogprob, logprobs := c.cumulativeLogprob, c.logprobs;
      finishReason, stopReason := c.finishReason, c.stopReason;
    }

    /** The aggregate branch; `ok` is false when the assertion on logprobs fails. */
    method ExtendWith(n: CompletionOutput) returns (ok: bool)
      requires n != this
      modifies this
      ensures ok <==> Fits(old(Abs()), n.Abs())
      ensures ok ==> Abs() == Extend(old(Abs()), n.Abs())
    {
      text := text + n.text;
      tokenIds := tokenIds + n.tokenIds;
      if n.logprobs.Some? && n.logprobs.value != [] {
        if logprobs.None? {
          return false;
        }
        logprobs := Some(logprobs.value + n.logprobs.value);
      }
      cumulativeLogprob := n.cumulativeLogprob;
      finishReason := n.finishReason;
      stopReason := n.stopReason;
      ok := true;
    }
  }

  ghost predicate Distinct(os: seq<CompletionOutput>) {
    forall i, j :: 0 <= i < j < |os| ==> os[i] != os[j]
  }

  ghost function Objects(os: seq<CompletionOutput>): set<CompletionOutput> {
    set o | o in os
  }

  lemma RestOfObjects(os: seq<CompletionOutput>, k: nat)
    requires Distinct(os) && k < |os|
    ensures Objects(os[k + 1..]) == Objects(os[k..]) - {os[k]}
    ensures forall j :: k <= j < |os| ==> os[j] in Objects(os[k..])
    ensures os[k] in Objects(os)
  {
    assert forall j :: k <= j < |os| ==> os[k..][j - k] == os[j];
    assert os[k..] == [os[k]] + os[k + 1..];
  }

  ghost function Views(os: seq<CompletionOutput>): (cs: seq<Completion>)
    reads os
    ensures |cs| == |os|
    ensures forall i :: 0 <= i < |os| ==> cs[i] == os[i].Abs()
  {
    if os == [] then [] else Views(os[..|os| - 1]) + [os[|os| - 1].Abs()]
  }

  /** None of the assertions on logprobs fails while `ns` are merged into `cs`. */
  ghost predicate AllFit(cs: seq<Completion>, ns: seq<Completion>, aggregate: bool) {
    ns == [] ||
    var k := |ns| - 1;
    var before := AddAll(cs, ns[..k], aggregate);
    var i := Find(before, ns[k].index);
    AllFit(cs, ns[..k], aggregate) && (aggregate && i < |before| ==> Fits(before[i], ns[k]))
  }

  class RequestOutput {
    var outputs: seq<CompletionOutput>
    var finished: bool
    var kvTransferParams: Option<int>

    ghost function Abs(): Request
      reads this, outputs
    {
      Request(Views(outputs), finished, kvTransferParams)
    }

    constructor (outputs: seq<CompletionOutput>, finished: bool, kvTransferParams: Option<int>)
      ensures this.outputs == outputs && this.finished == finished && this.kvTransferParams == kvTransferParams
    {
      this.outputs, this.finished, this.kvTransferParams := outputs, finished, kvTransferParams;
    }

    /** The inner loop: find the completion with the same index, or add a new one. */
    method AddCompletion(n: CompletionOutput, aggregate: bool) returns (ok: bool)
      requires Distinct(outputs) && n !in Objects(outputs)
      modifies this`outputs, Objects(outputs)
      ensures ok <==>
        var cs := old(Views(outputs));
        aggregate && Find(cs, n.index) < |cs| ==> Fits(cs[Find(cs, n.index)], n.Abs())
      ensures ok ==> Views(outputs) == AddOne(old(Views(outputs)), n.Abs(), aggregate)
      ensures Distinct(outputs) && Objects(outputs) <= old(Objects(outputs)) + {n}
    {
      hide Find, Extend, Fits, Views;
      ghost var cs := Views(outputs);
      for i := 0 to |outputs|
        invariant outputs == old(outputs) && Views(outputs) == cs
        invariant forall j :: 0 <= j < i ==> cs[j].index != n.index
      {
        if outputs[i].index == n.index {
          FindIs(cs, i, n.index);
          if aggregate {
            ok := outputs[i].ExtendWith(n);
          } else {
            outputs := outputs[i := n];
            ok := true;
          }
          assert ok ==> Views(outputs) == cs[i := Merge(cs[i], n.Abs(), aggregate)];
          return;
        }
      }
      FindIs(cs, |cs|, n.index);
      outputs := outputs + [n];
      assert Views(outputs) == cs + [n.Abs()];
      ok := true;
    }

    /** add: merge a later output of the same request into this one. */
    method Add(next: RequestOutput, aggregate: bool) returns (ok: bool)
      requires next != this && Distinct(outputs) && Distinct(next.outputs)
      requires Objects(outputs) !! Objects(next.outputs)
      modifies this, Objects(outputs), Objects(next.outputs)
      ensures ok <==> AllFit(old(Views(outputs)), old(Views(next.outputs)), aggregate)
      ensures ok ==> Abs() == AddRequest(old(Abs()), old(next.Abs()), aggregate)
      ensures ok ==> Distinct(outputs) && Objects(outputs) <= old(Objects(outputs)) + old(Objects(next.outputs))
    {
      hide Find, AddOne, Fits, Views, Objects, Distinct, AddAll, AllFit;
      ghost var cs, ns := Views(outputs), Views(next.outputs);
      finished := finished || next.finished;
      kvTransferParams := next.kvTransferParams;
      MergeNone(cs, ns, aggregate);
      assert next.outputs[0..] == next.outputs;
      for k := 0 to |next.outputs|
        invariant finished == (old(finished) || next.finished) && kvTransferParams == next.kvTransferParams
        invariant Distinct(outputs)
        invariant Objects(outputs) <= old(Objects(outputs)) + old(Objects(next.outputs))
        invariant Objects(outputs) !! Objects(next.outputs[k..])
        invariant forall j :: k <= j < |ns| ==> next.outputs[j].Abs() == ns[j]
        invariant Views(outputs) == AddAll(cs, ns[..k], aggregate)
        invariant AllFit(cs, ns[..k], aggregate)
      {
        MergeNext(cs, ns, k, aggregate);
        RestOfObjects(next.outputs, k);
        ok := AddCompletion(next.outputs[k], aggregate);
        if !ok {
          if AllFit(cs, ns, aggregate) { FitsSoFar(cs, ns, k + 1, aggregate); }
          return;
        }
      }
      assert ns[..|ns|] == ns;
      ok := true;
    }
  }

  lemma MergeNone(cs: seq<Completion>, ns: seq<Completion>, aggregate: bool)
    ensures AddAll(cs, ns[..0], aggregate) == cs && AllFit(cs, ns[..0], aggregate)
  {
    assert ns[..0] == [];
  }

  lemma MergeNext(cs: seq<Completion>, ns: seq<Completion>, k: nat, aggregate: bool)
    requires k < |ns|
    ensures AddAll(cs, ns[..k + 1], aggregate) == AddOne(AddAll(cs, ns[..k], aggregate), ns[k], aggregate)
    ensures AllFit(cs, ns[..k + 1], aggregate) <==>
      var before := AddAll(cs, ns[..k], aggregate);
      var i := Find(before, ns[k].index);
      AllFit(cs, ns[..k], aggregate) && (aggregate && i < |before| ==> Fits(before[i], ns[k]))
  {
    assert ns[..k + 1][..k] == ns[..k];
  }

  /** A failure on the way is a failure of the whole merge. */
  lemma {:induction false} FitsSoFar(cs: seq<Completion>, ns: seq<Completion>, k: nat, aggregate: bool)
    requires k <= |ns| && AllFit(cs, ns, aggregate)
    ensures AllFit(cs, ns[..k], aggregate)
  {
    if k == |ns| {
      assert ns[..k] == ns;
    } else {
      FitsSoFar(cs, ns[..|ns| - 1], k, aggregate);
      assert ns[..|ns| - 1][..k] == ns[..k];
    }
  }

  lemma FindAppended(cs: seq<Completion>, n: Completion, x: int)
    ensures Find(cs + [n], x) ==
      if Find(cs, x) < |cs| then Find(cs, x) else if n.index == x then |cs| else |cs| + 1
  {
    var i := if Find(cs, x) < |cs| then Find(cs, x) else if n.index == x then |cs| else |cs| + 1;
    FindIs(cs + [n], i, x);
  }

  /** Extending never changes whether a completion carries logprobs: the first one with its index decides. */
  lemma {:induction false} FirstDecides(cs: seq<Completion>, ns: seq<Completion>, x: int)
    ensures var r, all := AddAll(cs, ns, true), cs + ns;
      && (Find(r, x) < |r| <==> Find(all, x) < |all|)
      && (Find(r, x) < |r| ==> (r[Find(r, x)].logprobs.Some? <==> all[Find(all, x)].logprobs.Some?))
  {
    if ns == [] {
      assert cs + ns == cs;
    } else {
      var k := |ns| - 1;
      FirstDecides(cs, ns[..k], x);
      assert cs + ns == cs + ns[..k] + [ns[k]];
      FindAppended(cs + ns[..k], ns[k], x);
      FindAfterAddOne(AddAll(cs, ns[..k], true), ns[k], true, x);
    }
  }

  /** The first completion with the index of `ns[k]`, if there is one before it, has logprobs if `ns[k]` has any. */
  ghost predicate MayBring(cs: seq<Completion>, ns: seq<Completion>, k: nat)
    requires k < |ns|
  {
    var all := cs + ns[..k];
    var i := Find(all, ns[k].index);
    i < |all| && ns[k].logprobs.Some? && |ns[k].logprobs.value| > 0 ==> all[i].logprobs.Some?
  }

  ghost predicate AllMayBring(cs: seq<Completion>, ns: seq<Completion>) {
    forall k: nat :: k < |ns| ==> MayBring(cs, ns, k)
  }

  lemma AllMayBringNext(cs: seq<Completion>, ns: seq<Completion>)
    requires ns != []
    ensures AllMayBring(cs, ns) <==> AllMayBring(cs, ns[..|ns| - 1]) && MayBring(cs, ns, |ns| - 1)
  {
    hide Find;
    var n := |ns| - 1;
    forall k: nat | k < n ensures MayBring(cs, ns[..n], k) == MayBring(cs, ns, k) {
      assert ns[..n][..k] == ns[..k];
    }
  }

  /** Exactly when the assertions on logprobs hold: always when replacing; when aggregating, as `MayBring` says. */
  lemma {:induction false} AllFitIff(cs: seq<Completion>, ns: seq<Completion>, aggregate: bool)
    ensures AllFit(cs, ns, aggregate) <==> !aggregate || AllMayBring(cs, ns)
  {
    hide Find, AllMayBring;
    if ns == [] {
      NothingBrought(cs);
    } else {
      var n := |ns| - 1;
      AllFitIff(cs, ns[..n], aggregate);
      FirstDecides(cs, ns[..n], ns[n].index);
      AllMayBringNext(cs, ns);
    }
  }

  lemma NothingBrought(cs: seq<Completion>)
    ensures AllMayBring(cs, [])
  {
  }

  /** When logprobs are present everywhere or nowhere, no assertion fails. */
  lemma {:induction false} UniformFits(cs: seq<Completion>, ns: seq<Completion>, aggregate: bool, present: bool)
    requires Uniform(cs, present) && Uniform(ns, present)
    ensures AllFit(cs, ns, aggregate)
  {
    if ns == [] {
    } else {
      UniformFits(cs, ns[..|ns| - 1], aggregate, present);
      AddAllKeepsUniform(cs, ns[..|ns| - 1], aggregate, present);
    }
  }

  lemma NoObjects()
    ensures Objects([]) == {} && Distinct([])
  {
  }

  lemma OneMoreObject(os: seq<CompletionOutput>, c: CompletionOutput)
    requires Distinct(os) && c !in os
    ensures Objects(os + [c]) == Objects(os) + {c} && Distinct(os + [c])
    ensures Views(os + [c]) == Views(os) + [c.Abs()]
  {
    assert forall i :: 0 <= i < |os| ==> (os + [c])[i] == os[i];
    assert (os + [c])[..|os|] == os && (os + [c])[|os|] == c;
  }

  /** An output with completions of its own. */
  method MakeOutput(r: Request) returns (o: RequestOutput)
    ensures fresh(o) && fresh(Objects(o.outputs)) && Distinct(o.outputs) && o.Abs() == r
  {
    hide Views, Objects, Distinct;
    var os: seq<CompletionOutput> := [];
    NoObjects();
    for i := 0 to |r.outputs|
      invariant |os| == i && fresh(Objects(os)) && Distinct(os) && Views(os) == r.outputs[..i]
    {
      var c := new CompletionOutput(r.outputs[i]);
      OneMoreObject(os, c);
      os := os + [c];
    }
    o := new RequestOutput(os, r.finished, r.kvTransferParams);
  }
}
