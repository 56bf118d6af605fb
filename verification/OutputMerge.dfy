/**
 Merging streamed request outputs: completions with the same index are extended or replaced in
 place, new indices are added at the end.
 */
module OutputMerge {
  import opened Wrappers
  import opened LogprobDict

  datatype Completion = Completion(
    index: int, text: string, tokens: seq<int>, cumulativeLogprob: Option<real>,
    logprobs: Option<seq<Dict>>, finishReason: Option<string>, stopReason: Option<string>)

  /** The assertion in the merge: logprobs may only arrive for a completion that has logprobs. */
  predicate Fits(c: Completion, n: Completion) {
    n.logprobs.Some? && n.logprobs.value != [] ==> c.logprobs.Some?
  }

  /** `n` appended to `c`. */
  function Extend(c: Completion, n: Completion): Completion {
    Completion(
      c.index, c.text + n.text, c.tokens + n.tokens, n.cumulativeLogprob,
      if n.logprobs.Some? && n.logprobs.value != [] && c.logprobs.Some?
      then Some(c.logprobs.value + n.logprobs.value) else c.logprobs,
      n.finishReason, n.stopReason)
  }

  function Merge(c: Completion, n: Completion, aggregate: bool): Completion {
    if aggregate then Extend(c, n) else n
  }

  /** The position of the completion with index `x`, or the length. */
  function Find(cs: seq<Completion>, x: int): (i: nat)
    ensures i <= |cs|
    ensures i < |cs| ==> cs[i].index == x
    ensures forall j :: 0 <= j < i ==> cs[j].index != x
  {
    if cs == [] || cs[0].index == x then 0 else 1 + Find(cs[1..], x)
  }

  function AddOne(cs: seq<Completion>, n: Completion, aggregate: bool): seq<Completion> {
    var i := Find(cs, n.index);
    if i < |cs| then cs[i := Merge(cs[i], n, aggregate)] else cs + [n]
  }

  function AddAll(cs: seq<Completion>, ns: seq<Completion>, aggregate: bool): seq<Completion> {
    if ns == [] then cs
    else AddOne(AddAll(cs, ns[..|ns| - 1], aggregate), ns[|ns| - 1], aggregate)
  }

  ghost predicate UniqueIndices(cs: seq<Completion>) {
    forall i, j :: 0 <= i < j < |cs| ==> cs[i].index != cs[j].index
  }

  /** Either every completion carries logprobs or none does. */
  ghost predicate Uniform(cs: seq<Completion>, present: bool) {
    forall i :: 0 <= i < |cs| ==> cs[i].logprobs.Some? == present
  }

  lemma FindIs(cs: seq<Completion>, i: nat, x: int)
    requires i <= |cs|
    requires i < |cs| ==> cs[i].index == x
    requires forall j :: 0 <= j < i ==> cs[j].index != x
    ensures Find(cs, x) == i
  {
  }

  /** Where an index sits after one step. */
  lemma FindAfterAddOne(cs: seq<Completion>, n: Completion, aggregate: bool, x: int)
    ensures var r := AddOne(cs, n, aggregate);
      && |r| >= |cs|
      && (forall i :: 0 <= i < |cs| ==> r[i].index == cs[i].index)
      && Find(r, x) == if Find(cs, x) < |cs| then Find(cs, x) else if x == n.index then |cs| else |r|
  {
    var r := AddOne(cs, n, aggregate);
    FindIs(r, if Find(cs, x) < |cs| then Find(cs, x) else if x == n.index then |cs| else |r|, x);
  }

  lemma AddOneKeepsUnique(cs: seq<Completion>, n: Completion, aggregate: bool)
    requires UniqueIndices(cs)
    ensures UniqueIndices(AddOne(cs, n, aggregate))
  {
  }

  lemma {:induction false} AddAllKeepsUnique(cs: seq<Completion>, ns: seq<Completion>, aggregate: bool)
    requires UniqueIndices(cs)
    ensures UniqueIndices(AddAll(cs, ns, aggregate))
  {
    if ns == [] {
    } else {
      AddAllKeepsUnique(cs, ns[..|ns| - 1], aggregate);
      AddOneKeepsUnique(AddAll(cs, ns[..|ns| - 1], aggregate), ns[|ns| - 1], aggregate);
    }
  }

  lemma {:induction false} AddAllKeepsUniform(cs: seq<Completion>, ns: seq<Completion>, aggregate: bool, present: bool)
    requires Uniform(cs, present) && Uniform(ns, present)
    ensures Uniform(AddAll(cs, ns, aggregate), present)
  {
    if ns == [] {
    } else {
      AddAllKeepsUniform(cs, ns[..|ns| - 1], aggregate, present);
    }
  }

  // ----- associativity -----

  lemma MergeTwice(c: Completion, y: Completion, z: Completion, aggregate: bool)
    requires y.index == z.index == c.index
    requires c.logprobs.Some? == y.logprobs.Some? == z.logprobs.Some?
    ensures Merge(Merge(c, y, aggregate), z, aggregate) == Merge(c, Merge(y, z, aggregate), aggregate)
  {
    assert c.text + y.text + z.text == c.text + (y.text + z.text);
    assert c.tokens + y.tokens + z.tokens == c.tokens + (y.tokens + z.tokens);
    if c.logprobs.Some? {
      var p, q, r := c.logprobs.value, y.logprobs.value, z.logprobs.value;
      assert p + q + r == p + (q + r);
      assert p + [] == p && q + [] == q && [] + r == r;
    }
  }

  lemma SameIndexTwice(cs: seq<Completion>, y: Completion, z: Completion, aggregate: bool, present: bool)
    requires y.index == z.index && Uniform(cs, present) && Uniform([y, z], present)
    ensures AddOne(AddOne(cs, y, aggregate), z, aggregate) == AddOne(cs, Merge(y, z, aggregate), aggregate)
  {
    FindAfterAddOne(cs, y, aggregate, z.index);
    assert [y, z][0] == y && [y, z][1] == z;
    var i := Find(cs, y.index);
    if i < |cs| {
      MergeTwice(cs[i], y, z, aggregate);
    }
  }

  lemma UpdatesCommute(s: seq<Completion>, i: nat, u: Completion, j: nat, v: Completion)
    requires i < |s| && j < |s| && i != j
    ensures s[i := u][j := v] == s[j := v][i := u]
  {
  }

  lemma AppendCommutes(s: seq<Completion>, i: nat, u: Completion, v: Completion)
    requires i < |s|
    ensures s[i := u] + [v] == (s + [v])[i := u]
  {
  }

  lemma OtherIndexCommutes(cs: seq<Completion>, y: Completion, z: Completion, aggregate: bool)
    requires y.index != z.index && Find(cs, z.index) < |cs|
    ensures AddOne(AddOne(cs, z, aggregate), y, aggregate) == AddOne(AddOne(cs, y, aggregate), z, aggregate)
  {
    hide Find, Merge;
    FindAfterAddOne(cs, z, aggregate, y.index);
    FindAfterAddOne(cs, y, aggregate, z.index);
    var i, j := Find(cs, z.index), Find(cs, y.index);
    var zi := Merge(cs[i], z, aggregate);
    if j < |cs| {
      UpdatesCommute(cs, i, zi, j, Merge(cs[j], y, aggregate));
    } else {
      AppendCommutes(cs, i, zi, y);
    }
  }

  lemma {:induction false} AddedIndicesAreFound(cs: seq<Completion>, ns: seq<Completion>, aggregate: bool, x: int)
    requires Find(cs, x) < |cs| || Find(ns, x) < |ns|
    ensures var r := AddAll(cs, ns, aggregate); Find(r, x) < |r|
  {
    if ns == [] {
    } else {
      var n := |ns| - 1;
      var before := AddAll(cs, ns[..n], aggregate);
      FindAfterAddOne(before, ns[n], aggregate, x);
      if ns[n].index != x {
        if Find(ns, x) < |ns| { FindIs(ns[..n], Find(ns, x), x); }
        AddedIndicesAreFound(cs, ns[..n], aggregate, x);
      }
    }
  }

  /** An increment whose last completion is not the one `z` belongs to. */
  lemma AddOneBeforeLast(b: seq<Completion>, z: Completion, aggregate: bool)
    requires b != [] && Find(b, z.index) < |b| - 1
    ensures var n := |b| - 1;
      && AddOne(b, z, aggregate) == AddOne(b[..n], z, aggregate) + [b[n]]
      && |AddOne(b[..n], z, aggregate)| == n && Find(b[..n], z.index) < n
  {
    hide Find, Merge;
    var n := |b| - 1;
    FindIs(b[..n], Find(b, z.index), z.index);
  }

  lemma AddAllSnoc(a: seq<Completion>, b: seq<Completion>, y: Completion, aggregate: bool)
    ensures AddAll(a, b + [y], aggregate) == AddOne(AddAll(a, b, aggregate), y, aggregate)
  {
    assert (b + [y])[..|b|] == b;
  }

  /** Adding `z` to the increment before merging, or after, is the same. */
  lemma {:induction false} AddOneInside(
    a: seq<Completion>, b: seq<Completion>, z: Completion, aggregate: bool, present: bool)
    requires UniqueIndices(b) && Uniform(a, present) && Uniform(b, present) && z.logprobs.Some? == present
    ensures AddAll(a, AddOne(b, z, aggregate), aggregate) == AddOne(AddAll(a, b, aggregate), z, aggregate)
  {
    hide Find, AddAll, Merge;
    var i := Find(b, z.index);
    if i == |b| {
      AddAllSnoc(a, b, z, aggregate);
    } else {
      var n := |b| - 1;
      var y := b[n];
      var x := AddAll(a, b[..n], aggregate);
      assert b == b[..n] + [y];
      AddAllSnoc(a, b[..n], y, aggregate);
      AddAllKeepsUniform(a, b[..n], aggregate, present);
      if i == n {
        assert AddOne(b, z, aggregate) == b[..n] + [Merge(y, z, aggregate)];
        AddAllSnoc(a, b[..n], Merge(y, z, aggregate), aggregate);
        SameIndexTwice(x, y, z, aggregate, present);
      } else {
        AddOneBeforeLast(b, z, aggregate);
        AddAllSnoc(a, AddOne(b[..n], z, aggregate), y, aggregate);
        AddOneInside(a, b[..n], z, aggregate, present);
        AddedIndicesAreFound(a, b[..n], aggregate, z.index);
        OtherIndexCommutes(x, y, z, aggregate);
      }
    }
  }

  /** Merging is associative, so it does not matter which neighbours are merged first. */
  lemma {:induction false} AddAllAssociative(
    a: seq<Completion>, b: seq<Completion>, c: seq<Completion>, aggregate: bool, present: bool)
    requires UniqueIndices(b) && Uniform(a, present) && Uniform(b, present) && Uniform(c, present)
    ensures AddAll(AddAll(a, b, aggregate), c, aggregate) == AddAll(a, AddAll(b, c, aggregate), aggregate)
  {
    if c == [] {
    } else {
      var n := |c| - 1;
      AddAllAssociative(a, b, c[..n], aggregate, present);
      var inner := AddAll(b, c[..n], aggregate);
      AddAllKeepsUnique(b, c[..n], aggregate);
      AddAllKeepsUniform(b, c[..n], aggregate, present);
      AddOneInside(a, inner, c[n], aggregate, present);
    }
  }
}
