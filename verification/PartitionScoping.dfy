/**
 Running the partitions one after the other, with only the buffers their signatures pass on:
 every partition finds its inputs, nothing useless is returned, and the graph computes the
 same values as it would with every buffer in scope.
 */
module PartitionScoping {
  import opened PartitionModel

  // ----- what the scheduler's tables say about names -----

  ghost predicate HasNoLayout(g: Graph, n: Name) {
    n in g.buffers && g.buffers[n].noneLayout
  }

  /** A buffer that only records the mutation of another one. */
  ghost predicate RecordsMutation(g: Graph, n: Name) {
    n in g.buffers && g.buffers[n].mutationOutput && n in g.realName && g.realName[n] != ""
  }

  /** No memory: no layout of its own, and if it records a mutation, none of the mutated buffer either. */
  ghost predicate Unallocated(g: Graph, n: Name) {
    HasNoLayout(g, n) && (RecordsMutation(g, n) ==> HasNoLayout(g, g.realName[n]))
  }

  /** `m` is `n`, or has been renamed to it. */
  ghost predicate StandsFor(g: Graph, m: Name, n: Name) {
    (m in g.realName && g.realName[m] == n) || (m !in g.realName && m == n)
  }

  /** The recursion over mutations holds of exactly the buffers without memory. */
  lemma NoneLayoutIff(g: Graph)
    requires FinalNames(g)
    ensures forall n :: IsNoneLayout(g, n) <==> Unallocated(g, n)
  {
    forall n ensures IsNoneLayout(g, n) <==> Unallocated(g, n) {
      if RecordsMutation(g, n) {
        var r := g.realName[n];
        assert r !in g.realName;
        assert IsNoneLayout(g, r) <==> HasNoLayout(g, r);
      }
    }
  }

  lemma RealIff(g: Graph)
    ensures forall m, n :: Real(g, m) == n <==> StandsFor(g, m, n)
  {
  }

  ghost predicate Touches(g: Graph, p: Partition, n: Name) {
    exists m :: m in p.read + p.written && m !in p.produced && !Unallocated(g, m) && StandsFor(g, m, n)
  }

  /** The buffers a partition needs from outside, by real name. */
  ghost function Needs(g: Graph, p: Partition): set<Name> {
    set n | n in g.nodes && (Touches(g, p, n) || n in p.lastUsed - p.produced)
  }

  /** A graph input, or the output of one of the first `i` partitions. */
  ghost predicate Available(inputs: set<Name>, ps: seq<Partition>, i: nat, n: Name)
    requires i <= |ps|
  {
    n in inputs || exists j :: 0 <= j < i && n in ps[j].produced
  }

  ghost predicate IsRealBuffer(g: Graph, n: Name) {
    n !in g.realName && !Unallocated(g, n)
  }

  /** Every buffer has one producer, which is a graph input or a partition. */
  ghost predicate OneProducer(g: Graph, inputs: set<Name>, ps: seq<Partition>) {
    && (forall i, j :: 0 <= i < j < |ps| ==> ps[i].produced !! ps[j].produced)
    && (forall i :: 0 <= i < |ps| ==> inputs !! ps[i].produced && ps[i].produced <= g.nodes)
  }

  /** What a partition needs is real, allocated, and already there. */
  ghost predicate DefinedBeforeUse(g: Graph, inputs: set<Name>, ps: seq<Partition>)
    requires FinalNames(g)
  {
    && (forall i, n :: 0 <= i < |ps| && n in Needs(g, ps[i]) ==> IsRealBuffer(g, n) && Available(inputs, ps, i, n))
    && (forall n :: n in g.outputs * g.nodes ==> IsRealBuffer(g, n) && Available(inputs, ps, |ps|, n))
  }

  ghost predicate NotUsedAfterLastUse(g: Graph, ps: seq<Partition>)
    requires FinalNames(g)
  {
    forall i :: 0 <= i < |ps| ==>
      && ps[i].lastUsed !! g.outputs
      && forall j :: i < j < |ps| ==> ps[i].lastUsed !! Needs(g, ps[j])
  }

  /** What the scheduler guarantees about the partitions it hands over. */
  ghost predicate WellFormed(g: Graph, inputs: set<Name>, ps: seq<Partition>) {
    && FinalNames(g)
    && OneProducer(g, inputs, ps)
    && DefinedBeforeUse(g, inputs, ps)
    && NotUsedAfterLastUse(g, ps)
  }

  // ----- what stays demanded from one partition to the next -----

  lemma InputsAreNeeds(g: Graph, p: Partition)
    requires FinalNames(g)
    ensures InputNames(g, p) * g.nodes == Needs(g, p)
  {
    hide FinalNames, IsNoneLayout, Real, Unallocated, StandsFor;
    NoneLayoutIff(g);
    RealIff(g);
    forall n | n in g.nodes ensures n in InputNames(g, p) <==> n in Needs(g, p) {
      if Touches(g, p, n) {
        var m :| m in p.read + p.written && m !in p.produced && !Unallocated(g, m) && StandsFor(g, m, n);
        assert Real(g, m) == n;
      }
    }
  }

  /** A partition that touches a recorded mutation takes the mutated buffer as an input iff that is allocated. */
  lemma MutationIsFollowed(g: Graph, p: Partition, m: Name)
    requires FinalNames(g) && m in p.read + p.written && m !in p.produced
    requires HasNoLayout(g, m) && RecordsMutation(g, m)
    ensures var r := g.realName[m];
      && (r in g.nodes && !HasNoLayout(g, r) ==> r in InputNames(g, p) * g.nodes)
      && (r !in p.lastUsed && (forall o :: o in p.read + p.written && StandsFor(g, o, r) ==> o == m) ==>
            (r in InputNames(g, p) * g.nodes <==> r in g.nodes && !HasNoLayout(g, r)))
  {
    InputsAreNeeds(g, p);
    var r := g.realName[m];
    assert StandsFor(g, m, r);
    assert Unallocated(g, m) <==> HasNoLayout(g, r);
  }

  /** The constants among the declared inputs, node or not. */
  ghost function NeededConstants(g: Graph, p: Partition): set<Name> {
    set n | n in g.constants && (Touches(g, p, n) || (n in g.nodes && n in p.lastUsed - p.produced))
  }

  lemma ConstantsAreNeeded(g: Graph, p: Partition)
    requires FinalNames(g)
    ensures InputNames(g, p) * g.constants == NeededConstants(g, p)
  {
    hide FinalNames, IsNoneLayout, Real, Unallocated, StandsFor;
    NoneLayoutIff(g);
    RealIff(g);
    forall n | n in g.constants ensures n in InputNames(g, p) <==> n in NeededConstants(g, p) {
      if Touches(g, p, n) {
        var m :| m in p.read + p.written && m !in p.produced && !Unallocated(g, m) && StandsFor(g, m, n);
        assert Real(g, m) == n;
      }
    }
  }

  /** Some partition from `i` on needs `n`, or the graph returns it. */
  ghost predicate Demanded(g: Graph, ps: seq<Partition>, i: nat, n: Name)
    requires FinalNames(g) && i <= |ps|
  {
    n in g.outputs || exists j :: i <= j < |ps| && n in Needs(g, ps[j])
  }

  lemma DemandedIsReal(g: Graph, inputs: set<Name>, ps: seq<Partition>, i: nat, n: Name)
    requires WellFormed(g, inputs, ps) && i <= |ps| && n in g.nodes && Demanded(g, ps, i, n)
    ensures IsRealBuffer(g, n)
    ensures forall k :: 0 <= k < i ==> n !in ps[k].lastUsed
  {
    hide OneProducer, IsRealBuffer, Available, Needs;
    if n in g.outputs {
      assert n in g.outputs * g.nodes;
      forall k | 0 <= k < i ensures n !in ps[k].lastUsed {
        assert ps[k].lastUsed !! g.outputs;
      }
    } else {
      var j :| i <= j < |ps| && n in Needs(g, ps[j]);
      assert IsRealBuffer(g, n);
      forall k | 0 <= k < i ensures n !in ps[k].lastUsed {
        assert ps[k].lastUsed !! Needs(g, ps[j]);
      }
    }
  }

  /** What a partition returns: what it made and is asked for, and the inputs it did not free. */
  lemma ReturnedExactly(g: Graph, p: Partition, unmet: set<Name>, n: Name)
    requires FinalNames(g)
    requires forall m :: m in g.nodes && (m in unmet || m in Needs(g, p)) ==> IsRealBuffer(g, m)
    requires p.produced <= g.nodes
    ensures n in g.nodes ==>
      (n in ReturnedNames(g, p, unmet) <==>
        (n in p.produced && n in unmet) || (n in Needs(g, p) && n !in p.lastUsed))
    ensures n in ReturnedNames(g, p, unmet) ==> IsRealBuffer(g, n)
    ensures ReturnedNames(g, p, unmet) <= g.nodes
  {
    hide IsNoneLayout, Unallocated, Needs, InputNames;
    InputsAreNeeds(g, p);
    var kept := set m | m in InputNames(g, p) && m in g.nodes && m !in p.lastUsed;
    var from := p.produced * unmet + kept;
    assert forall m :: m in kept ==> m in InputNames(g, p) * g.nodes;
    assert forall m :: m in from ==> m in g.nodes && Real(g, m) == m;
    assert n in from <==> (n in p.produced && n in unmet) || (n in InputNames(g, p) * g.nodes && n !in p.lastUsed);
    assert n in from ==> Real(g, n) == n;
  }

  /** A name the partition passes on: of a buffer it made and is asked for, or of an input it did not free. */
  ghost predicate PassesOn(g: Graph, p: Partition, unmet: set<Name>, m: Name)
    requires FinalNames(g)
  {
    (m in p.produced && m in unmet) || (m in Needs(g, p) && m !in p.lastUsed)
  }

  /** In any graph, the outputs are the allocated buffers that the names passed on stand for. */
  lemma OutputsByRealName(g: Graph, p: Partition, unmet: set<Name>, skip: bool, n: Name)
    requires FinalNames(g)
    ensures n in SignatureOf(g, p, unmet, skip).outputs <==>
      !Unallocated(g, n) && exists m :: PassesOn(g, p, unmet, m) && StandsFor(g, m, n)
  {
    hide IsNoneLayout, Unallocated, Needs, InputNames, StandsFor, Real, FinalNames;
    NoneLayoutIff(g);
    RealIff(g);
    InputsAreNeeds(g, p);
    var kept := set m | m in InputNames(g, p) && m in g.nodes && m !in p.lastUsed;
    var from := p.produced * unmet + kept;
    forall m ensures m in from <==> PassesOn(g, p, unmet, m) {
      assert m in kept <==> m in InputNames(g, p) * g.nodes && m !in p.lastUsed;
    }
    assert n in ReturnedNames(g, p, unmet) <==> exists m :: m in from && Real(g, m) == n;
  }

  /** Names the partitions from `i` on, or the graph's caller, will ask for and that exist before `i`. */
  lemma NextDemand(g: Graph, inputs: set<Name>, ps: seq<Partition>, i: nat, n: Name)
    requires WellFormed(g, inputs, ps) && i < |ps|
    ensures Demanded(g, ps, i, n) <==> n in Needs(g, ps[i]) || Demanded(g, ps, i + 1, n)
    ensures Available(inputs, ps, i + 1, n) <==> Available(inputs, ps, i, n) || n in ps[i].produced
    ensures Available(inputs, ps, i, n) ==> n !in ps[i].produced
    ensures n in Needs(g, ps[i]) ==> n in g.nodes && IsRealBuffer(g, n) && Available(inputs, ps, i, n)
  {
    hide NotUsedAfterLastUse, Touches, IsRealBuffer;
    if Available(inputs, ps, i, n) && n !in inputs {
      var j :| 0 <= j < i && n in ps[j].produced;
      assert ps[j].produced !! ps[i].produced;
    }
  }

  /** The set that the backward pass carries holds exactly the demanded names that exist by then. */
  lemma {:induction false} UnmetIsDemand(g: Graph, inputs: set<Name>, ps: seq<Partition>, i: nat, n: Name)
    requires WellFormed(g, inputs, ps) && i <= |ps| && n in g.nodes
    ensures n in Unmet(g, ps[i..]) <==> Demanded(g, ps, i, n) && Available(inputs, ps, i, n)
    decreases |ps| - i
  {
    hide NotUsedAfterLastUse, OneProducer, InputNames, ReturnedNames, Needs, IsRealBuffer, IsNoneLayout;
    if i == |ps| {
      assert ps[i..] == [];
      if n in g.outputs { assert n in g.outputs * g.nodes; }
    } else {
      assert ps[i..][1..] == ps[i + 1..];
      hide DefinedBeforeUse, Available, Demanded;
      UnmetIsDemand(g, inputs, ps, i + 1, n);
      NextDemand(g, inputs, ps, i, n);
      InputsAreNeeds(g, ps[i]);
      ReturnedAt(g, inputs, ps, i, n);
    }
  }

  lemma ReturnedAt(g: Graph, inputs: set<Name>, ps: seq<Partition>, i: nat, n: Name)
    requires WellFormed(g, inputs, ps) && i < |ps|
    ensures var returned := ReturnedNames(g, ps[i], Unmet(g, ps[i + 1..]));
      && returned <= g.nodes && (n in returned ==> IsRealBuffer(g, n))
      && (n in g.nodes ==>
            (n in returned <==>
              (n in ps[i].produced && n in Unmet(g, ps[i + 1..])) || (n in Needs(g, ps[i]) && n !in ps[i].lastUsed)))
    decreases |ps| - i, 0
  {
    hide NotUsedAfterLastUse, DefinedBeforeUse, InputNames, ReturnedNames, Needs, IsRealBuffer, IsNoneLayout,
         Available, Demanded;
    forall m | m in g.nodes && (m in Unmet(g, ps[i + 1..]) || m in Needs(g, ps[i]))
      ensures IsRealBuffer(g, m)
    {
      if m in Needs(g, ps[i]) {
        NextDemand(g, inputs, ps, i, m);
      } else {
        UnmetIsDemand(g, inputs, ps, i + 1, m);
        DemandedIsReal(g, inputs, ps, i + 1, m);
      }
    }
    ReturnedExactly(g, ps[i], Unmet(g, ps[i + 1..]), n);
  }

  // ----- what the signatures say -----

  lemma SignatureShape(g: Graph, inputs: set<Name>, ps: seq<Partition>, skips: seq<bool>, i: nat, n: Name)
    requires WellFormed(g, inputs, ps) && i < |ps| == |skips|
    ensures var s := SignatureAt(g, ps, skips, i);
      && s.inputs == Needs(g, ps[i]) == s.deallocated.Keys
      && s.constants == NeededConstants(g, ps[i]) && s.skipCudagraph == skips[i]
      && (n in Needs(g, ps[i]) ==> s.deallocated[n] == (n in ps[i].lastUsed))
      && s.outputs <= g.nodes
      && (n in g.nodes ==> (n in s.outputs <==>
           (n in ps[i].produced && Demanded(g, ps, i + 1, n)) || (n in Needs(g, ps[i]) && n !in ps[i].lastUsed)))
  {
    hide NotUsedAfterLastUse, DefinedBeforeUse, InputNames, ReturnedNames, Needs, NeededConstants, Unmet, Demanded,
         IsNoneLayout, Unallocated;
    InputsAreNeeds(g, ps[i]);
    ConstantsAreNeeded(g, ps[i]);
    NoneLayoutIff(g);
    ReturnedAt(g, inputs, ps, i, n);
    if n in g.nodes {
      UnmetIsDemand(g, inputs, ps, i + 1, n);
    }
  }

  /**
   Exactness: a partition returns a buffer it makes iff the graph returns that buffer or some
   later partition takes it as an input; and it returns an input iff it does not free it.
   */
  lemma ReturnsExactlyWhatIsAskedFor(g: Graph, inputs: set<Name>, ps: seq<Partition>, skips: seq<bool>, i: nat, n: Name)
    requires WellFormed(g, inputs, ps) && i < |ps| == |skips|
    ensures n in ps[i].produced ==>
      (n in SignatureAt(g, ps, skips, i).outputs <==>
        n in g.outputs || exists j :: i < j < |ps| && n in SignatureAt(g, ps, skips, j).inputs)
    ensures n in g.nodes - ps[i].produced ==>
      (n in SignatureAt(g, ps, skips, i).outputs <==>
        n in SignatureAt(g, ps, skips, i).inputs && !SignatureAt(g, ps, skips, i).deallocated[n])
  {
    hide NotUsedAfterLastUse, DefinedBeforeUse, Needs, SignatureAt, Available;
    forall j: nat | i <= j < |ps|
      ensures SignatureAt(g, ps, skips, j).inputs == Needs(g, ps[j])
    {
      SignatureShape(g, inputs, ps, skips, j, n);
    }
    SignatureShape(g, inputs, ps, skips, i, n);
    NextDemand(g, inputs, ps, i, n);
  }

  // ----- running the partitions -----

  /** What a partition computes from its inputs: the buffers it makes, and new values of the inputs. */
  type Kernel<!V> = (nat, map<Name, V>) -> map<Name, V>

  ghost predicate IsKernel<V(!new)>(ps: seq<Partition>, f: Kernel<V>) {
    forall i: nat, args :: i < |ps| ==> f(i, args).Keys == ps[i].produced + args.Keys
  }

  ghost function Restrict<V>(m: map<Name, V>, s: set<Name>): map<Name, V> {
    map n | n in m && n in s :: m[n]
  }

  /** Every buffer stays in scope: the meaning of the graph without partition signatures. */
  ghost function Whole<V>(g: Graph, values: map<Name, V>, ps: seq<Partition>, f: Kernel<V>, k: nat): map<Name, V>
    requires FinalNames(g) && k <= |ps|
  {
    if k == 0 then values
    else
      var env := Whole(g, values, ps, f, k - 1);
      env + f(k - 1, Restrict(env, Needs(g, ps[k - 1])))
  }

  ghost function Freed(s: Signature): set<Name> {
    set n | n in s.deallocated && s.deallocated[n]
  }

  /** Only what the signatures pass on: inputs go in, freed inputs disappear, outputs come back. */
  ghost function Scoped<V>(
      g: Graph, values: map<Name, V>, ps: seq<Partition>, skips: seq<bool>, f: Kernel<V>, k: nat): map<Name, V>
    requires FinalNames(g) && k <= |ps| == |skips|
  {
    if k == 0 then values
    else
      var live := Scoped(g, values, ps, skips, f, k - 1);
      var s := SignatureAt(g, ps, skips, k - 1);
      (live - Freed(s)) + Restrict(f(k - 1, Restrict(live, s.inputs)), s.outputs)
  }

  /** What is in scope before partition `k`. */
  ghost predicate ScopeInv<V>(
      g: Graph, values: map<Name, V>, ps: seq<Partition>, skips: seq<bool>, f: Kernel<V>, k: nat)
    requires FinalNames(g) && k <= |ps| == |skips|
  {
    var live := Scoped(g, values, ps, skips, f, k);
    var env := Whole(g, values, ps, f, k);
    && (forall n :: n in live ==> Available(values.Keys, ps, k, n) && n in env && live[n] == env[n])
    && (forall n :: n in g.nodes && Demanded(g, ps, k, n) && Available(values.Keys, ps, k, n) ==> n in live)
  }

  lemma StepValues<V(!new)>(
      g: Graph, values: map<Name, V>, ps: seq<Partition>, skips: seq<bool>, f: Kernel<V>, k: nat, n: Name)
    requires WellFormed(g, values.Keys, ps) && k < |ps| == |skips| && IsKernel(ps, f)
    requires ScopeInv(g, values, ps, skips, f, k)
    ensures var live := Scoped(g, values, ps, skips, f, k + 1);
      var env := Whole(g, values, ps, f, k + 1);
      n in live ==> Available(values.Keys, ps, k + 1, n) && n in env && live[n] == env[n]
  {
    hide NotUsedAfterLastUse, DefinedBeforeUse, OneProducer, Needs, SignatureAt, Demanded, Available,
         NeededConstants, IsRealBuffer;
    var live, env := Scoped(g, values, ps, skips, f, k), Whole(g, values, ps, f, k);
    SignatureShape(g, values.Keys, ps, skips, k, n);
    NextDemand(g, values.Keys, ps, k, n);
    InputsInScope(g, values, ps, skips, f, k);
    var s := SignatureAt(g, ps, skips, k);
    assert Restrict(live, s.inputs) == Restrict(env, s.inputs);
    var made := f(k, Restrict(live, s.inputs));
    assert made.Keys == ps[k].produced + s.inputs;
  }

  /** Soundness, one step: the declared inputs of the next partition are in scope. */
  lemma InputsInScope<V(!new)>(
      g: Graph, values: map<Name, V>, ps: seq<Partition>, skips: seq<bool>, f: Kernel<V>, k: nat)
    requires WellFormed(g, values.Keys, ps) && k < |ps| == |skips|
    requires ScopeInv(g, values, ps, skips, f, k)
    ensures SignatureAt(g, ps, skips, k).inputs <= Scoped(g, values, ps, skips, f, k).Keys
  {
    hide NotUsedAfterLastUse, DefinedBeforeUse, OneProducer, Needs, SignatureAt, Demanded, Available, Scoped, Whole;
    forall n | n in SignatureAt(g, ps, skips, k).inputs
      ensures n in Scoped(g, values, ps, skips, f, k)
    {
      SignatureShape(g, values.Keys, ps, skips, k, n);
      NextDemand(g, values.Keys, ps, k, n);
    }
  }

  lemma StepDemand<V(!new)>(
      g: Graph, values: map<Name, V>, ps: seq<Partition>, skips: seq<bool>, f: Kernel<V>, k: nat, n: Name)
    requires WellFormed(g, values.Keys, ps) && k < |ps| == |skips| && IsKernel(ps, f)
    requires ScopeInv(g, values, ps, skips, f, k)
    requires n in g.nodes && Demanded(g, ps, k + 1, n) && Available(values.Keys, ps, k + 1, n)
    ensures n in Scoped(g, values, ps, skips, f, k + 1)
  {
    hide NotUsedAfterLastUse, DefinedBeforeUse, OneProducer, Needs, SignatureAt, Demanded, Available;
    SignatureShape(g, values.Keys, ps, skips, k, n);
    NextDemand(g, values.Keys, ps, k, n);
    DemandedIsReal(g, values.Keys, ps, k + 1, n);
    InputsInScope(g, values, ps, skips, f, k);
  }

  lemma ScopeStarts<V(!new)>(g: Graph, values: map<Name, V>, ps: seq<Partition>, skips: seq<bool>, f: Kernel<V>)
    requires FinalNames(g) && |ps| == |skips|
    ensures ScopeInv(g, values, ps, skips, f, 0)
  {
  }

  lemma {:induction false} RunKeepsScope<V(!new)>(
      g: Graph, values: map<Name, V>, ps: seq<Partition>, skips: seq<bool>, f: Kernel<V>, k: nat)
    requires WellFormed(g, values.Keys, ps) && k <= |ps| == |skips| && IsKernel(ps, f)
    ensures ScopeInv(g, values, ps, skips, f, k)
  {
    hide NotUsedAfterLastUse, DefinedBeforeUse, OneProducer, Demanded, Scoped, Whole;
    if k == 0 {
      ScopeStarts(g, values, ps, skips, f);
    } else {
      RunKeepsScope(g, values, ps, skips, f, k - 1);
      var live, env := Scoped(g, values, ps, skips, f, k), Whole(g, values, ps, f, k);
      forall n | n in live
        ensures Available(values.Keys, ps, k, n) && n in env && live[n] == env[n]
      {
        StepValues(g, values, ps, skips, f, k - 1, n);
      }
      forall n | n in g.nodes && Demanded(g, ps, k, n) && Available(values.Keys, ps, k, n)
        ensures n in live
      {
        StepDemand(g, values, ps, skips, f, k - 1, n);
      }
    }
  }

  /**
   Soundness and preservation of meaning: at every step the declared inputs are in scope, and in
   the end every buffer the graph returns is in scope with the value it has when nothing is ever
   dropped, whatever the partitions compute.
   */
  lemma ScopingPreservesMeaning<V(!new)>(
      g: Graph, values: map<Name, V>, ps: seq<Partition>, skips: seq<bool>, f: Kernel<V>, n: Name)
    requires WellFormed(g, values.Keys, ps) && |ps| == |skips| && IsKernel(ps, f)
    ensures forall k :: 0 <= k < |ps| ==>
      SignatureAt(g, ps, skips, k).inputs <= Scoped(g, values, ps, skips, f, k).Keys
    ensures n in g.outputs * g.nodes ==>
      && n in Scoped(g, values, ps, skips, f, |ps|) && n in Whole(g, values, ps, f, |ps|)
      && Scoped(g, values, ps, skips, f, |ps|)[n] == Whole(g, values, ps, f, |ps|)[n]
  {
    hide NotUsedAfterLastUse, OneProducer, Available, Scoped, Whole, SignatureAt;
    forall k | 0 <= k < |ps|
      ensures SignatureAt(g, ps, skips, k).inputs <= Scoped(g, values, ps, skips, f, k).Keys
    {
      RunKeepsScope(g, values, ps, skips, f, k);
      InputsInScope(g, values, ps, skips, f, k);
    }
    RunKeepsScope(g, values, ps, skips, f, |ps|);
  }

  /** The scheduler records a last use: a needed buffer is freed there unless it is asked for again. */
  ghost predicate LastUseRecorded(g: Graph, ps: seq<Partition>)
    requires FinalNames(g)
  {
    forall i, n :: 0 <= i < |ps| && n in Needs(g, ps[i]) ==> n in ps[i].lastUsed || Demanded(g, ps, i + 1, n)
  }

  lemma ScopedStart<V(!new)>(g: Graph, values: map<Name, V>, ps: seq<Partition>, skips: seq<bool>, f: Kernel<V>)
    requires FinalNames(g) && |ps| == |skips|
    ensures Scoped(g, values, ps, skips, f, 0) == values
  {
  }

  /** What is in scope after partition `k` was kept, or came out of the partition. */
  lemma ScopedNext<V(!new)>(
      g: Graph, values: map<Name, V>, ps: seq<Partition>, skips: seq<bool>, f: Kernel<V>, k: nat, n: Name)
    requires FinalNames(g) && k < |ps| == |skips| && IsKernel(ps, f)
    requires n in Scoped(g, values, ps, skips, f, k + 1)
    ensures var s := SignatureAt(g, ps, skips, k);
      || (n in Scoped(g, values, ps, skips, f, k) && n !in Freed(s))
      || (n in s.outputs && n in ps[k].produced + s.inputs)
  {
    hide SignatureAt, FinalNames, Freed, Needs;
    var s := SignatureAt(g, ps, skips, k);
    var args := Restrict(Scoped(g, values, ps, skips, f, k), s.inputs);
    assert f(k, args).Keys == ps[k].produced + args.Keys;
  }

  /** A buffer that is kept is still asked for. */
  lemma KeptIsDemanded(g: Graph, inputs: set<Name>, ps: seq<Partition>, skips: seq<bool>, k: nat, n: Name)
    requires WellFormed(g, inputs, ps) && k < |ps| == |skips| && LastUseRecorded(g, ps)
    requires Demanded(g, ps, k, n) && n !in Freed(SignatureAt(g, ps, skips, k))
    ensures Demanded(g, ps, k + 1, n)
  {
    hide WellFormed, Needs, SignatureAt, Demanded;
    SignatureShape(g, inputs, ps, skips, k, n);
    NextDemand(g, inputs, ps, k, n);
  }

  /** A buffer that is returned is asked for. */
  lemma ReturnedIsDemanded(g: Graph, inputs: set<Name>, ps: seq<Partition>, skips: seq<bool>, k: nat, n: Name)
    requires WellFormed(g, inputs, ps) && k < |ps| == |skips| && LastUseRecorded(g, ps)
    requires var s := SignatureAt(g, ps, skips, k); n in s.outputs && n in ps[k].produced + s.inputs
    ensures Demanded(g, ps, k + 1, n)
  {
    hide WellFormed, Needs, SignatureAt, Demanded;
    SignatureShape(g, inputs, ps, skips, k, n);
    ProducedAreNodes(g, inputs, ps, k);
  }

  /** Nothing leaks: a buffer made by a partition is in scope only as long as somebody will ask for it. */
  lemma {:induction false} NothingLeaks<V(!new)>(
      g: Graph, values: map<Name, V>, ps: seq<Partition>, skips: seq<bool>, f: Kernel<V>, k: nat, n: Name)
    requires WellFormed(g, values.Keys, ps) && k <= |ps| == |skips| && IsKernel(ps, f)
    requires LastUseRecorded(g, ps)
    requires n in Scoped(g, values, ps, skips, f, k) && n !in values
    ensures Demanded(g, ps, k, n)
  {
    hide OneProducer, DefinedBeforeUse, NotUsedAfterLastUse, LastUseRecorded, IsKernel,
         Needs, SignatureAt, Demanded, Freed, Scoped;
    ScopedStart(g, values, ps, skips, f);
    if k == 0 {
    } else {
      ScopedNext(g, values, ps, skips, f, k - 1, n);
      var s := SignatureAt(g, ps, skips, k - 1);
      if n in s.outputs && n in ps[k - 1].produced + s.inputs {
        ReturnedIsDemanded(g, values.Keys, ps, skips, k - 1, n);
      } else {
        NothingLeaks(g, values, ps, skips, f, k - 1, n);
        KeptIsDemanded(g, values.Keys, ps, skips, k - 1, n);
      }
    }
  }

  lemma ProducedAreNodes(g: Graph, inputs: set<Name>, ps: seq<Partition>, i: nat)
    requires WellFormed(g, inputs, ps) && i < |ps|
    ensures ps[i].produced <= g.nodes && Needs(g, ps[i]) <= g.nodes
  {
    hide NotUsedAfterLastUse, DefinedBeforeUse;
  }
}
