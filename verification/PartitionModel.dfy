/**
 Signatures of compiled graph partitions: which buffers a partition takes, returns and frees.
 */
module PartitionModel {

  type Name = string

  /** What is known about a buffer: whether it is allocated, and whether it only stands for a mutation. */
  datatype Buffer = Buffer(noneLayout: bool, mutationOutput: bool)

  /** The scheduler's tables. */
  datatype Graph = Graph(
    outputs: set<Name>, nodes: set<Name>, constants: set<Name>,
    buffers: map<Name, Buffer>, realName: map<Name, Name>)

  datatype Partition = Partition(produced: set<Name>, read: set<Name>, written: set<Name>, lastUsed: set<Name>)

  datatype Signature = Signature(
    inputs: set<Name>, outputs: set<Name>, deallocated: map<Name, bool>,
    constants: set<Name>, skipCudagraph: bool)

  /** A real name stands for itself. */
  ghost predicate FinalNames(g: Graph) {
    forall n :: n in g.realName ==> g.realName[n] !in g.realName
  }

  function Real(g: Graph, n: Name): Name {
    if n in g.realName then g.realName[n] else n
  }

  predicate IsNoneLayout(g: Graph, n: Name)
    requires FinalNames(g)
    decreases n in g.realName
  {
    n in g.buffers && g.buffers[n].noneLayout &&
    if g.buffers[n].mutationOutput && n in g.realName && g.realName[n] != ""
    then IsNoneLayout(g, g.realName[n])
    else true
  }

  // ----- one partition -----

  function InputNames(g: Graph, p: Partition): set<Name>
    requires FinalNames(g)
  {
    var touched := set n | n in p.read + p.written && !IsNoneLayout(g, n);
    var renamed := set n | n in touched - p.produced :: Real(g, n);
    var freed := set n | n in p.lastUsed - p.produced && n in g.nodes;
    renamed + freed
  }

  function ReturnedNames(g: Graph, p: Partition, unmet: set<Name>): set<Name>
    requires FinalNames(g)
  {
    var kept := set n | n in InputNames(g, p) && n in g.nodes && n !in p.lastUsed;
    set n | n in p.produced * unmet + kept :: Real(g, n)
  }

  function SignatureOf(g: Graph, p: Partition, unmet: set<Name>, skip: bool): Signature
    requires FinalNames(g)
  {
    var inputs := InputNames(g, p);
    Signature(
      inputs * g.nodes,
      (set n | n in ReturnedNames(g, p, unmet) && !IsNoneLayout(g, n)),
      (map n | n in inputs * g.nodes :: n in p.lastUsed),
      inputs * g.constants,
      skip)
  }

  /** What must exist before `ps` run, so that they and the graph's outputs can be served. */
  function Unmet(g: Graph, ps: seq<Partition>): set<Name>
    requires FinalNames(g)
  {
    if ps == [] then g.outputs
    else
      var later := Unmet(g, ps[1..]);
      InputNames(g, ps[0]) + (later - ReturnedNames(g, ps[0], later))
  }

  function SignatureAt(g: Graph, ps: seq<Partition>, skips: seq<bool>, i: nat): Signature
    requires FinalNames(g) && i < |ps| == |skips|
  {
    SignatureOf(g, ps[i], Unmet(g, ps[i + 1..]), skips[i])
  }

  /** The body of the backward loop, for one partition. */
  method SignPartition(g: Graph, p: Partition, unmet: set<Name>, skip: bool)
    returns (signature: Signature, remaining: set<Name>)
    requires FinalNames(g)
    ensures signature == SignatureOf(g, p, unmet, skip)
    ensures remaining == InputNames(g, p) + (unmet - ReturnedNames(g, p, unmet))
  {
    var touched := set n | n in p.read + p.written && !IsNoneLayout(g, n);
    var inputs := set n | n in touched - p.produced :: Real(g, n);
    inputs := inputs + set n | n in p.lastUsed - p.produced && n in g.nodes;
    assert inputs == InputNames(g, p);
    var returned := p.produced * unmet;
    returned := returned + set n | n in inputs && n in g.nodes && n !in p.lastUsed;
    returned := set n | n in returned :: Real(g, n);
    assert returned == ReturnedNames(g, p, unmet);
    signature := Signature(
      inputs * g.nodes,
      (set n | n in returned && !IsNoneLayout(g, n)),
      (map n | n in inputs * g.nodes :: n in p.lastUsed),
      inputs * g.constants,
      skip);
    remaining := inputs + (unmet - returned);
  }

  /** The backward pass over the partitions. */
  method GetGraphPartitionSignature(g: Graph, ps: seq<Partition>, skips: seq<bool>)
    returns (signatures: seq<Signature>)
    requires FinalNames(g) && |ps| == |skips|
    ensures |signatures| == |ps|
    ensures forall i :: 0 <= i < |ps| ==> signatures[i] == SignatureAt(g, ps, skips, i)
  {
    hide FinalNames, SignatureOf, InputNames, ReturnedNames;
    signatures := [];
    var unmet := g.outputs;
    assert ps[|ps|..] == [];
    for k := |ps| downto 0
      invariant |signatures| == |ps| - k
      invariant unmet == Unmet(g, ps[k..])
      invariant forall i :: 0 <= i < |signatures| ==> signatures[i] == SignatureAt(g, ps, skips, k + i)
    {
      assert ps[k..][1..] == ps[k + 1..];
      var signature, remaining := SignPartition(g, ps[k], unmet, skips[k]);
      signatures := [signature] + signatures;
      unmet := remaining;
    }
  }
}
