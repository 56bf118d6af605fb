/**
 Chunked forward execution of one rank: the per-round sizes it shares with the other ranks,
 and the rows it computes.
 */
module ChunkedForward {
  import opened Wrappers
  import opened LockstepSizes

  class DPMetadata {
    const maxTokensAcrossDp: nat
    const numTokensAcrossDp: seq<nat>
    var localSizes: Option<seq<int>>

    constructor (maxTokens: nat, tokens: seq<nat>)
      ensures maxTokensAcrossDp == maxTokens && numTokensAcrossDp == tokens && localSizes == None
    {
      maxTokensAcrossDp, numTokensAcrossDp, localSizes := maxTokens, tokens, None;
    }

    /** The largest rank is a member of the metadata. */
    ghost predicate Valid() {
      && maxTokensAcrossDp in numTokensAcrossDp
      && forall i :: 0 <= i < |numTokensAcrossDp| ==> numTokensAcrossDp[i] <= maxTokensAcrossDp
    }

    /** make; null is one of its failed assertions, or the index error for a rank out of range. */
    static method Make(dpSize: nat, dpRank: nat, numTokens: nat, tokens: seq<nat>) returns (m: DPMetadata?)
      ensures m == null <==> dpSize <= 1 || dpRank >= |tokens| || tokens[dpRank] != numTokens
      ensures m != null ==> fresh(m) && m.Valid() && m.numTokensAcrossDp == tokens && m.localSizes == None
    {
      if dpSize <= 1 || dpRank >= |tokens| || tokens[dpRank] != numTokens { return null; }
      var largest := tokens[0];
      for i := 1 to |tokens|
        invariant largest in tokens && forall j :: 0 <= j < i ==> tokens[j] <= largest
      {
        if tokens[i] > largest { largest := tokens[i]; }
      }
      m := new DPMetadata(largest, tokens);
    }

    /** Entering chunked_sizes. */
    method EnterChunkedSizes(sp: nat, max: int, idx: nat)
      requires sp > 0
      modifies this
      ensures localSizes == Some(Announced(numTokensAcrossDp, sp, max, idx))
    {
      var sizes := ComputeChunkedLocalNumTokens(numTokensAcrossDp, sp, max, idx);
      localSizes := Some(sizes);
    }

    /** Leaving it, normally or by an exception. */
    method ExitSizes()
      modifies this
      ensures localSizes == None
    {
      localSizes := None;
    }
  }

  // ----- one chunk -----

  function Map<T, U>(f: T -> U, xs: seq<T>): (ys: seq<U>)
    ensures |ys| == |xs| && forall i :: 0 <= i < |xs| ==> ys[i] == f(xs[i])
  {
    seq(|xs|, i requires 0 <= i < |xs| => f(xs[i]))
  }

  lemma MapConcat<T, U>(f: T -> U, xs: seq<T>, ys: seq<T>)
    ensures Map(f, xs + ys) == Map(f, xs) + Map(f, ys)
  {
  }

  /** `done` rows computed, the rest as the output buffer was allocated. */
  function Partly<Row>(f: Row -> Row, hidden: seq<Row>, blank: seq<Row>, done: nat): seq<Row>
    requires done <= |hidden| == |blank|
  {
    Map(f, hidden[..done]) + blank[done..]
  }

  /** An output buffer after rows start..end are stored, unless skipped. */
  function Stored<Row>(f: Row -> Row, hidden: seq<Row>, before: seq<Row>, start: nat, end: nat, skip: bool): seq<Row>
    requires start <= end <= |hidden| == |before|
  {
    if skip then before else before[..start] + Map(f, hidden[start..end]) + before[end..]
  }

  /** process_chunk: rows start..end are staged, computed and, unless skipped, stored. */
  method ProcessChunk<Row>(
    staging: array<Row>, f: Row -> Row, hidden: seq<Row>, output: array<Row>, start: nat, end: nat, skip: bool)
    requires start <= end <= |hidden| == output.Length && end - start <= staging.Length
    requires staging != output
    modifies staging, output
    ensures output[..] == Stored(f, hidden, old(output[..]), start, end, skip)
  {
    var size := end - start;
    forall r | 0 <= r < size { staging[r] := hidden[start + r]; }
    assert staging[..size] == hidden[start..end];
    var result := Map(f, staging[..size]);
    if !skip {
      forall r | 0 <= r < size { output[start + r] := result[r]; }
    }
  }

  /** The dispatcher with the most tokens decides the number of rounds. */
  function MostTokens(largest: nat, sp: nat): int
    requires sp > 0
  {
    if sp > 1 then Cdiv(largest, sp) else largest
  }

  lemma MostTokensIsCeiling(largest: nat, sp: nat)
    requires sp > 0
    ensures MostTokens(largest, sp) == CeilDiv(largest, sp)
  {
    CdivIsCeilDiv(largest, sp);
  }

  // ----- all chunks -----

  /** A round as the other ranks see it: the size announced for every rank, and the rows actually staged. */
  datatype Round = Round(announced: seq<int>, staged: nat)

  /** The rows a rank with `n` rows stages in round `k`, after clamping both ends. */
  function Staged(n: nat, most: nat, max: nat, k: nat): int {
    Min(Min(Times(max, k) + max, most), n) - Min(Times(max, k), n - 1)
  }

  /** What the rounds of a rank look like from outside. */
  ghost predicate Recorded(rounds: seq<Round>, tokens: seq<nat>, sp: nat, n: nat, most: nat, max: nat)
    requires sp > 0
  {
    forall k :: 0 <= k < |rounds| ==>
      rounds[k].announced == Announced(tokens, sp, max, k) && rounds[k].staged == Staged(n, most, max, k)
  }

  /**
   forward_impl_chunked; `ok` is false when a rank without rows fails to fill its dummy row.
   `output` starts as an uninitialized buffer.
   */
  method ForwardImplChunked<Row>(
    meta: DPMetadata, sp: nat, max: nat, staging: array<Row>, f: Row -> Row, hidden: seq<Row>, output: array<Row>)
    returns (ok: bool, rounds: seq<Round>)
    requires sp > 0 && max > 0 && meta.localSizes == None
    requires staging.Length == max && output.Length == |hidden| && staging != output
    modifies meta, staging, output
    ensures meta.localSizes == None
    ensures ok <==> |hidden| > 0 || CeilDiv(meta.maxTokensAcrossDp, sp) == 0
    ensures ok ==>
      var most := CeilDiv(meta.maxTokensAcrossDp, sp);
      && output[..] == Partly(f, hidden, old(output[..]), Min(|hidden|, most))
      && |rounds| == CeilDiv(most, max)
      && Recorded(rounds, meta.numTokensAcrossDp, sp, |hidden|, most, max)
  {
    hide Times, CeilDiv, Announced, Cdiv, Map, Partly, Stored, Recorded;
    MostTokensIsCeiling(meta.maxTokensAcrossDp, sp);
    var most, n := MostTokens(meta.maxTokensAcrossDp, sp), |hidden|;
    ghost var blank := output[..];
    rounds := [];
    TimesNext(max, 0);
    var start_ := 0;
    NoRounds(meta.numTokensAcrossDp, sp, f, hidden, blank, most, max);
    while start_ < most
      invariant start_ == Times(max, |rounds|) && 0 <= start_
      invariant n > 0 || start_ == 0
      invariant |rounds| > 0 ==> Times(max, |rounds| - 1) < most
      invariant meta.localSizes == None
      invariant output[..] == Partly(f, hidden, blank, Min(n, Min(start_, most)))
      invariant Recorded(rounds, meta.numTokensAcrossDp, sp, n, most, max)
    {
      var start, end := Min(start_, n - 1), Min(Min(start_ + max, most), n);
      meta.EnterChunkedSizes(sp, max, |rounds|);
      if n == 0 {
        meta.ExitSizes();
        return false, rounds;
      }
      label before:
      ProcessChunk(staging, f, hidden, output, start, end, start_ >= n);
      NextPart(f, hidden, blank, old@before(output[..]), output[..], start_, max, most);
      NextRound(rounds, meta.numTokensAcrossDp, sp, n, most, max);
      rounds := rounds + [Round(meta.localSizes.value, end - start)];
      meta.ExitSizes();
      TimesNext(max, |rounds| - 1);
      start_ := start_ + max;
    }
    RoundsAre(most, max, |rounds|);
    ok := true;
  }

  lemma NoRounds<Row>(
    tokens: seq<nat>, sp: nat, f: Row -> Row, hidden: seq<Row>, blank: seq<Row>, most: nat, max: nat)
    requires sp > 0 && |hidden| == |blank|
    ensures Recorded([], tokens, sp, |hidden|, most, max) && Partly(f, hidden, blank, 0) == blank
  {
  }

  lemma NextRound(rounds: seq<Round>, tokens: seq<nat>, sp: nat, n: nat, most: nat, max: nat)
    requires sp > 0 && Recorded(rounds, tokens, sp, n, most, max) && Staged(n, most, max, |rounds|) >= 0
    ensures var round := Round(Announced(tokens, sp, max, |rounds|), Staged(n, most, max, |rounds|));
      Recorded(rounds + [round], tokens, sp, n, most, max)
  {
  }

  /** Storing the next chunk extends the computed part. */
  lemma NextPart<Row>(
    f: Row -> Row, hidden: seq<Row>, blank: seq<Row>, before: seq<Row>, after: seq<Row>,
    start: nat, max: nat, most: nat)
    requires |blank| == |hidden| == |before| > 0 && start < most && max > 0
    requires before == Partly(f, hidden, blank, Min(|hidden|, Min(start, most)))
    requires after == Stored(
      f, hidden, before, Min(start, |hidden| - 1), Min(Min(start + max, most), |hidden|), start >= |hidden|)
    ensures after == Partly(f, hidden, blank, Min(|hidden|, Min(start + max, most)))
  {
    hide Map;
    if start < |hidden| {
      var end := Min(Min(start + max, most), |hidden|);
      assert hidden[..end] == hidden[..start] + hidden[start..end];
      MapConcat(f, hidden[..start], hidden[start..end]);
      assert before[end..] == blank[end..];
    }
  }

  lemma RoundsAre(most: nat, max: nat, k: nat)
    requires max > 0 && most <= Times(max, k) && (k > 0 ==> Times(max, k - 1) < most)
    ensures k == CeilDiv(most, max)
  {
    CeilDivIsLeast(most, max, k);
    if k > 0 { CeilDivIsLeast(most, max, k - 1); }
  }

  /**
   All ranks stay in step: a rank that holds its own non-empty shard stages in every round
   exactly what is announced for it, and ends with every one of its rows computed.
   */
  lemma RanksStayInStep<Row>(
    meta: DPMetadata, sp: nat, max: nat, i: nat, k: nat, f: Row -> Row, hidden: seq<Row>, blank: seq<Row>)
    requires sp > 0 && max > 0 && meta.Valid() && i < |SpNumTokens(meta.numTokensAcrossDp, sp)|
    requires |hidden| == |blank| == SpNumTokens(meta.numTokensAcrossDp, sp)[i] > 0
    requires k < CeilDiv(CeilDiv(meta.maxTokensAcrossDp, sp), max)
    ensures var most := CeilDiv(meta.maxTokensAcrossDp, sp);
      && i < |Announced(meta.numTokensAcrossDp, sp, max, k)|
      && Staged(|hidden|, most, max, k) == Announced(meta.numTokensAcrossDp, sp, max, k)[i]
      && Partly(f, hidden, blank, Min(|hidden|, most)) == Map(f, hidden)
  {
    hide Times, CeilDiv, SpNumTokens, Map;
    var tokens, largest := meta.numTokensAcrossDp, meta.maxTokensAcrossDp;
    var most := CeilDiv(largest, sp);
    ShardCount(tokens, sp);
    RoundsCoverEveryShard(tokens, sp, max, largest, CeilDiv(most, max), i);
    CeilDivIsLeast(most, max, k);
    assert hidden[..|hidden|] == hidden && blank[|hidden|..] == [];
  }

  lemma ShardCount(tokens: seq<nat>, sp: nat)
    requires sp > 0
    ensures |SpNumTokens(tokens, sp)| == Times(sp, |tokens|)
  {
    RepeatLength(seq(|tokens|, i requires 0 <= i < |tokens| => CeilDiv(tokens[i], sp)), sp);
  }
}
