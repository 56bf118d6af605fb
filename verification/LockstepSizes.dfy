/**
 How the tokens of data-parallel ranks are sharded and cut into chunks that all ranks
 process in the same number of rounds.
 */
module LockstepSizes {

  /** Multiplication, as a function so that proofs can leave it alone. */
  function Times(a: int, b: int): int { a * b }

  lemma TimesNext(a: int, b: int)
    ensures Times(a, b + 1) == Times(a, b) + a && Times(a, 0) == 0 && Times(a, 1) == a
  {
  }

  lemma TimesMono(a: nat, b: int, c: int)
    requires b <= c
    ensures Times(a, b) <= Times(a, c)
  {
  }

  // ----- ceiling division, in the three forms in use -----

  /** (n + d - 1) // d, the form of _compute_sp_num_tokens. */
  function CeilDiv(n: nat, d: nat): nat
    requires d > 0
  {
    (n + d - 1) / d
  }

  /** Python's floor division by a non-zero number of either sign. */
  function FloorDiv(a: int, b: int): int
    requires b != 0
  {
    if b > 0 then a / b else (-a) / (-b)
  }

  /** cdiv */
  function Cdiv(a: int, b: int): int
    requires b != 0
  {
    -FloorDiv(a, -b)
  }

  /** `CeilDiv(n, d)` is the least number of groups of `d` that hold `n`. */
  lemma CeilDivIsLeast(n: nat, d: nat, q: nat)
    requires d > 0
    ensures n <= Times(d, q) <==> CeilDiv(n, d) <= q
  {
    var c := CeilDiv(n, d);
    assert Times(d, c) == d * c && d * c <= n + d - 1 < d * c + d;
    if c <= q { TimesMono(d, c, q); }
    else { TimesMono(d, q, c - 1); TimesNext(d, c - 1); }
  }

  lemma CdivIsCeilDiv(n: nat, d: nat)
    requires d > 0
    ensures Cdiv(n, d) == CeilDiv(n, d)
  {
    hide Times;
    var a: int := -(n as int);
    var k := a / d;
    assert a == d * k + a % d;
    assert Times(d, -k) == -(d * k) by { Negate(d, k); }
    assert -k >= 0 by { if k > 0 { TimesPositive(d, k); } }
    CeilDivIsLeast(n, d, -k);
    if k < 0 {
      TimesNext(d, -k - 1);
      CeilDivIsLeast(n, d, -k - 1);
    }
  }

  lemma Negate(d: int, k: int)
    ensures Times(d, -k) == -(d * k)
  {
  }

  lemma TimesPositive(d: int, k: int)
    requires d > 0 && k > 0
    ensures d * k > 0
  {
  }

  // ----- sharding over sequence-parallel ranks -----

  function RepeatInterleave(xs: seq<nat>, k: nat): seq<nat> {
    if xs == [] then [] else RepeatInterleave(xs[..|xs| - 1], k) + seq(k, _ => xs[|xs| - 1])
  }

  lemma {:induction false} RepeatLength(xs: seq<nat>, k: nat)
    ensures |RepeatInterleave(xs, k)| == Times(k, |xs|)
  {
    hide Times;
    TimesNext(k, |xs| - 1);
    if xs == [] {
    } else {
      RepeatLength(xs[..|xs| - 1], k);
    }
  }

  lemma {:induction false} RepeatAt(xs: seq<nat>, k: nat, q: nat, i: nat)
    requires q < |xs| && Times(k, q) <= i < Times(k, q) + k
    ensures i < |RepeatInterleave(xs, k)| && RepeatInterleave(xs, k)[i] == xs[q]
  {
    hide Times;
    var n := |xs| - 1;
    RepeatLength(xs[..n], k);
    if q < n { RepeatAt(xs[..n], k, q, i); }
  }

  lemma QuotientIs(x: nat, d: nat, q: nat)
    requires d > 0 && Times(d, q) <= x < Times(d, q) + d
    ensures x / d == q
  {
    var p := x / d;
    assert d * p <= x < d * p + d;
    assert p < q ==> d * (p + 1) <= d * q;
    assert q < p ==> d * (q + 1) <= d * p;
  }

  /** _compute_sp_num_tokens */
  function SpNumTokens(tokens: seq<nat>, sp: nat): seq<nat>
    requires sp > 0
  {
    RepeatInterleave(seq(|tokens|, i requires 0 <= i < |tokens| => CeilDiv(tokens[i], sp)), sp)
  }

  /** Shard `i` belongs to rank i/sp; the sp shards of a rank hold its tokens with less than sp to spare. */
  lemma ShardsHoldTokens(tokens: seq<nat>, sp: nat, i: nat)
    requires sp > 0 && i < Times(sp, |tokens|)
    ensures |SpNumTokens(tokens, sp)| == Times(sp, |tokens|) && i / sp < |tokens|
    ensures SpNumTokens(tokens, sp)[i] == CeilDiv(tokens[i / sp], sp)
    ensures tokens[i / sp] <= Times(sp, SpNumTokens(tokens, sp)[i]) < tokens[i / sp] + sp
  {
    hide Times, CeilDiv;
    var counts := seq(|tokens|, i requires 0 <= i < |tokens| => CeilDiv(tokens[i], sp));
    RepeatLength(counts, sp);
    ProductBounds(i, sp);
    if i / sp >= |tokens| { TimesMono(sp, |tokens|, i / sp); }
    RepeatAt(counts, sp, i / sp, i);
    var n := tokens[i / sp];
    var c := CeilDiv(n, sp);
    CeilDivIsLeast(n, sp, c);
    if c > 0 { CeilDivIsLeast(n, sp, c - 1); TimesNext(sp, c - 1); }
    TimesNext(sp, 0);
  }

  // ----- chunk sizes -----

  function Min(a: int, b: int): int { if a <= b then a else b }

  /** The size announced for one rank in one round; 1 is a dummy that keeps the rank in step. */
  function LocalSize(tokens: nat, max: int, idx: nat): int {
    var size := Min(max, tokens - Times(max, idx));
    if size <= 0 then 1 else size
  }

  /** _compute_chunked_local_num_tokens */
  method ComputeChunkedLocalNumTokens(tokens: seq<nat>, sp: nat, max: int, idx: nat) returns (localSize: seq<int>)
    requires sp > 0
    ensures localSize == Announced(tokens, sp, max, idx)
    ensures max >= 1 ==> forall i :: 0 <= i < |localSize| ==> 1 <= localSize[i] <= max
  {
    var spTokens := SpNumTokens(tokens, sp);
    localSize := seq(|spTokens|, _ => -1);
    for i := 0 to |spTokens|
      invariant |localSize| == |spTokens|
      invariant forall j :: 0 <= j < i ==> localSize[j] == LocalSize(spTokens[j], max, idx)
    {
      localSize := localSize[i := Min(max, spTokens[i] - Times(max, idx))];
      if localSize[i] <= 0 {
        localSize := localSize[i := 1];
      }
    }
  }

  function Announced(tokens: seq<nat>, sp: nat, max: int, idx: nat): seq<int>
    requires sp > 0
  {
    var shards := SpNumTokens(tokens, sp);
    seq(|shards|, i requires 0 <= i < |shards| => LocalSize(shards[i], max, idx))
  }

  /** Token `x` is in the non-dummy part of chunk `k`. */
  predicate InChunk(tokens: nat, max: nat, k: nat, x: nat) {
    Times(max, k) < tokens && Times(max, k) <= x < Times(max, k) + LocalSize(tokens, max, k)
  }

  /** The chunks partition the tokens: every token is in exactly one, and nothing else is in any. */
  lemma ChunksPartition(tokens: nat, max: nat, k: nat, x: nat)
    requires max >= 1
    ensures InChunk(tokens, max, k, x) <==> x < tokens && k == x / max
  {
    hide Times;
    if Times(max, k) <= x < Times(max, k) + max { QuotientIs(x, max, k); }
    if k == x / max { ProductBounds(x, max); }
  }

  lemma ProductBounds(x: nat, d: nat)
    requires d > 0
    ensures Times(d, x / d) <= x < Times(d, x / d) + d
  {
  }

  /** What one rank announces in `rounds` rounds. */
  function Total(tokens: nat, max: int, rounds: nat): int {
    if rounds == 0 then 0 else Total(tokens, max, rounds - 1) + LocalSize(tokens, max, rounds - 1)
  }

  /** The tokens, and one dummy for every round in which the rank is already done. */
  lemma {:induction false} TotalIsTokensAndDummies(tokens: nat, max: nat, rounds: nat)
    requires max >= 1
    ensures rounds <= CeilDiv(tokens, max) ==> Total(tokens, max, rounds) == Min(tokens, Times(max, rounds))
    ensures rounds >= CeilDiv(tokens, max) ==>
      Total(tokens, max, rounds) == tokens + (rounds - CeilDiv(tokens, max))
  {
    hide Times, CeilDiv;
    CeilDivIsLeast(tokens, max, rounds);
    TimesNext(max, rounds - 1);
    if rounds == 0 {
    } else {
      TotalIsTokensAndDummies(tokens, max, rounds - 1);
      CeilDivIsLeast(tokens, max, rounds - 1);
    }
  }

  /** Rounds enough for the largest rank are enough for every shard of every rank. */
  lemma RoundsCoverEveryShard(tokens: seq<nat>, sp: nat, max: nat, largest: nat, rounds: nat, i: nat)
    requires sp > 0 && max >= 1 && i < Times(sp, |tokens|)
    requires forall j :: 0 <= j < |tokens| ==> tokens[j] <= largest
    requires rounds >= CeilDiv(CeilDiv(largest, sp), max)
    ensures i < |SpNumTokens(tokens, sp)|
    ensures var shard := SpNumTokens(tokens, sp)[i];
      && shard <= CeilDiv(largest, sp)
      && Total(shard, max, rounds) == shard + (rounds - CeilDiv(shard, max))
  {
    hide Times, CeilDiv, SpNumTokens;
    ShardsHoldTokens(tokens, sp, i);
    var shard, most := SpNumTokens(tokens, sp)[i], CeilDiv(largest, sp);
    CeilDivIsLeast(largest, sp, most);
    CeilDivIsLeast(tokens[i / sp], sp, most);
    CeilDivIsLeast(most, max, rounds);
    CeilDivIsLeast(shard, max, rounds);
    TotalIsTokensAndDummies(shard, max, rounds);
  }

  // ----- cumulative counts -----

  function Sum(xs: seq<int>): int {
    if xs == [] then 0 else Sum(xs[..|xs| - 1]) + xs[|xs| - 1]
  }

  /** torch.cumsum over one dimension */
  function Cumsum(xs: seq<int>): (c: seq<int>)
    ensures |c| == |xs|
  {
    if |xs| <= 1 then xs
    else
      var c := Cumsum(xs[..|xs| - 1]);
      c + [c[|c| - 1] + xs[|xs| - 1]]
  }

  lemma {:induction false} CumsumIsPrefixSum(xs: seq<int>, i: nat)
    requires i < |xs|
    ensures Cumsum(xs)[i] == Sum(xs[..i + 1])
  {
    var n := |xs| - 1;
    assert xs[..i + 1][..i] == xs[..i];
    if n == 0 {
    } else if i < n {
      CumsumIsPrefixSum(xs[..n], i);
      assert xs[..n][..i + 1] == xs[..i + 1];
    } else {
      CumsumIsPrefixSum(xs[..n], n - 1);
      assert xs[..n][..n] == xs[..n];
    }
  }

  /** cu_tokens_across_sp, with its own spelling of the ceiling. */
  function CuTokensAcrossSp(tokens: seq<nat>, sp: nat): seq<int>
    requires sp > 0
  {
    Cumsum(RepeatInterleave(seq(|tokens|, i requires 0 <= i < |tokens| => (tokens[i] - 1 + sp) / sp), sp))
  }

  /** Where the rows of shard `i` start in a gathered buffer. */
  function Start(cu: seq<int>, i: nat): int
    requires i <= |cu|
  {
    if i == 0 then 0 else cu[i - 1]
  }

  /** The windows of the shards lie side by side, each as long as the shard the chunk sizes are cut from. */
  lemma WindowsAreShards(tokens: seq<nat>, sp: nat, i: nat)
    requires sp > 0
    ensures |CuTokensAcrossSp(tokens, sp)| == |SpNumTokens(tokens, sp)|
    ensures i < |SpNumTokens(tokens, sp)| ==>
      var cu, shards := CuTokensAcrossSp(tokens, sp), SpNumTokens(tokens, sp);
      cu[i] == Sum(shards[..i + 1]) && Start(cu, i + 1) - Start(cu, i) == shards[i]
  {
    var shards := SpNumTokens(tokens, sp);
    assert seq(|tokens|, i requires 0 <= i < |tokens| => (tokens[i] - 1 + sp) / sp)
        == seq(|tokens|, i requires 0 <= i < |tokens| => CeilDiv(tokens[i], sp));
    assert CuTokensAcrossSp(tokens, sp) == Cumsum(shards);
    if i < |shards| {
      CumsumIsPrefixSum(shards, i);
      assert shards[..i + 1][..i] == shards[..i];
      if i > 0 { CumsumIsPrefixSum(shards, i - 1); }
    }
  }
}
