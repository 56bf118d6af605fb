/**
 Splitting an allocation into chunks.  Sizes are 64-bit words; `Word` is the wrap-around.
 */
module AllocChunks {

  const WORD: nat := 0x1_0000_0000_0000_0000

  const MB: nat := 0x10_0000

  const DEFAULT_CHUNK: nat := 256 * MB

  function Word(x: int): (w: nat)
    ensures w < WORD
    ensures 0 <= x < WORD ==> w == x
  {
    x % WORD
  }

  /** `None` is an unset or unparsable variable, otherwise the parsed number of megabytes. */
  datatype Setting = None | Megabytes(value: nat)

  function MemcreateChunkSize(env: Setting): (bytes: nat)
    requires env.Megabytes? ==> env.value < WORD
    ensures 0 < bytes < WORD && bytes % MB == 0
    ensures env.Megabytes? && 0 < env.value && env.value * MB < WORD ==> bytes == env.value * MB
    ensures !(env.Megabytes? && 0 < env.value && env.value * MB < WORD) ==> bytes == DEFAULT_CHUNK
  {
    if env.None? || env.value == 0 || env.value > (WORD - 1) / MB then DEFAULT_CHUNK
    else Word(env.value * MB)
  }

  /** The C expression ((size + g - 1) / g) * g. */
  function RoundUp(size: nat, g: nat): nat
    requires g > 0
  {
    Word(Times(Word(size + g - 1) / g, g))
  }

  ghost predicate IsMultiple(x: int, g: int) {
    exists q :: Times(q, g) == x
  }

  /** The least multiple of `g` that is not below `low`. */
  ghost predicate IsLeastMultiple(x: int, low: int, g: int) {
    IsMultiple(x, g) && x >= low && forall m :: IsMultiple(m, g) && m >= low ==> m >= x
  }

  /** Multiplication, as a function so that proofs can leave it alone. */
  function Times(q: int, g: int): int { q * g }

  lemma DivBounds(x: nat, g: nat)
    requires g > 0
    ensures x - g < Times(x / g, g) <= x
  {
  }

  lemma MulOrder(a: int, b: int, g: nat)
    requires a <= b
    ensures Times(a, g) <= Times(b, g)
  {
  }

  lemma MulNext(a: int, g: int)
    ensures Times(0, g) == 0 && Times(a + 1, g) == Times(a, g) + g
  {
  }

  /** Without wrap-around the result is the least multiple of `g` that is at least `size`. */
  lemma RoundUpIsLeastMultiple(size: nat, g: nat)
    requires g > 0 && size + g <= WORD
    ensures size <= RoundUp(size, g) < size + g
    ensures IsLeastMultiple(RoundUp(size, g), size, g)
  {
    hide Times, Word;
    var q := (size + g - 1) / g;
    DivBounds(size + g - 1, g);
    assert Times(q, g) == RoundUp(size, g);
    forall m | IsMultiple(m, g) && m >= size
      ensures m >= RoundUp(size, g)
    {
      var k :| Times(k, g) == m;
      MulNext(q - 1, g);
      if k < q { MulOrder(k, q - 1, g); } else { MulOrder(q, k, g); }
    }
  }

  // ----- chunk sizes -----

  function Sum(sizes: seq<nat>): nat {
    if sizes == [] then 0 else Sum(sizes[..|sizes| - 1]) + sizes[|sizes| - 1]
  }

  /** Where chunk `i` starts. */
  function Offset(sizes: seq<nat>, i: nat): nat
    requires i <= |sizes|
  {
    Sum(sizes[..i])
  }

  lemma OffsetNext(sizes: seq<nat>, i: nat)
    requires i < |sizes|
    ensures Offset(sizes, i + 1) == Offset(sizes, i) + sizes[i]
  {
    assert sizes[..i + 1][..i] == sizes[..i];
  }

  lemma {:induction false} OffsetsGrow(sizes: seq<nat>, i: nat, j: nat)
    requires i <= j <= |sizes|
    ensures Offset(sizes, i) <= Offset(sizes, j) <= Sum(sizes)
    ensures (forall k :: 0 <= k < |sizes| ==> sizes[k] > 0) && i < j ==> Offset(sizes, i) < Offset(sizes, j)
    decreases |sizes| - i
  {
    if i == |sizes| {
      assert sizes[..i] == sizes;
    } else {
      OffsetNext(sizes, i);
      OffsetsGrow(sizes, i + 1, if i == j then i + 1 else j);
    }
  }

  ghost predicate InChunk(sizes: seq<nat>, x: nat, i: nat) {
    i < |sizes| && Offset(sizes, i) <= x < Offset(sizes, i + 1)
  }

  /** Every address below the total lies in a chunk. */
  lemma {:induction false} ChunksCover(sizes: seq<nat>, x: nat, n: nat) returns (i: nat)
    requires n <= |sizes| && x < Offset(sizes, n)
    ensures i < n && InChunk(sizes, x, i)
  {
    if n == 0 || Offset(sizes, n - 1) <= x {
      i := n - 1;
    } else {
      i := ChunksCover(sizes, x, n - 1);
    }
  }

  lemma ChunksDisjoint(sizes: seq<nat>, x: nat, i: nat, j: nat)
    requires InChunk(sizes, x, i) && InChunk(sizes, x, j)
    ensures i == j
  {
    if i < j { OffsetsGrow(sizes, i + 1, j); }
    if j < i { OffsetsGrow(sizes, j + 1, i); }
  }

  /** The arithmetic stays below 2^64. */
  ghost predicate NoWrap(size: nat, g: nat, baseChunk: nat) {
    && g > 0 && baseChunk > 0
    && size + g <= WORD && baseChunk + g <= WORD
    && RoundUp(size, g) + RoundUp(baseChunk, g) <= WORD
  }

  function NumChunks(alignedSize: nat, chunkSize: nat): nat
    requires chunkSize > 0
  {
    Word(alignedSize + chunkSize - 1) / chunkSize
  }

  ghost predicate IsChunking(sizes: seq<nat>, total: nat, g: nat) {
    && Sum(sizes) == total
    && (forall i :: 0 <= i < |sizes| ==> sizes[i] > 0 && IsMultiple(sizes[i], g))
  }

  /** As few chunks of size `c` as hold the total: all of them full but the last, which may be smaller. */
  ghost predicate IsPlan(sizes: seq<nat>, total: nat, c: nat) {
    && (sizes == [] <==> total == 0)
    && (forall i :: 0 <= i < |sizes| - 1 ==> sizes[i] == c)
    && (sizes != [] ==> 0 < sizes[|sizes| - 1] <= c)
    && (sizes != [] ==> Times(|sizes| - 1, c) < total <= Times(|sizes|, c))
  }

  /** The chunks of a request: of the least aligned total, cut by the least aligned chunk size. */
  ghost predicate IsPlanFor(sizes: seq<nat>, total: nat, size: nat, g: nat, baseChunk: nat) {
    && IsLeastMultiple(total, size, g) && IsChunking(sizes, total, g)
    && exists c: nat :: IsLeastMultiple(c, baseChunk, g) && IsPlan(sizes, total, c)
  }

  lemma ChunkCount(alignedSize: nat, chunkSize: nat)
    requires chunkSize > 0 && alignedSize + chunkSize <= WORD
    ensures alignedSize <= Times(NumChunks(alignedSize, chunkSize), chunkSize) < alignedSize + chunkSize
  {
    hide Times, Word;
    DivBounds(alignedSize + chunkSize - 1, chunkSize);
  }

  /** Before the last chunk the subtraction cannot underflow. */
  lemma RoomLeft(i: nat, n: nat, c: nat, total: nat)
    requires i < n && Times(n, c) < total + c
    ensures 0 <= Times(i, c) < total && Times(i + 1, c) == Times(i, c) + c
  {
    hide Times;
    MulNext(i, c);
    MulOrder(i + 1, n, c);
    MulOrder(0, i, c);
  }

  lemma MultipleMinus(x: nat, i: nat, c: nat, g: nat)
    requires IsMultiple(x, g) && IsMultiple(c, g)
    ensures IsMultiple(x - Times(i, c), g)
  {
    var p :| Times(p, g) == x;
    var q :| Times(q, g) == c;
    assert Times(p - i * q, g) == x - i * c by {
      assert (p - i * q) * g == p * g - i * (q * g);
    }
  }

  /** The loop that fills `chunk_sizes`. */
  method ChunkSizes(alignedSize: nat, chunkSize: nat, ghost g: nat) returns (sizes: seq<nat>)
    requires chunkSize > 0 && alignedSize + chunkSize <= WORD
    requires IsMultiple(alignedSize, g) && IsMultiple(chunkSize, g)
    ensures IsChunking(sizes, alignedSize, g) && IsPlan(sizes, alignedSize, chunkSize)
  {
    hide Times, Word, NumChunks, IsMultiple;
    var n := NumChunks(alignedSize, chunkSize);
    ChunkCount(alignedSize, chunkSize);
    MulNext(0, chunkSize);
    if n > 0 { MulNext(n - 1, chunkSize); }
    sizes := [];
    for i := 0 to n
      invariant |sizes| == i
      invariant Sum(sizes) == if Times(i, chunkSize) <= alignedSize then Times(i, chunkSize) else alignedSize
      invariant forall k :: 0 <= k < i ==> 0 < sizes[k] <= chunkSize && IsMultiple(sizes[k], g)
      invariant forall k :: 0 <= k < i && k < n - 1 ==> sizes[k] == chunkSize
    {
      RoomLeft(i, n, chunkSize, alignedSize);
      if i < n - 1 { RoomLeft(i + 1, n, chunkSize, alignedSize); }
      MultipleMinus(alignedSize, i, chunkSize, g);
      var rest := Word(alignedSize - Word(Times(i, chunkSize)));
      var size := if rest < chunkSize then rest else chunkSize;
      assert (sizes + [size])[..i] == sizes;
      sizes := sizes + [size];
    }
  }
}
