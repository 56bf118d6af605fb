/**
 Logprobs of a request in six flat lists.  Read back position by position they are the list of
 dictionaries that was appended.
 */
module FlatLogprobs {
  import opened Wrappers
  import opened LogprobDict

  datatype Flat = Flat(
    starts: seq<nat>, ends: seq<nat>,
    tokens: seq<int>, logprobs: seq<real>, ranks: seq<Option<int>>, decoded: seq<Option<string>>)

  ghost predicate Valid(f: Flat) {
    && |f.starts| == |f.ends|
    && |f.tokens| == |f.logprobs| == |f.ranks| == |f.decoded|
    && (forall i :: 0 <= i < |f.starts| ==> f.starts[i] <= f.ends[i] <= |f.tokens|)
    && (forall i, j :: 0 <= i < j < |f.starts| ==> f.ends[i] <= f.starts[j])
  }

  /** The rows `lo` to `hi` of the four value lists. */
  function Rows(f: Flat, lo: nat, hi: nat): (es: seq<Entry>)
    requires Valid(f) && lo <= hi <= |f.tokens|
    ensures |es| == hi - lo
  {
    seq(hi - lo, k requires 0 <= k < hi - lo =>
      Entry(f.tokens[lo + k], Logprob(f.logprobs[lo + k], f.ranks[lo + k], f.decoded[lo + k])))
  }

  /** The dictionary that indexing with `i` builds. */
  function Item(f: Flat, i: nat): Dict
    requires Valid(f) && i < |f.starts|
  {
    Build(Rows(f, f.starts[i], f.ends[i]))
  }

  /** The container as a list of dictionaries. */
  function View(f: Flat): (v: seq<Dict>)
    requires Valid(f)
    ensures |v| == |f.starts|
  {
    seq(|f.starts|, i requires 0 <= i < |f.starts| => Item(f, i))
  }

  /** One more position holding the rows `es`. */
  function Append(f: Flat, es: seq<Entry>): Flat
    requires Valid(f)
  {
    var n := |f.tokens|;
    Flat(f.starts + [n], f.ends + [n + |es|],
         f.tokens + seq(|es|, k requires 0 <= k < |es| => es[k].token),
         f.logprobs + seq(|es|, k requires 0 <= k < |es| => es[k].info.logprob),
         f.ranks + seq(|es|, k requires 0 <= k < |es| => es[k].info.rank),
         f.decoded + seq(|es|, k requires 0 <= k < |es| => es[k].info.decoded))
  }

  lemma AppendIsValid(f: Flat, es: seq<Entry>)
    requires Valid(f)
    ensures Valid(Append(f, es))
  {
  }

  lemma OldRowsStay(f: Flat, es: seq<Entry>, lo: nat, hi: nat)
    requires Valid(f) && Valid(Append(f, es)) && lo <= hi <= |f.tokens|
    ensures hi <= |Append(f, es).tokens| && Rows(Append(f, es), lo, hi) == Rows(f, lo, hi)
  {
  }

  lemma NewRowsFollow(f: Flat, es: seq<Entry>)
    requires Valid(f) && Valid(Append(f, es))
    ensures var n := |f.tokens|;
      n + |es| <= |Append(f, es).tokens| && Rows(Append(f, es), n, n + |es|) == es
  {
  }

  lemma AppendIsAppend(f: Flat, es: seq<Entry>)
    requires Valid(f)
    ensures Valid(Append(f, es)) && View(Append(f, es)) == View(f) + [Build(es)]
  {
    hide Rows, Build, Valid;
    AppendIsValid(f, es);
    var g := Append(f, es);
    var n := |f.starts|;
    PositionsAreRanges(f);
    PositionsAreRanges(g);
    forall i | 0 <= i < n
      ensures View(g)[i] == View(f)[i]
    {
      OldRowsStay(f, es, f.starts[i], f.ends[i]);
    }
    NewRowsFollow(f, es);
    assert View(g)[n] == Build(es);
  }

  lemma PositionsAreRanges(f: Flat)
    requires Valid(f)
    ensures |f.starts| == |f.ends|
    ensures forall i :: 0 <= i < |f.starts| ==> f.starts[i] <= f.ends[i] <= |f.tokens|
  {
  }

  // ----- slices -----

  /** The indices a slice with a positive step selects. */
  function Indices(lo: nat, hi: nat, step: nat): (idx: seq<nat>)
    requires step > 0
    ensures forall k :: 0 <= k < |idx| ==> lo <= idx[k] < hi
    decreases if lo < hi then hi - lo else 0
  {
    if lo >= hi then [] else [lo] + Indices(lo + step, hi, step)
  }

  ghost predicate Increasing(idx: seq<nat>) {
    forall i, j :: 0 <= i < j < |idx| ==> idx[i] < idx[j]
  }

  lemma {:induction false} IndicesIncrease(lo: nat, hi: nat, step: nat)
    requires step > 0
    ensures Increasing(Indices(lo, hi, step))
    decreases if lo < hi then hi - lo else 0
  {
    if lo < hi {
      IndicesIncrease(lo + step, hi, step);
      var idx, rest := Indices(lo, hi, step), Indices(lo + step, hi, step);
      forall i, j | 0 <= i < j < |idx| ensures idx[i] < idx[j] {
        assert idx[j] == rest[j - 1];
        if i > 0 { assert idx[i] == rest[i - 1]; }
      }
    }
  }

  function Pick<T>(s: seq<T>, idx: seq<nat>): (r: seq<T>)
    requires forall k :: 0 <= k < |idx| ==> idx[k] < |s|
    ensures |r| == |idx|
  {
    seq(|idx|, k requires 0 <= k < |idx| => s[idx[k]])
  }

  /** Python's reading of a slice bound: negative counts from the end, and everything is clamped. */
  function Bound(x: Option<int>, default: nat, n: nat): (b: nat)
    requires default <= n
    ensures b <= n
  {
    if x.None? then default
    else if x.value < 0 then (if x.value + n < 0 then 0 else x.value + n)
    else if x.value > n then n else x.value
  }

  function Selected(n: nat, start: Option<int>, stop: Option<int>, step: nat): (idx: seq<nat>)
    requires step > 0
    ensures forall k :: 0 <= k < |idx| ==> idx[k] < n
    ensures Increasing(idx)
  {
    IndicesIncrease(Bound(start, 0, n), Bound(stop, n, n), step);
    Indices(Bound(start, 0, n), Bound(stop, n, n), step)
  }

  /**
   Position `i` of a list of `n` is in the slice, read off Python's rules: a missing start is the
   first position, a negative one counts from the end and is the first position if it goes beyond,
   and every `step`-th position from there on is taken; a missing stop is the end, a negative one
   counts from the end.
   */
  ghost predicate InSlice(n: nat, start: Option<int>, stop: Option<int>, step: nat, i: nat)
    requires step > 0
  {
    && i < n
    && (match start
        case None => i % step == 0
        case Some(x) =>
          if x >= 0 then i >= x && (i - x) % step == 0
          else if x + n >= 0 then i >= x + n && (i - (x + n)) % step == 0
          else i % step == 0)
    && (match stop
        case None => true
        case Some(y) => if y >= 0 then i < y else i < y + n)
  }

  ghost predicate SliceHasAny(n: nat, start: Option<int>, stop: Option<int>, step: nat)
    requires step > 0
  {
    exists i: nat :: InSlice(n, start, stop, step, i)
  }

  lemma {:induction false} IndicesAre(lo: nat, hi: nat, step: nat, i: nat)
    requires step > 0
    ensures i in Indices(lo, hi, step) <==> lo <= i < hi && (i - lo) % step == 0
    decreases if lo < hi then hi - lo else 0
  {
    if lo >= hi {
    } else {
      IndicesAre(lo + step, hi, step, i);
      StepOn(i - lo, step);
    }
  }

  lemma StepOn(d: int, step: nat)
    requires step > 0
    ensures (d - step) % step == d % step && (0 <= d < step ==> d % step == d)
  {
    var q := d / step;
    assert d == step * q + d % step;
    assert d - step == step * (q - 1) + d % step;
    RemainderIs(d - step, step, q - 1, d % step);
  }

  lemma RemainderIs(x: int, d: nat, q: int, r: nat)
    requires d > 0 && r < d && x == d * q + r
    ensures x % d == r
  {
    var p := x / d;
    assert x == d * p + x % d;
    assert p < q ==> d * (p + 1) <= d * q;
    assert q < p ==> d * (q + 1) <= d * p;
  }

  /** The selected positions are those of the slice. */
  lemma SelectedAre(n: nat, start: Option<int>, stop: Option<int>, step: nat, i: nat)
    requires step > 0
    ensures i in Selected(n, start, stop, step) <==> InSlice(n, start, stop, step, i)
  {
    hide Indices;
    IndicesAre(Bound(start, 0, n), Bound(stop, n, n), step, i);
  }

  /** `part` holds the positions of `whole` that are in the slice, in order. */
  ghost predicate IsSliceOf<T>(part: seq<T>, whole: seq<T>, start: Option<int>, stop: Option<int>, step: nat)
    requires step > 0
  {
    exists idx: seq<nat> :: IsSelection(idx, |whole|, start, stop, step) && IsPick(part, whole, idx)
  }

  ghost predicate IsSelection(idx: seq<nat>, n: nat, start: Option<int>, stop: Option<int>, step: nat)
    requires step > 0
  {
    Increasing(idx) && forall i: nat :: i in idx <==> InSlice(n, start, stop, step, i)
  }

  ghost predicate IsPick<T>(part: seq<T>, whole: seq<T>, idx: seq<nat>) {
    |part| == |idx| && forall k :: 0 <= k < |idx| ==> idx[k] < |whole| && part[k] == whole[idx[k]]
  }

  /** Selected positions lie between the first start and the last end, in order. */
  lemma SelectionBounds(f: Flat, idx: seq<nat>, k: nat)
    requires Valid(f) && Increasing(idx) && k < |idx|
    requires forall i :: 0 <= i < |idx| ==> idx[i] < |f.starts|
    ensures f.starts[idx[0]] <= f.starts[idx[k]] <= f.ends[idx[k]] <= f.ends[idx[|idx| - 1]]
  {
    var n := |idx| - 1;
    if 0 < k { assert f.ends[idx[0]] <= f.starts[idx[k]]; }
    if k < n { assert f.ends[idx[k]] <= f.starts[idx[n]]; }
  }

  /** The container made of the positions `idx`, with indices shifted to start at 0. */
  function Extract(f: Flat, idx: seq<nat>): Flat
    requires Valid(f) && Increasing(idx) && idx != []
    requires forall i :: 0 <= i < |idx| ==> idx[i] < |f.starts|
  {
    var starts, ends := Pick(f.starts, idx), Pick(f.ends, idx);
    var lo, hi := starts[0], ends[|ends| - 1];
    SelectionBounds(f, idx, 0);
    Flat(
      seq(|idx|, k requires 0 <= k < |idx| => SelectionBounds(f, idx, k); starts[k] - lo),
      seq(|idx|, k requires 0 <= k < |idx| => SelectionBounds(f, idx, k); ends[k] - lo),
      f.tokens[lo..hi], f.logprobs[lo..hi], f.ranks[lo..hi], f.decoded[lo..hi])
  }

  lemma ExtractIsValid(f: Flat, idx: seq<nat>)
    requires Valid(f) && Increasing(idx) && idx != []
    requires forall i :: 0 <= i < |idx| ==> idx[i] < |f.starts|
    ensures Valid(Extract(f, idx))
  {
    var g := Extract(f, idx);
    forall k | 0 <= k < |idx| ensures g.starts[k] <= g.ends[k] <= |g.tokens| {
      SelectionBounds(f, idx, k);
    }
    forall i, j | 0 <= i < j < |idx| ensures g.ends[i] <= g.starts[j] {
      assert f.ends[idx[i]] <= f.starts[idx[j]];
    }
  }

  lemma ExtractPicks(f: Flat, idx: seq<nat>)
    requires Valid(f) && Increasing(idx) && idx != []
    requires forall i :: 0 <= i < |idx| ==> idx[i] < |f.starts|
    ensures Valid(Extract(f, idx)) && View(Extract(f, idx)) == Pick(View(f), idx)
  {
    hide Valid, Item, Extract;
    ExtractIsValid(f, idx);
    ExtractLength(f, idx);
    forall k | 0 <= k < |idx|
      ensures View(Extract(f, idx))[k] == View(f)[idx[k]]
    {
      ExtractedItem(f, idx, k);
    }
  }

  lemma ExtractLength(f: Flat, idx: seq<nat>)
    requires Valid(f) && Increasing(idx) && idx != []
    requires forall i :: 0 <= i < |idx| ==> idx[i] < |f.starts|
    ensures |Extract(f, idx).starts| == |idx|
  {
    hide Valid, Increasing;
  }

  lemma ExtractedItem(f: Flat, idx: seq<nat>, k: nat)
    requires Valid(f) && Increasing(idx) && k < |idx|
    requires forall i :: 0 <= i < |idx| ==> idx[i] < |f.starts|
    requires Valid(Extract(f, idx)) && |Extract(f, idx).starts| == |idx|
    ensures Item(Extract(f, idx), k) == Item(f, idx[k])
  {
    hide Build;
    var g := Extract(f, idx);
    SelectionBounds(f, idx, k);
    assert Rows(g, g.starts[k], g.ends[k]) == Rows(f, f.starts[idx[k]], f.ends[idx[k]]);
  }

  /** The slice branch of indexing; `None` is the IndexError of an empty selection. */
  function Slice(f: Flat, start: Option<int>, stop: Option<int>, step: nat): Option<Flat>
    requires Valid(f) && step > 0
  {
    var idx := Selected(|f.starts|, start, stop, step);
    if idx == [] then None else Some(Extract(f, idx))
  }

  /** A slice is the slice of the list, and it is a proper container; it fails iff the list's slice is empty. */
  lemma SliceIsSlice(f: Flat, start: Option<int>, stop: Option<int>, step: nat)
    requires Valid(f) && step > 0
    ensures var r := Slice(f, start, stop, step);
      && (r.Some? <==> SliceHasAny(|View(f)|, start, stop, step))
      && (r.Some? ==> Valid(r.value) && IsSliceOf(View(r.value), View(f), start, stop, step))
  {
    hide Build, Item, Rows, Valid, InSlice, Extract, Selected;
    var n, idx := |f.starts|, Selected(|f.starts|, start, stop, step);
    forall i: nat ensures i in idx <==> InSlice(n, start, stop, step, i) {
      SelectedAre(n, start, stop, step, i);
    }
    assert IsSelection(idx, n, start, stop, step);
    if idx == [] {
    } else {
      assert InSlice(n, start, stop, step, idx[0]);
      ExtractPicks(f, idx);
      assert IsPick(View(Extract(f, idx)), View(f), idx);
    }
  }
}
