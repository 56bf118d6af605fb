/**
 The flat container as an object whose six lists grow in place, next to the plain list of
 dictionaries it stands in for.
 */
module LogprobContainer {
  import opened Wrappers
  import opened LogprobDict
  import opened FlatLogprobs

  /** The four value lists, row by row. */
  function WithRows(f: Flat, es: seq<Entry>): Flat
    requires Valid(f)
  {
    Append(f, es).(starts := f.starts, ends := f.ends)
  }

  lemma OneMoreRow(f: Flat, es: seq<Entry>, e: Entry)
    requires Valid(f)
    ensures WithRows(f, []) == f
    ensures var g := WithRows(f, es);
      WithRows(f, es + [e]) == Flat(f.starts, f.ends,
        g.tokens + [e.token], g.logprobs + [e.info.logprob], g.ranks + [e.info.rank], g.decoded + [e.info.decoded])
  {
  }

  class Container {
    var startIndices: seq<nat>
    var endIndices: seq<nat>
    var tokenIds: seq<int>
    var logprobs: seq<real>
    var ranks: seq<Option<int>>
    var decodedTokens: seq<Option<string>>

    ghost function Abs(): Flat
      reads this
    {
      Flat(startIndices, endIndices, tokenIds, logprobs, ranks, decodedTokens)
    }

    constructor ()
      ensures Valid(Abs()) && View(Abs()) == []
    {
      startIndices, endIndices := [], [];
      tokenIds, logprobs, ranks, decodedTokens := [], [], [], [];
    }

    method AddRow(e: Entry)
      modifies this`tokenIds, this`logprobs, this`ranks, this`decodedTokens
      ensures tokenIds == old(tokenIds) + [e.token] && logprobs == old(logprobs) + [e.info.logprob]
      ensures ranks == old(ranks) + [e.info.rank] && decodedTokens == old(decodedTokens) + [e.info.decoded]
    {
      tokenIds := tokenIds + [e.token];
      logprobs := logprobs + [e.info.logprob];
      ranks := ranks + [e.info.rank];
      decodedTokens := decodedTokens + [e.info.decoded];
    }

    /** The loop shared by both ways of appending. */
    method AddRows(es: seq<Entry>)
      requires Valid(Abs())
      modifies this`tokenIds, this`logprobs, this`ranks, this`decodedTokens
      ensures Abs() == WithRows(old(Abs()), es)
    {
      hide Append, WithRows;
      ghost var was := Abs();
      assert es[..0] == [];
      OneMoreRow(was, [], Entry(0, Logprob(0.0, None, None)));
      for k := 0 to |es|
        invariant Abs() == WithRows(was, es[..k])
      {
        OneMoreRow(was, es[..k], es[k]);
        assert es[..k + 1] == es[..k] + [es[k]];
        AddRow(es[k]);
      }
      assert es[..|es|] == es;
    }

    /** One more position with the given rows. */
    method AppendPosition(es: seq<Entry>)
      requires Valid(Abs())
      modifies this
      ensures Valid(Abs()) && View(Abs()) == View(old(Abs())) + [Build(es)]
    {
      ghost var was := Abs();
      var start := |logprobs|;
      AddRows(es);
      startIndices := startIndices + [start];
      endIndices := endIndices + [|logprobs|];
      assert Abs() == Append(was, es);
      AppendIsAppend(was, es);
    }

    /** `items` is what `.items()` of the dictionary yields; a missing dictionary yields nothing. */
    method AppendDict(items: Option<Dict>)
      requires Valid(Abs()) && (items.Some? ==> IsDict(items.value))
      modifies this
      ensures Valid(Abs())
      ensures View(Abs()) == View(old(Abs())) + [if items.Some? then items.value else []]
    {
      hide View, Valid;
      var d := if items.Some? then items.value else [];
      BuildFromItems(d);
      AppendPosition(d);
    }

    /** Appends without building the dictionary; duplicate tokens take several rows. */
    method AppendFast(tokens: seq<int>, probs: seq<real>, rankList: seq<int>, decoded: seq<Option<string>>)
      requires Valid(Abs())
      modifies this
      ensures Valid(Abs())
      ensures View(Abs()) == View(old(Abs())) + [Build(Zip(tokens, probs, rankList, decoded))]
    {
      AppendPosition(Zip(tokens, probs, rankList, decoded));
    }

    method Extend(positions: seq<Dict>)
      requires Valid(Abs()) && forall i :: 0 <= i < |positions| ==> IsDict(positions[i])
      modifies this
      ensures Valid(Abs()) && View(Abs()) == View(old(Abs())) + positions
    {
      hide View, Valid, IsDict;
      for k := 0 to |positions|
        invariant Valid(Abs()) && View(Abs()) == View(old(Abs())) + positions[..k]
      {
        AppendDict(Some(positions[k]));
        assert positions[..k + 1] == positions[..k] + [positions[k]];
      }
      assert positions[..|positions|] == positions;
    }

    /** Indexing with an integer, negative ones counting from the end; `None` is an IndexError. */
    method Get(index: int) returns (r: Option<Dict>)
      requires Valid(Abs())
      ensures var n := |View(Abs())|;
        r == if 0 <= index < n then Some(View(Abs())[index])
             else if -n <= index < 0 then Some(View(Abs())[index + n])
             else None
    {
      var n := |startIndices|;
      if index >= n || index < -n {
        return None;
      }
      var i := if index < 0 then index + n else index;
      var d: Dict := [];
      ghost var rows := Rows(Abs(), startIndices[i], endIndices[i]);
      assert rows[..0] == [];
      for k := startIndices[i] to endIndices[i]
        invariant d == Build(rows[..k - startIndices[i]])
      {
        ghost var m := k - startIndices[i];
        assert rows[..m + 1][..m] == rows[..m];
        d := Put(d, Entry(tokenIds[k], Logprob(logprobs[k], ranks[k], decodedTokens[k])));
      }
      assert rows[..|rows|] == rows;
      r := Some(d);
    }

    /** Slicing with a positive step; an empty selection is an IndexError. */
    method GetSlice(start: Option<int>, stop: Option<int>, step: nat) returns (ok: bool, c: Container)
      requires Valid(Abs()) && step > 0
      ensures fresh(c)
      ensures ok <==> SliceHasAny(|View(Abs())|, start, stop, step)
      ensures ok ==> Valid(c.Abs()) && IsSliceOf(View(c.Abs()), View(Abs()), start, stop, step)
    {
      hide Valid, View, SliceHasAny, IsSliceOf, Slice;
      var f := Flat(startIndices, endIndices, tokenIds, logprobs, ranks, decodedTokens);
      var r := Slice(f, start, stop, step);
      SliceIsSlice(f, start, stop, step);
      c := new Container();
      ok := r.Some?;
      if ok {
        c.startIndices, c.endIndices := r.value.starts, r.value.ends;
        c.tokenIds, c.logprobs := r.value.tokens, r.value.logprobs;
        c.ranks, c.decodedTokens := r.value.ranks, r.value.decoded;
      }
    }

    /** Iteration yields the positions in order. */
    method ToList() returns (r: seq<Dict>)
      requires Valid(Abs())
      ensures r == View(Abs())
    {
      r := [];
      for i := 0 to |startIndices|
        invariant r == View(Abs())[..i]
      {
        var item := Get(i);
        r := r + [item.value];
      }
    }
  }

  function Min(a: nat, b: nat): nat { if a < b then a else b }

  /** Python's zip stops at the shortest list. */
  function Zip(tokens: seq<int>, probs: seq<real>, ranks: seq<int>, decoded: seq<Option<string>>): seq<Entry> {
    var n := Min(Min(|tokens|, |probs|), Min(|ranks|, |decoded|));
    seq(n, k requires 0 <= k < n => Entry(tokens[k], Logprob(probs[k], Some(ranks[k]), decoded[k])))
  }

  /** The sampled token's rank, then the ranks 1 to n of the top tokens. */
  function RankList(rank: int, probs: seq<real>, numLogprobs: int): seq<int> {
    var n := if numLogprobs == -1 then |probs| else if numLogprobs < 0 then 0 else numLogprobs;
    [rank] + seq(n, k requires 0 <= k < n => k + 1)
  }

  /** How many rows a position gets: one per token, as far as all lists and the requested number of ranks go. */
  function RowCount(tokens: seq<int>, probs: seq<real>, decoded: seq<Option<string>>, numLogprobs: int): nat {
    var lists := Min(Min(|tokens|, |probs|), |decoded|);
    if numLogprobs == -1 then lists else if numLogprobs < 0 then Min(lists, 1) else Min(lists, numLogprobs + 1)
  }

  /** The first row has the sampled token's rank, row k the rank k; -1 asks for all. */
  lemma RowsAreRanked(
    tokens: seq<int>, probs: seq<real>, decoded: seq<Option<string>>, rank: int, numLogprobs: int, k: nat)
    ensures var rows := Zip(tokens, probs, RankList(rank, probs, numLogprobs), decoded);
      && |rows| == RowCount(tokens, probs, decoded, numLogprobs)
      && (k < |rows| ==>
            rows[k] == Entry(tokens[k], Logprob(probs[k], Some(if k == 0 then rank else k), decoded[k])))
  {
  }

  /** What a position holds for token `t`: the row of its last occurrence. */
  ghost predicate HoldsLastRow(
    d: Dict, tokens: seq<int>, probs: seq<real>, decoded: seq<Option<string>>, rank: int, numLogprobs: int, t: int)
  {
    var n := RowCount(tokens, probs, decoded, numLogprobs);
    match Lookup(d, t)
    case None => t !in tokens[..n]
    case Some(info) =>
      exists k ::
        && 0 <= k < n && tokens[k] == t && t !in tokens[k + 1..n]
        && info == Logprob(probs[k], Some(if k == 0 then rank else k), decoded[k])
  }

  lemma {:induction false} LastWriteIs(rows: seq<Entry>, t: int)
    ensures LastWrite(rows, t).None? ==> forall k :: 0 <= k < |rows| ==> rows[k].token != t
    ensures LastWrite(rows, t).Some? ==>
      exists k :: 0 <= k < |rows| && rows[k] == Entry(t, LastWrite(rows, t).value)
        && forall j :: k < j < |rows| ==> rows[j].token != t
  {
    if rows == [] {
    } else {
      var n := |rows| - 1;
      LastWriteIs(rows[..n], t);
      if rows[n].token == t {
        assert rows[n] == Entry(t, LastWrite(rows, t).value);
      } else if LastWrite(rows, t).Some? {
        var k :| 0 <= k < n && rows[..n][k] == Entry(t, LastWrite(rows, t).value)
          && forall j :: k < j < n ==> rows[..n][j].token != t;
        assert rows[k] == Entry(t, LastWrite(rows, t).value);
        forall j | k < j < |rows| ensures rows[j].token != t { assert j < n ==> rows[j] == rows[..n][j]; }
      }
    }
  }

  /** Every lookup in the new position, read off the arguments. */
  lemma PositionHolds(
    tokens: seq<int>, probs: seq<real>, decoded: seq<Option<string>>, rank: int, numLogprobs: int, t: int)
    ensures var rows := Zip(tokens, probs, RankList(rank, probs, numLogprobs), decoded);
      HoldsLastRow(Build(rows), tokens, probs, decoded, rank, numLogprobs, t)
  {
    hide Zip, RankList, RowCount, Build;
    var rows := Zip(tokens, probs, RankList(rank, probs, numLogprobs), decoded);
    var n := RowCount(tokens, probs, decoded, numLogprobs);
    RowCountFits(tokens, probs, decoded, numLogprobs);
    LookupBuild(rows, t);
    LastWriteIs(rows, t);
    RowsAreRanked(tokens, probs, decoded, rank, numLogprobs, 0);
    forall k: nat | k < n ensures
      rows[k] == Entry(tokens[k], Logprob(probs[k], Some(if k == 0 then rank else k), decoded[k]))
    {
      RowsAreRanked(tokens, probs, decoded, rank, numLogprobs, k);
    }
    if LastWrite(rows, t).Some? {
      var k :| 0 <= k < |rows| && rows[k] == Entry(t, LastWrite(rows, t).value)
        && forall j :: k < j < |rows| ==> rows[j].token != t;
      assert tokens[k] == t;
    }
  }

  lemma RowCountFits(tokens: seq<int>, probs: seq<real>, decoded: seq<Option<string>>, numLogprobs: int)
    ensures var n := RowCount(tokens, probs, decoded, numLogprobs);
      n <= |tokens| && n <= |probs| && n <= |decoded|
  {
  }

  /** The branch for a plain list: a dictionary is built row by row, and for each token the last row counts. */
  method AppendToList(list: seq<Dict>, tokens: seq<int>, probs: seq<real>, decoded: seq<Option<string>>,
                      rank: int, numLogprobs: int) returns (r: seq<Dict>)
    ensures var rows := Zip(tokens, probs, RankList(rank, probs, numLogprobs), decoded);
      && r == list + [Build(rows)] && IsDict(r[|list|])
      && forall t :: Lookup(r[|list|], t) == LastWrite(rows, t)
  {
    ghost var rows := Zip(tokens, probs, RankList(rank, probs, numLogprobs), decoded);
    var ranks := 1 + if numLogprobs == -1 then |probs| else if numLogprobs < 0 then 0 else numLogprobs;
    var d: Dict := [];
    for k := 0 to Min(Min(|tokens|, |probs|), Min(ranks, |decoded|))
      invariant d == Build(rows[..k])
    {
      assert rows[..k + 1][..k] == rows[..k];
      d := Put(d, Entry(tokens[k], Logprob(probs[k], Some(if k == 0 then rank else k), decoded[k])));
    }
    assert rows[..|rows|] == rows;
    BuildIsDict(rows);
    forall t ensures Lookup(d, t) == LastWrite(rows, t) { LookupBuild(rows, t); }
    r := list + [d];
  }

  /** append_logprobs_for_next_position: both branches leave the same list of dictionaries. */
  method AppendForNextPosition(c: Container, list: seq<Dict>, tokens: seq<int>, probs: seq<real>,
                               decoded: seq<Option<string>>, rank: int, numLogprobs: int) returns (r: seq<Dict>)
    requires Valid(c.Abs()) && View(c.Abs()) == list
    modifies c
    ensures Valid(c.Abs()) && View(c.Abs()) == r
    ensures |r| == |list| + 1 && r[..|list|] == list && IsDict(r[|list|])
    ensures forall t :: HoldsLastRow(r[|list|], tokens, probs, decoded, rank, numLogprobs, t)
  {
    hide HoldsLastRow, Zip, RankList;
    forall t ensures var rows := Zip(tokens, probs, RankList(rank, probs, numLogprobs), decoded);
      HoldsLastRow(Build(rows), tokens, probs, decoded, rank, numLogprobs, t)
    {
      PositionHolds(tokens, probs, decoded, rank, numLogprobs, t);
    }
    r := AppendToList(list, tokens, probs, decoded, rank, numLogprobs);
    c.AppendFast(tokens, probs, RankList(rank, probs, numLogprobs), decoded);
  }

  /**
   When the sampled token is also among the top tokens, its first row makes no difference to any
   lookup: the position holds exactly what the top tokens alone would give.
   */
  lemma SampledTokenInTopK(
    tokens: seq<int>, probs: seq<real>, decoded: seq<Option<string>>, rank: int, numLogprobs: int, t: int)
    requires var rows := Zip(tokens, probs, RankList(rank, probs, numLogprobs), decoded);
      rows != [] && LastWrite(rows[1..], rows[0].token).Some?
    ensures var rows := Zip(tokens, probs, RankList(rank, probs, numLogprobs), decoded);
      Lookup(Build(rows), t) == Lookup(Build(rows[1..]), t)
  {
    var rows := Zip(tokens, probs, RankList(rank, probs, numLogprobs), decoded);
    assert [rows[0]] + rows[1..] == rows;
    OverwrittenFirst(rows[0], rows[1..], t);
  }
}
