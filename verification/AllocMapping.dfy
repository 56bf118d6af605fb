/**
 Creating and mapping the chunks of one allocation, with rollback, and the reverse.
 */
module AllocMapping {
  import opened AllocChunks
  import opened AllocDevice

  /** A handle cell and the size of the chunk behind it. */
  datatype Chunk = Chunk(cell: nat, size: nat)

  function Sizes(chunks: seq<Chunk>): (s: seq<nat>)
    ensures |s| == |chunks|
  {
    seq(|chunks|, i requires 0 <= i < |chunks| => chunks[i].size)
  }

  /** Where chunk `i` is mapped. */
  function At(base: nat, chunks: seq<Chunk>, i: nat): nat
    requires i <= |chunks|
  {
    base + Offset(Sizes(chunks), i)
  }

  ghost predicate WellFormed(chunks: seq<Chunk>, cells: map<nat, nat>) {
    && (forall i :: 0 <= i < |chunks| ==> chunks[i].size > 0 && chunks[i].cell in cells)
    && (forall i, j :: 0 <= i < j < |chunks| ==> chunks[i].cell != chunks[j].cell)
  }

  ghost function CellsOf(chunks: seq<Chunk>): set<nat> {
    set i | 0 <= i < |chunks| :: chunks[i].cell
  }

  /** The handles of the first `k` chunks. */
  ghost function HandlesOf(chunks: seq<Chunk>, cells: map<nat, nat>, k: nat): set<nat>
    requires k <= |chunks| && WellFormed(chunks, cells)
  {
    set i | 0 <= i < k :: cells[chunks[i].cell]
  }

  /** The addresses at which the first `k` chunks are mapped. */
  ghost function TilesOf(base: nat, chunks: seq<Chunk>, k: nat): set<nat>
    requires k <= |chunks|
  {
    set i | 0 <= i < k :: At(base, chunks, i)
  }

  ghost predicate DistinctHandles(chunks: seq<Chunk>, cells: map<nat, nat>, k: nat)
    requires k <= |chunks| && WellFormed(chunks, cells)
  {
    forall i, j :: 0 <= i < j < k ==> cells[chunks[i].cell] != cells[chunks[j].cell]
  }

  /** The first `k` chunks are mapped where they belong, each to its own handle. */
  ghost predicate Tiled(mapped: map<nat, Mapping>, base: nat, chunks: seq<Chunk>, cells: map<nat, nat>, k: nat)
    requires k <= |chunks| && WellFormed(chunks, cells)
  {
    forall i :: 0 <= i < k ==>
      && At(base, chunks, i) in mapped
      && mapped[At(base, chunks, i)].size == chunks[i].size
      && mapped[At(base, chunks, i)].handle == cells[chunks[i].cell]
  }

  /** Access to the first `k` chunks is `granted`. */
  ghost predicate Access(mapped: map<nat, Mapping>, base: nat, chunks: seq<Chunk>, k: nat, granted: bool)
    requires k <= |chunks|
  {
    forall i :: 0 <= i < k ==>
      At(base, chunks, i) in mapped && mapped[At(base, chunks, i)].accessible == granted
  }

  /** The handles of the first `k` chunks are live and have the chunks' sizes. */
  ghost predicate Sized(handles: map<nat, nat>, chunks: seq<Chunk>, cells: map<nat, nat>, k: nat)
    requires k <= |chunks| && WellFormed(chunks, cells)
  {
    forall i :: 0 <= i < k ==> cells[chunks[i].cell] in handles && handles[cells[chunks[i].cell]] == chunks[i].size
  }

  /** `handles` is `was` with new handles for the first `k` chunks, one each and as large as the chunk. */
  ghost predicate Issued(was: map<nat, nat>, handles: map<nat, nat>, chunks: seq<Chunk>, cells: map<nat, nat>, k: nat)
    requires k <= |chunks| && WellFormed(chunks, cells)
  {
    && HandlesOf(chunks, cells, k) !! was.Keys
    && handles.Keys == was.Keys + HandlesOf(chunks, cells, k)
    && handles - HandlesOf(chunks, cells, k) == was
    && DistinctHandles(chunks, cells, k)
    && Sized(handles, chunks, cells, k)
  }

  lemma TilesDistinct(base: nat, chunks: seq<Chunk>, cells: map<nat, nat>, i: nat, j: nat)
    requires WellFormed(chunks, cells) && i < j <= |chunks|
    ensures At(base, chunks, i) < At(base, chunks, j)
  {
    OffsetsGrow(Sizes(chunks), i, j);
  }

  lemma NextAddress(base: nat, chunks: seq<Chunk>, i: nat)
    requires i < |chunks|
    ensures At(base, chunks, 0) == base
    ensures At(base, chunks, i + 1) == At(base, chunks, i) + chunks[i].size
  {
    OffsetNext(Sizes(chunks), i);
  }

  /** Cells outside the allocation keep their contents. */
  ghost predicate OnlyCells(before: map<nat, nat>, after: map<nat, nat>, chunks: seq<Chunk>) {
    before.Keys == after.Keys && forall c :: c in before && c !in CellsOf(chunks) ==> after[c] == before[c]
  }

  /** Releases the handles of the first `k` chunks; used by the rollback. */
  method ReleaseFirst(d: Device, chunks: seq<Chunk>, k: nat)
    requires k <= |chunks| && WellFormed(chunks, d.cells)
    modifies d`handles
    ensures d.handles == old(d.handles) - HandlesOf(chunks, d.cells, k)
  {
    for j := 0 to k
      invariant d.handles == old(d.handles) - HandlesOf(chunks, d.cells, j)
    {
      HandlesNext(chunks, d.cells, j);
      var _ := d.CuMemRelease(d.cells[chunks[j].cell]);
    }
  }

  lemma HandlesNext(chunks: seq<Chunk>, cells: map<nat, nat>, k: nat)
    requires k < |chunks| && WellFormed(chunks, cells)
    ensures HandlesOf(chunks, cells, k + 1) == HandlesOf(chunks, cells, k) + {cells[chunks[k].cell]}
  {
  }

  /** Unmaps the first `k` chunks; used by the rollback. */
  method UnmapFirst(d: Device, base: nat, chunks: seq<Chunk>, k: nat)
    requires k <= |chunks| && WellFormed(chunks, d.cells) && Tiled(d.mapped, base, chunks, d.cells, k)
    modifies d`mapped
    ensures d.mapped == old(d.mapped) - TilesOf(base, chunks, k)
  {
    hide TilesOf, Offset, Sizes, WellFormed;
    NoTiles(base, chunks);
    var unmapped := 0;
    for j := 0 to k
      invariant unmapped == Offset(Sizes(chunks), j)
      invariant d.mapped == old(d.mapped) - TilesOf(base, chunks, j)
    {
      NextAddress(base, chunks, j);
      NotYetUnmapped(base, chunks, d.cells, j);
      var err := d.CuMemUnmap(base + unmapped, chunks[j].size);
      unmapped := unmapped + chunks[j].size;
    }
  }

  lemma NotYetUnmapped(base: nat, chunks: seq<Chunk>, cells: map<nat, nat>, k: nat)
    requires k < |chunks| && WellFormed(chunks, cells)
    ensures At(base, chunks, k) !in TilesOf(base, chunks, k)
    ensures TilesOf(base, chunks, k + 1) == TilesOf(base, chunks, k) + {At(base, chunks, k)}
  {
    forall i: nat | i < k ensures At(base, chunks, i) < At(base, chunks, k) {
      TilesDistinct(base, chunks, cells, i, k);
    }
  }

  lemma NoTiles(base: nat, chunks: seq<Chunk>)
    ensures TilesOf(base, chunks, 0) == {} && At(base, chunks, 0) == base
  {
  }

  /** What create_and_map leaves behind when it is entered with an error pending: a handle for the first chunk. */
  ghost predicate OneHandleMore(
    was: map<nat, nat>, handles: map<nat, nat>, chunks: seq<Chunk>, cells: map<nat, nat>)
  {
    && chunks != [] && chunks[0].cell in cells && cells[chunks[0].cell] !in was
    && handles == was[cells[chunks[0].cell] := chunks[0].size]
  }

  /** The first loop of create_and_map: one handle per chunk, or none. */
  method CreateHandles(d: Device, chunks: seq<Chunk>, error0: nat) returns (error: nat)
    requires WellFormed(chunks, d.cells)
    modifies d`handles, d`cells
    ensures WellFormed(chunks, d.cells) && OnlyCells(old(d.cells), d.cells, chunks)
    ensures error0 == 0 && error == 0 ==> Issued(old(d.handles), d.handles, chunks, d.cells, |chunks|)
    ensures error0 == 0 && error != 0 ==> d.handles == old(d.handles)
    ensures error0 != 0 ==> error != 0
    ensures error0 != 0 && chunks == [] ==> d.handles == old(d.handles)
    ensures error0 != 0 && chunks != [] ==>
      d.handles == old(d.handles) || OneHandleMore(old(d.handles), d.handles, chunks, d.cells)
  {
    hide Issued, HandlesOf;
    NothingIssued(d.handles, chunks, d.cells);
    error := error0;
    for i := 0 to |chunks|
      invariant WellFormed(chunks, d.cells) && OnlyCells(old(d.cells), d.cells, chunks)
      invariant error == error0 && (i > 0 ==> error == 0)
      invariant Issued(old(d.handles), d.handles, chunks, d.cells, i) && (i == 0 ==> d.handles == old(d.handles))
    {
      ghost var before, issued := d.cells, d.handles;
      var err := d.CuMemCreate(chunks[i].cell, chunks[i].size);
      if err != 0 {
        error := err;
      } else {
        CreatedOne(chunks, before, d.cells, i, old(d.handles), issued);
      }
      if error != 0 {
        IssuedIsUndone(old(d.handles), d.handles, issued, chunks, before, d.cells, i);
        ReleaseFirst(d, chunks, i);
        return;
      }
    }
  }

  lemma NothingIssued(handles: map<nat, nat>, chunks: seq<Chunk>, cells: map<nat, nat>)
    requires WellFormed(chunks, cells)
    ensures Issued(handles, handles, chunks, cells, 0) && HandlesOf(chunks, cells, 0) == {}
  {
    assert handles - {} == handles;
  }

  /** One more handle, in the cell of chunk `i`. */
  lemma CreatedOne(
    chunks: seq<Chunk>, before: map<nat, nat>, after: map<nat, nat>, i: nat, was: map<nat, nat>, issued: map<nat, nat>)
    requires i < |chunks| && WellFormed(chunks, before) && chunks[i].cell in after
    requires after == before[chunks[i].cell := after[chunks[i].cell]]
    requires Issued(was, issued, chunks, before, i) && after[chunks[i].cell] !in issued
    ensures WellFormed(chunks, after) && HandlesOf(chunks, after, i) == HandlesOf(chunks, before, i)
    ensures Issued(was, issued[after[chunks[i].cell] := chunks[i].size], chunks, after, i + 1)
    ensures chunks[i].cell in CellsOf(chunks)
  {
    hide HandlesOf, CellsOf;
    StoredOne(chunks, before, after, i);
    IssueOne(was, issued, HandlesOf(chunks, before, i), after[chunks[i].cell], chunks[i].size);
    forall j | 0 <= j < i
      ensures after[chunks[j].cell] == before[chunks[j].cell] && after[chunks[j].cell] in issued
    {
    }
  }

  lemma StoredOne(chunks: seq<Chunk>, before: map<nat, nat>, after: map<nat, nat>, i: nat)
    requires i < |chunks| && WellFormed(chunks, before) && chunks[i].cell in after
    requires after == before[chunks[i].cell := after[chunks[i].cell]]
    ensures WellFormed(chunks, after) && HandlesOf(chunks, after, i) == HandlesOf(chunks, before, i)
    ensures HandlesOf(chunks, after, i + 1) == HandlesOf(chunks, before, i) + {after[chunks[i].cell]}
    ensures chunks[i].cell in CellsOf(chunks)
  {
    assert forall j :: 0 <= j < i ==> after[chunks[j].cell] == before[chunks[j].cell];
    assert WellFormed(chunks, after);
    HandlesNext(chunks, after, i);
  }

  lemma IssueOne(was: map<nat, nat>, issued: map<nat, nat>, hs: set<nat>, h: nat, size: nat)
    requires hs !! was.Keys && issued.Keys == was.Keys + hs && issued - hs == was && h !in issued
    ensures var now := issued[h := size];
      (hs + {h}) !! was.Keys && now.Keys == was.Keys + (hs + {h}) && now - (hs + {h}) == was
  {
  }

  /** Releasing what was issued leads back, whether or not the last call stored a handle. */
  lemma IssuedIsUndone(
    was: map<nat, nat>, now: map<nat, nat>, issued: map<nat, nat>,
    chunks: seq<Chunk>, before: map<nat, nat>, after: map<nat, nat>, i: nat)
    requires i < |chunks| && WellFormed(chunks, before) && WellFormed(chunks, after)
    requires Issued(was, issued, chunks, before, i) && HandlesOf(chunks, after, i) == HandlesOf(chunks, before, i)
    ensures now == issued ==> now - HandlesOf(chunks, after, i) == was
    ensures i == 0 ==> issued == was && HandlesOf(chunks, after, 0) == {} && now - {} == now
  {
    assert i == 0 ==> issued - {} == issued;
  }

  /** `mapped` is `was` with the first `k` chunks mapped on top, on addresses that were free. */
  ghost predicate LaidOver(was: map<nat, Mapping>, mapped: map<nat, Mapping>,
                           base: nat, chunks: seq<Chunk>, cells: map<nat, nat>, k: nat)
    requires k <= |chunks| && WellFormed(chunks, cells)
  {
    && Tiled(mapped, base, chunks, cells, k)
    && TilesOf(base, chunks, k) !! was.Keys
    && mapped.Keys == was.Keys + TilesOf(base, chunks, k)
    && mapped - TilesOf(base, chunks, k) == was
  }

  lemma LayNext(was: map<nat, Mapping>, mapped: map<nat, Mapping>,
                base: nat, chunks: seq<Chunk>, cells: map<nat, nat>, k: nat)
    requires k < |chunks| && WellFormed(chunks, cells) && LaidOver(was, mapped, base, chunks, cells, k)
    requires At(base, chunks, k) !in mapped && Access(mapped, base, chunks, k, false)
    ensures var m := mapped[At(base, chunks, k) := Mapping(chunks[k].size, cells[chunks[k].cell], false)];
      LaidOver(was, m, base, chunks, cells, k + 1) && Access(m, base, chunks, k + 1, false)
  {
    hide At, TilesOf;
    NotYetUnmapped(base, chunks, cells, k);
    var m := mapped[At(base, chunks, k) := Mapping(chunks[k].size, cells[chunks[k].cell], false)];
    assert m - TilesOf(base, chunks, k + 1) == was;
  }

  /** The second loop: map every chunk behind the previous one, or undo everything. */
  method MapHandles(d: Device, base: nat, chunks: seq<Chunk>) returns (error: nat)
    requires WellFormed(chunks, d.cells)
    modifies d`handles, d`mapped
    ensures error == 0 ==>
      && d.handles == old(d.handles) && LaidOver(old(d.mapped), d.mapped, base, chunks, d.cells, |chunks|)
      && Access(d.mapped, base, chunks, |chunks|, false)
    ensures error != 0 ==>
      d.mapped == old(d.mapped) && d.handles == old(d.handles) - HandlesOf(chunks, d.cells, |chunks|)
  {
    hide Tiled, TilesOf, HandlesOf, Access;
    error := 0;
    var offset := 0;
    LayNothing(d.mapped, base, chunks, d.cells);
    for i := 0 to |chunks|
      invariant error == 0 && offset == Offset(Sizes(chunks), i) && d.handles == old(d.handles)
      invariant LaidOver(old(d.mapped), d.mapped, base, chunks, d.cells, i)
      invariant Access(d.mapped, base, chunks, i, false)
    {
      NextAddress(base, chunks, i);
      ghost var before := d.mapped;
      var err := d.CuMemMap(base + offset, chunks[i].size, d.cells[chunks[i].cell]);
      if err != 0 {
        error := err;
        UnmapFirst(d, base, chunks, i);
        ReleaseFirst(d, chunks, |chunks|);
        return;
      }
      LayNext(old(d.mapped), before, base, chunks, d.cells, i);
      offset := offset + chunks[i].size;
    }
  }

  lemma LayNothing(mapped: map<nat, Mapping>, base: nat, chunks: seq<Chunk>, cells: map<nat, nat>)
    requires WellFormed(chunks, cells)
    ensures LaidOver(mapped, mapped, base, chunks, cells, 0) && Access(mapped, base, chunks, 0, false)
  {
  }

  /** How create_and_map ended. */
  datatype Outcome = Mapped | RolledBack | AccessDenied | StaleError

  /**
   create_and_map.  Entered without a pending error, a failed create or map call leaves handles
   and mappings exactly as they were.  Only the last call, which grants access, is not undone.
   */
  method CreateAndMap(d: Device, base: nat, size: nat, chunks: seq<Chunk>, error0: nat)
    returns (error: nat, outcome: Outcome)
    requires WellFormed(chunks, d.cells) && Sum(Sizes(chunks)) == size
    modifies d`handles, d`mapped, d`cells
    ensures WellFormed(chunks, d.cells) && OnlyCells(old(d.cells), d.cells, chunks)
    ensures error == 0 <==> outcome == Mapped
    ensures outcome == StaleError <==> error0 != 0
    ensures outcome == RolledBack ==> d.handles == old(d.handles) && d.mapped == old(d.mapped)
    ensures outcome == Mapped || outcome == AccessDenied ==>
      && Issued(old(d.handles), d.handles, chunks, d.cells, |chunks|)
      && Access(d.mapped, base, chunks, |chunks|, outcome == Mapped)
    ensures outcome == Mapped ==>
      LaidOver(Grant(old(d.mapped), base, size), d.mapped, base, chunks, d.cells, |chunks|)
    ensures outcome == AccessDenied ==> LaidOver(old(d.mapped), d.mapped, base, chunks, d.cells, |chunks|)
    ensures outcome == StaleError ==>
      && d.mapped == old(d.mapped)
      && (d.handles == old(d.handles) || OneHandleMore(old(d.handles), d.handles, chunks, d.cells))
  {
    hide Issued, LaidOver, Access, Grant, Sum, Sizes;
    NoChunksNoSize(chunks);
    error := CreateHandles(d, chunks, error0);
    if chunks == [] { LayEmpty(d.mapped, base, chunks, d.cells); }
    if size == 0 { GrantNothing(d.mapped, base); }
    if error0 != 0 && chunks != [] {
      return error, StaleError;
    }
    if error != 0 && error0 == 0 {
      return error, RolledBack;
    }
    if error0 == 0 { IssuedIsReleased(old(d.handles), d.handles, chunks, d.cells); }
    var mapError := MapHandles(d, base, chunks);
    if mapError != 0 {
      return mapError, if error0 == 0 then RolledBack else StaleError;
    }
    ghost var laid := d.mapped;
    var accessError := d.CuMemSetAccess(base, size);
    if accessError != 0 {
      return accessError, if error0 == 0 then AccessDenied else StaleError;
    }
    GrantAccess(old(d.mapped), laid, base, size, chunks, d.cells);
    return error, if error0 == 0 then Mapped else StaleError;
  }

  lemma GrantNothing(mapped: map<nat, Mapping>, base: nat)
    ensures Grant(mapped, base, 0) == mapped
  {
  }

  lemma NoChunksNoSize(chunks: seq<Chunk>)
    ensures chunks == [] ==> Sum(Sizes(chunks)) == 0
  {
  }

  lemma IssuedIsReleased(was: map<nat, nat>, handles: map<nat, nat>, chunks: seq<Chunk>, cells: map<nat, nat>)
    requires WellFormed(chunks, cells) && Issued(was, handles, chunks, cells, |chunks|)
    ensures handles - HandlesOf(chunks, cells, |chunks|) == was
  {
  }

  /** Granting access to the whole range reaches every chunk, and keeps the layout. */
  lemma GrantAccess(
    was: map<nat, Mapping>, laid: map<nat, Mapping>, base: nat, size: nat, chunks: seq<Chunk>, cells: map<nat, nat>)
    requires WellFormed(chunks, cells) && Sum(Sizes(chunks)) == size
    requires LaidOver(was, laid, base, chunks, cells, |chunks|)
    ensures LaidOver(Grant(was, base, size), Grant(laid, base, size), base, chunks, cells, |chunks|)
    ensures Access(Grant(laid, base, size), base, chunks, |chunks|, true)
  {
    hide At, Sum, Sizes, TilesOf;
    var tiles := TilesOf(base, chunks, |chunks|);
    forall i: nat | i < |chunks| ensures base <= At(base, chunks, i) < base + size {
      TileInside(base, chunks, i);
    }
    assert Grant(laid, base, size) - tiles == Grant(laid - tiles, base, size);
  }

  lemma TileInside(base: nat, chunks: seq<Chunk>, i: nat)
    requires i < |chunks| && chunks[i].size > 0
    ensures base <= At(base, chunks, i) < base + Sum(Sizes(chunks))
  {
    NextAddress(base, chunks, i);
    OffsetsGrow(Sizes(chunks), i + 1, |chunks|);
  }

  /** Mapping no chunks changes nothing. */
  lemma LayEmpty(was: map<nat, Mapping>, base: nat, chunks: seq<Chunk>, cells: map<nat, nat>)
    requires chunks == [] && WellFormed(chunks, cells)
    ensures forall m :: LaidOver(was, m, base, chunks, cells, 0) ==> m == was
  {
    assert TilesOf(base, chunks, 0) == {};
  }

  /** Chunk `i` is mapped at its place with its size, so that unmapping it succeeds. */
  ghost predicate IsMapped(mapped: map<nat, Mapping>, base: nat, chunks: seq<Chunk>, i: nat)
    requires i < |chunks|
  {
    At(base, chunks, i) in mapped && mapped[At(base, chunks, i)].size == chunks[i].size
  }

  /** Where unmapping the first `k` chunks takes something away. */
  ghost function MappedTiles(mapped: map<nat, Mapping>, base: nat, chunks: seq<Chunk>, k: nat): set<nat>
    requires k <= |chunks|
  {
    set i | 0 <= i < k && IsMapped(mapped, base, chunks, i) :: At(base, chunks, i)
  }

  ghost predicate AllMapped(mapped: map<nat, Mapping>, base: nat, chunks: seq<Chunk>, k: nat)
    requires k <= |chunks|
  {
    forall i :: 0 <= i < k ==> IsMapped(mapped, base, chunks, i)
  }

  lemma MappedTilesNext(mapped: map<nat, Mapping>, base: nat, chunks: seq<Chunk>, cells: map<nat, nat>, k: nat)
    requires k < |chunks| && WellFormed(chunks, cells)
    ensures At(base, chunks, k) !in MappedTiles(mapped, base, chunks, k)
    ensures MappedTiles(mapped, base, chunks, k + 1) ==
      MappedTiles(mapped, base, chunks, k) + if IsMapped(mapped, base, chunks, k) then {At(base, chunks, k)} else {}
    ensures AllMapped(mapped, base, chunks, k + 1) <==>
      AllMapped(mapped, base, chunks, k) && IsMapped(mapped, base, chunks, k)
  {
    hide At;
    forall i: nat | i < k ensures At(base, chunks, i) != At(base, chunks, k) {
      TilesDistinct(base, chunks, cells, i, k);
    }
  }

  lemma NoMappedTiles(mapped: map<nat, Mapping>, base: nat, chunks: seq<Chunk>)
    ensures MappedTiles(mapped, base, chunks, 0) == {} && AllMapped(mapped, base, chunks, 0)
    ensures At(base, chunks, 0) == base
  {
  }

  /** A tiled range is mapped at every chunk. */
  lemma TiledIsMapped(mapped: map<nat, Mapping>, base: nat, chunks: seq<Chunk>, cells: map<nat, nat>)
    requires WellFormed(chunks, cells) && Tiled(mapped, base, chunks, cells, |chunks|)
    ensures AllMapped(mapped, base, chunks, |chunks|)
    ensures MappedTiles(mapped, base, chunks, |chunks|) == TilesOf(base, chunks, |chunks|)
  {
    hide At;
    assert AllMapped(mapped, base, chunks, |chunks|);
  }

  method UnmapAll(d: Device, base: nat, chunks: seq<Chunk>) returns (firstError: nat)
    requires WellFormed(chunks, d.cells)
    modifies d`mapped
    ensures d.mapped == old(d.mapped) - MappedTiles(old(d.mapped), base, chunks, |chunks|)
    ensures firstError == 0 <==> AllMapped(old(d.mapped), base, chunks, |chunks|)
  {
    hide MappedTiles, AllMapped, Offset, Sizes, WellFormed;
    NoMappedTiles(d.mapped, base, chunks);
    firstError := 0;
    var offset := 0;
    for i := 0 to |chunks|
      invariant offset == Offset(Sizes(chunks), i)
      invariant d.mapped == old(d.mapped) - MappedTiles(old(d.mapped), base, chunks, i)
      invariant firstError == 0 <==> AllMapped(old(d.mapped), base, chunks, i)
    {
      NextAddress(base, chunks, i);
      MappedTilesNext(old(d.mapped), base, chunks, d.cells, i);
      var status := d.CuMemUnmap(base + offset, chunks[i].size);
      if status != 0 && firstError == 0 {
        firstError := status;
      }
      offset := offset + chunks[i].size;
    }
  }

  /** The first `k` chunks hold different handles, all of them live. */
  ghost predicate AllLive(handles: set<nat>, chunks: seq<Chunk>, cells: map<nat, nat>, k: nat)
    requires k <= |chunks| && WellFormed(chunks, cells)
  {
    HandlesOf(chunks, cells, k) <= handles && DistinctHandles(chunks, cells, k)
  }

  lemma AllLiveNext(handles: set<nat>, chunks: seq<Chunk>, cells: map<nat, nat>, k: nat)
    requires k < |chunks| && WellFormed(chunks, cells)
    ensures HandlesOf(chunks, cells, k + 1) == HandlesOf(chunks, cells, k) + {cells[chunks[k].cell]}
    ensures AllLive(handles, chunks, cells, k + 1) <==>
      AllLive(handles, chunks, cells, k) && cells[chunks[k].cell] in handles - HandlesOf(chunks, cells, k)
  {
    HandlesNext(chunks, cells, k);
    var h := cells[chunks[k].cell];
    if AllLive(handles, chunks, cells, k) && h !in HandlesOf(chunks, cells, k) {
      forall i | 0 <= i < k ensures cells[chunks[i].cell] != h {
        assert cells[chunks[i].cell] in HandlesOf(chunks, cells, k);
      }
    }
  }

  method ReleaseAll(d: Device, chunks: seq<Chunk>, error0: nat) returns (firstError: nat)
    requires WellFormed(chunks, d.cells)
    modifies d`handles
    ensures d.handles == old(d.handles) - HandlesOf(chunks, d.cells, |chunks|)
    ensures firstError == 0 <==> error0 == 0 && AllLive(old(d.handles).Keys, chunks, d.cells, |chunks|)
  {
    hide AllLive, HandlesOf;
    NothingReleased(d.handles.Keys, chunks, d.cells);
    assert d.handles - {} == d.handles;
    firstError := error0;
    for i := 0 to |chunks|
      invariant d.handles == old(d.handles) - HandlesOf(chunks, d.cells, i)
      invariant firstError == 0 <==> error0 == 0 && AllLive(old(d.handles).Keys, chunks, d.cells, i)
    {
      AllLiveNext(old(d.handles).Keys, chunks, d.cells, i);
      var status := d.CuMemRelease(d.cells[chunks[i].cell]);
      if status != 0 && firstError == 0 {
        firstError := status;
      }
    }
  }

  lemma NothingReleased(handles: set<nat>, chunks: seq<Chunk>, cells: map<nat, nat>)
    requires WellFormed(chunks, cells)
    ensures HandlesOf(chunks, cells, 0) == {} && AllLive(handles, chunks, cells, 0)
  {
  }

  /**
   unmap_and_release: goes through all chunks whatever happens.  It leaves the pending error alone
   iff every chunk was mapped and held a live handle of its own.
   */
  method UnmapAndRelease(d: Device, base: nat, chunks: seq<Chunk>, error0: nat) returns (error: nat)
    requires WellFormed(chunks, d.cells)
    modifies d`handles, d`mapped
    ensures d.handles == old(d.handles) - HandlesOf(chunks, d.cells, |chunks|)
    ensures d.mapped == old(d.mapped) - MappedTiles(old(d.mapped), base, chunks, |chunks|)
    ensures var clean := AllMapped(old(d.mapped), base, chunks, |chunks|)
                      && AllLive(old(d.handles).Keys, chunks, d.cells, |chunks|);
      (clean ==> error == error0) && (!clean ==> error != 0)
  {
    hide AllLive, AllMapped, MappedTiles, HandlesOf;
    var firstError := UnmapAll(d, base, chunks);
    firstError := ReleaseAll(d, chunks, firstError);
    error := if firstError != 0 then firstError else error0;
  }
}
