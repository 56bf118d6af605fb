/**
 The books: every reservation, handle, mapping and handle cell belongs to exactly one registered
 allocation, and a sleeping allocation owns no handle and no mapping.
 */
module AllocLedger {
  import opened AllocChunks
  import opened AllocPool
  import opened AllocDevice
  import opened AllocMapping

  datatype Allocation = Allocation(size: nat, chunks: seq<Chunk>)

  type Registry = map<nat, Allocation>

  datatype World = World(
    reserved: map<nat, nat>, handles: map<nat, nat>, mapped: map<nat, Mapping>, cells: map<nat, nat>)

  const EMPTY := World(map[], map[], map[], map[])

  ghost function CellPool(reg: Registry): Pool {
    map a | a in reg :: CellsOf(reg[a].chunks)
  }

  ghost predicate AllWellFormed(reg: Registry, cells: map<nat, nat>) {
    forall a :: a in reg ==> WellFormed(reg[a].chunks, cells) && Sum(Sizes(reg[a].chunks)) == reg[a].size
  }

  ghost function HandlesAt(reg: Registry, cells: map<nat, nat>, a: nat): set<nat>
    requires AllWellFormed(reg, cells) && a in reg
  {
    HandlesOf(reg[a].chunks, cells, |reg[a].chunks|)
  }

  ghost function TilesAt(reg: Registry, a: nat): set<nat>
    requires a in reg
  {
    TilesOf(a, reg[a].chunks, |reg[a].chunks|)
  }

  ghost function HandlePool(reg: Registry, awake: set<nat>, cells: map<nat, nat>): Pool
    requires AllWellFormed(reg, cells)
  {
    map a | a in reg :: if a in awake then HandlesAt(reg, cells, a) else {}
  }

  ghost function TilePool(reg: Registry, awake: set<nat>): Pool {
    map a | a in reg :: if a in awake then TilesAt(reg, a) else {}
  }

  /** An awake allocation is fully mapped and accessible, chunk after chunk, to handles of its own and of its sizes. */
  ghost predicate IsAwake(w: World, reg: Registry, a: nat)
    requires AllWellFormed(reg, w.cells) && a in reg
  {
    && DistinctHandles(reg[a].chunks, w.cells, |reg[a].chunks|)
    && Tiled(w.mapped, a, reg[a].chunks, w.cells, |reg[a].chunks|)
    && Sized(w.handles, reg[a].chunks, w.cells, |reg[a].chunks|)
    && Access(w.mapped, a, reg[a].chunks, |reg[a].chunks|, true)
  }

  ghost predicate CellBooks(reg: Registry, cells: map<nat, nat>) {
    AllWellFormed(reg, cells) && Disjoint(CellPool(reg)) && cells.Keys == Union(CellPool(reg))
  }

  ghost predicate HandleBooks(reg: Registry, awake: set<nat>, cells: map<nat, nat>, handles: set<nat>)
    requires AllWellFormed(reg, cells)
  {
    Disjoint(HandlePool(reg, awake, cells)) && handles == Union(HandlePool(reg, awake, cells))
  }

  ghost predicate TileBooks(reg: Registry, awake: set<nat>, tiles: set<nat>) {
    Disjoint(TilePool(reg, awake)) && tiles == Union(TilePool(reg, awake))
  }

  ghost function Reservations(reg: Registry): map<nat, nat> {
    map a | a in reg :: reg[a].size
  }

  /** No two allocations have an address in common. */
  ghost predicate RangesApart(reg: Registry) {
    forall a, b :: a in reg && b in reg && a != b ==> Separate(a, reg[a].size, b, reg[b].size)
  }

  ghost predicate Accounted(w: World, reg: Registry, awake: set<nat>) {
    && awake <= reg.Keys
    && w.reserved == Reservations(reg)
    && RangesApart(reg)
    && CellBooks(reg, w.cells)
    && HandleBooks(reg, awake, w.cells, w.handles.Keys)
    && TileBooks(reg, awake, w.mapped.Keys)
    && (forall a :: a in awake ==> IsAwake(w, reg, a))
  }

  lemma RangesRegistered(reg: Registry, a: nat, alloc: Allocation)
    requires RangesApart(reg) && Unreserved(Reservations(reg), a, alloc.size)
    ensures a !in reg && RangesApart(reg[a := alloc])
    ensures Reservations(reg[a := alloc]) == Reservations(reg)[a := alloc.size]
  {
    forall b | b in reg ensures b in Reservations(reg) && Separate(a, alloc.size, b, reg[b].size) {
      assert b in Reservations(reg);
    }
  }

  lemma RangesDropped(reg: Registry, a: nat)
    requires RangesApart(reg)
    ensures RangesApart(reg - {a}) && Reservations(reg - {a}) == Reservations(reg) - {a}
  {
  }

  lemma EmptyIsAccounted()
    ensures Accounted(EMPTY, map[], {})
  {
  }

  /** When nothing is registered any more, the device holds nothing. */
  lemma NothingRegisteredNothingHeld(w: World, awake: set<nat>)
    requires Accounted(w, map[], awake)
    ensures w == EMPTY
  {
    assert w.cells.Keys == {} && w.mapped.Keys == {};
  }

  /** Every address of an awake allocation lies in exactly one of its mappings: no gap and no overlap. */
  lemma AwakeRangeIsCovered(w: World, reg: Registry, awake: set<nat>, a: nat, x: nat) returns (i: nat)
    requires Accounted(w, reg, awake) && a in awake && a <= x < a + reg[a].size
    ensures i < |reg[a].chunks| && At(a, reg[a].chunks, i) in w.mapped && w.mapped[At(a, reg[a].chunks, i)].accessible
    ensures At(a, reg[a].chunks, i) <= x < At(a, reg[a].chunks, i) + w.mapped[At(a, reg[a].chunks, i)].size
    ensures forall j: nat | j < |reg[a].chunks| ::
      At(a, reg[a].chunks, j) <= x < At(a, reg[a].chunks, j) + reg[a].chunks[j].size ==> j == i
  {
    hide HandleBooks, TileBooks, Disjoint, Union;
    var chunks := reg[a].chunks;
    var sizes := Sizes(chunks);
    assert IsAwake(w, reg, a);
    assert sizes[..|sizes|] == sizes;
    i := ChunksCover(sizes, x - a, |sizes|);
    NextAddress(a, chunks, i);
    forall j: nat | j < |chunks| && At(a, chunks, j) <= x < At(a, chunks, j) + chunks[j].size
      ensures j == i
    {
      NextAddress(a, chunks, j);
      ChunksDisjoint(sizes, x - a, i, j);
    }
  }

  /** Other allocations do not see changes to the cells of one. */
  lemma SameHandles(reg: Registry, before: map<nat, nat>, after: map<nat, nat>, a: nat, b: nat)
    requires AllWellFormed(reg, before) && a in reg && b in reg && a != b
    requires Disjoint(CellPool(reg)) && OnlyCells(before, after, reg[a].chunks)
    ensures AllWellFormed(reg, after)
    ensures forall i :: 0 <= i < |reg[b].chunks| ==>
      reg[b].chunks[i].cell in after && after[reg[b].chunks[i].cell] == before[reg[b].chunks[i].cell]
    ensures HandlesAt(reg, after, b) == HandlesAt(reg, before, b)
  {
    hide Sum, Sizes, Union, HandlesOf, Tiled, DistinctHandles;
    assert CellPool(reg)[a] !! CellPool(reg)[b];
    forall i | 0 <= i < |reg[b].chunks|
      ensures after[reg[b].chunks[i].cell] == before[reg[b].chunks[i].cell]
    {
      assert reg[b].chunks[i].cell in CellsOf(reg[b].chunks);
    }
    SameContents(reg[b].chunks, before, after);
  }

  lemma CellsUnchanged(reg: Registry, before: map<nat, nat>, after: map<nat, nat>, a: nat)
    requires CellBooks(reg, before) && a in reg && OnlyCells(before, after, reg[a].chunks)
    ensures CellBooks(reg, after)
  {
  }

  lemma HandlesAdded(
    reg: Registry, awake: set<nat>, before: map<nat, nat>, after: map<nat, nat>, handles: set<nat>, a: nat)
    requires CellBooks(reg, before) && HandleBooks(reg, awake, before, handles) && a in reg && a !in awake
    requires OnlyCells(before, after, reg[a].chunks) && AllWellFormed(reg, after)
    requires HandlesAt(reg, after, a) !! handles
    ensures HandleBooks(reg, awake + {a}, after, handles + HandlesAt(reg, after, a))
  {
    hide AllWellFormed, HandlesAt, Union, Disjoint, OnlyCells;
    Put(HandlePool(reg, awake, before), a, HandlesAt(reg, after, a));
    forall b | b in reg && b != a
      ensures HandlesAt(reg, after, b) == HandlesAt(reg, before, b)
    {
      SameHandles(reg, before, after, a, b);
    }
    assert HandlePool(reg, awake + {a}, after) == HandlePool(reg, awake, before)[a := HandlesAt(reg, after, a)];
  }

  lemma TilesAdded(reg: Registry, awake: set<nat>, tiles: set<nat>, a: nat)
    requires TileBooks(reg, awake, tiles) && a in reg && a !in awake && TilesAt(reg, a) !! tiles
    ensures TileBooks(reg, awake + {a}, tiles + TilesAt(reg, a))
  {
    hide TilesAt, Union, Disjoint;
    Put(TilePool(reg, awake), a, TilesAt(reg, a));
    assert TilePool(reg, awake + {a}) == TilePool(reg, awake)[a := TilesAt(reg, a)];
  }

  lemma HandlesInBooks(reg: Registry, awake: set<nat>, cells: map<nat, nat>, handles: set<nat>, b: nat)
    requires AllWellFormed(reg, cells) && HandleBooks(reg, awake, cells, handles) && b in awake && b in reg
    ensures HandlesAt(reg, cells, b) <= handles
  {
    hide AllWellFormed, HandlesAt;
    Take(HandlePool(reg, awake, cells), b);
  }

  lemma TilesInBooks(reg: Registry, awake: set<nat>, tiles: set<nat>, b: nat)
    requires TileBooks(reg, awake, tiles) && b in awake && b in reg
    ensures TilesAt(reg, b) <= tiles
  {
    Take(TilePool(reg, awake), b);
  }

  lemma StaysAwake(w: World, v: World, reg: Registry, a: nat, b: nat)
    requires AllWellFormed(reg, w.cells) && a in reg && b in reg && a != b
    requires Disjoint(CellPool(reg)) && OnlyCells(w.cells, v.cells, reg[a].chunks)
    requires IsAwake(w, reg, b)
    requires forall x :: x in w.mapped && x !in TilesOf(a, reg[a].chunks, |reg[a].chunks|) ==>
      x in v.mapped && v.mapped[x] == w.mapped[x]
    requires TilesOf(a, reg[a].chunks, |reg[a].chunks|) !! TilesOf(b, reg[b].chunks, |reg[b].chunks|)
    requires forall h :: h in w.handles ==> h in v.handles && v.handles[h] == w.handles[h]
    ensures AllWellFormed(reg, v.cells) && IsAwake(v, reg, b)
  {
    SameHandles(reg, w.cells, v.cells, a, b);
    forall i | 0 <= i < |reg[b].chunks|
      ensures var x := At(b, reg[b].chunks, i); x in v.mapped && v.mapped[x] == w.mapped[x]
    {
      assert At(b, reg[b].chunks, i) in TilesOf(b, reg[b].chunks, |reg[b].chunks|);
    }
  }

  // ----- the four things that can happen to an allocation -----

  /** The chunks of `a` were created and mapped. */
  ghost predicate WokeUp(w: World, v: World, reg: Registry, a: nat)
    requires a in reg
  {
    var chunks := reg[a].chunks;
    && v.reserved == w.reserved && OnlyCells(w.cells, v.cells, chunks) && WellFormed(chunks, v.cells)
    && Issued(w.handles, v.handles, chunks, v.cells, |chunks|)
    && LaidOver(w.mapped, v.mapped, a, chunks, v.cells, |chunks|)
  }

  lemma WakeKeepsBooks(w: World, v: World, reg: Registry, awake: set<nat>, a: nat)
    requires Accounted(w, reg, awake) && a in reg && a !in awake && WokeUp(w, v, reg, a)
    requires Access(v.mapped, a, reg[a].chunks, |reg[a].chunks|, true)
    ensures Accounted(v, reg, awake + {a})
  {
    hide HandlesOf, TilesOf, Tiled, DistinctHandles, HandleBooks, TileBooks, AllWellFormed, WellFormed, At, Sized,
         Access;
    CellsUnchanged(reg, w.cells, v.cells, a);
    HandlesAdded(reg, awake, w.cells, v.cells, w.handles.Keys, a);
    TilesAdded(reg, awake, w.mapped.Keys, a);
    forall b | b in awake ensures IsAwake(v, reg, b) {
      TilesInBooks(reg, awake, w.mapped.Keys, b);
      StaysAwake(w, v, reg, a, b);
    }
  }

  /** The chunks of `a` were unmapped and released. */
  ghost predicate FellAsleep(w: World, v: World, reg: Registry, a: nat)
    requires AllWellFormed(reg, w.cells) && a in reg
  {
    && v.reserved == w.reserved && v.cells == w.cells
    && v.handles == w.handles - HandlesAt(reg, w.cells, a)
    && v.mapped == w.mapped - TilesAt(reg, a)
  }

  lemma SleepKeepsBooks(w: World, v: World, reg: Registry, awake: set<nat>, a: nat)
    requires Accounted(w, reg, awake) && a in awake && FellAsleep(w, v, reg, a)
    ensures Accounted(v, reg, awake - {a})
    ensures HandlesAt(reg, w.cells, a) <= w.handles.Keys
  {
    hide HandlesAt, TilesAt, AllWellFormed, Union, Disjoint, IsAwake, RangesApart, Reservations;
    Take(HandlePool(reg, awake, w.cells), a);
    Take(TilePool(reg, awake), a);
    assert HandlePool(reg, awake - {a}, v.cells) == HandlePool(reg, awake, w.cells)[a := {}];
    assert TilePool(reg, awake - {a}) == TilePool(reg, awake)[a := {}];
    forall b | b in awake - {a} ensures IsAwake(v, reg, b) {
      TilesStay(w, v, reg, awake, a, b);
    }
  }

  lemma TilesStay(w: World, v: World, reg: Registry, awake: set<nat>, a: nat, b: nat)
    requires Accounted(w, reg, awake) && a in awake && b in awake && a != b && FellAsleep(w, v, reg, a)
    ensures IsAwake(v, reg, b)
  {
    hide Union, AllWellFormed, RangesApart, Reservations, HandlesAt, TilesAt, IsAwake;
    assert TilePool(reg, awake)[a] !! TilePool(reg, awake)[b];
    assert HandlePool(reg, awake, w.cells)[a] !! HandlePool(reg, awake, w.cells)[b];
    assert IsAwake(w, reg, b);
    StaysApart(w, v, reg, a, b);
  }

  /** Taking away the handles and tiles of one allocation does not touch those of another. */
  lemma StaysApart(w: World, v: World, reg: Registry, a: nat, b: nat)
    requires AllWellFormed(reg, w.cells) && a in reg && b in reg && FellAsleep(w, v, reg, a) && IsAwake(w, reg, b)
    requires TilesAt(reg, a) !! TilesAt(reg, b) && HandlesAt(reg, w.cells, a) !! HandlesAt(reg, w.cells, b)
    ensures IsAwake(v, reg, b)
  {
    hide At, DistinctHandles, Sum, Sizes;
    forall i | 0 <= i < |reg[b].chunks|
      ensures At(b, reg[b].chunks, i) !in TilesAt(reg, a)
      ensures w.cells[reg[b].chunks[i].cell] !in HandlesAt(reg, w.cells, a)
    {
      assert At(b, reg[b].chunks, i) in TilesAt(reg, b);
      assert w.cells[reg[b].chunks[i].cell] in HandlesAt(reg, w.cells, b);
    }
  }

  /** A reservation and fresh handle cells were added for a new, still sleeping allocation. */
  ghost predicate Registered(w: World, v: World, a: nat, alloc: Allocation) {
    && Unreserved(w.reserved, a, alloc.size) && v.reserved == w.reserved[a := alloc.size]
    && v.handles == w.handles && v.mapped == w.mapped
    && WellFormed(alloc.chunks, v.cells) && Sum(Sizes(alloc.chunks)) == alloc.size
    && CellsOf(alloc.chunks) !! w.cells.Keys
    && v.cells.Keys == w.cells.Keys + CellsOf(alloc.chunks)
    && (forall c :: c in w.cells ==> v.cells[c] == w.cells[c])
  }

  lemma RegisterKeepsBooks(w: World, v: World, reg: Registry, awake: set<nat>, a: nat, alloc: Allocation)
    requires Accounted(w, reg, awake) && Registered(w, v, a, alloc)
    ensures a !in reg && Accounted(v, reg[a := alloc], awake)
  {
    hide WellFormed, CellsOf, HandlesAt, TilesOf, Tiled, DistinctHandles, HandleBooks, TileBooks, Union, Disjoint,
         Sum, Sizes, CellPool, AllWellFormed, RangesApart, Reservations, Unreserved;
    RangesRegistered(reg, a, alloc);
    var reg' := reg[a := alloc];
    CellsRegistered(reg, w.cells, v.cells, a, alloc);
    forall b | b in awake
      ensures HandlesAt(reg', v.cells, b) == HandlesAt(reg, w.cells, b) && IsAwake(v, reg', b)
    {
      AwakeInLargerHeap(w, v, reg, reg', b);
    }
    HandlesKept(reg, reg', awake, w.cells, v.cells, w.handles.Keys);
    TilesKept(reg, reg', awake, w.mapped.Keys);
  }

  lemma AwakeInLargerHeap(w: World, v: World, reg: Registry, reg': Registry, b: nat)
    requires AllWellFormed(reg, w.cells) && AllWellFormed(reg', v.cells) && b in reg && b in reg' && reg'[b] == reg[b]
    requires v.mapped == w.mapped && v.handles == w.handles && IsAwake(w, reg, b)
    requires forall c :: c in w.cells ==> c in v.cells && v.cells[c] == w.cells[c]
    ensures HandlesAt(reg', v.cells, b) == HandlesAt(reg, w.cells, b) && IsAwake(v, reg', b)
  {
    hide WellFormed, HandlesOf, Tiled, DistinctHandles, Sum, Sizes;
    GrowingHeap(reg[b].chunks, w.cells, v.cells);
  }

  lemma CellsRegistered(reg: Registry, before: map<nat, nat>, after: map<nat, nat>, a: nat, alloc: Allocation)
    requires CellBooks(reg, before) && a !in reg
    requires WellFormed(alloc.chunks, after) && Sum(Sizes(alloc.chunks)) == alloc.size
    requires CellsOf(alloc.chunks) !! before.Keys && after.Keys == before.Keys + CellsOf(alloc.chunks)
    requires forall c :: c in before ==> after[c] == before[c]
    ensures CellBooks(reg[a := alloc], after)
  {
    hide CellsOf, HandlesOf, Tiled, DistinctHandles, Union, Disjoint, Sum;
    Put(CellPool(reg), a, CellsOf(alloc.chunks));
    assert CellPool(reg[a := alloc]) == CellPool(reg)[a := CellsOf(alloc.chunks)];
    forall b | b in reg ensures WellFormed(reg[b].chunks, after) {
      GrowingHeap(reg[b].chunks, before, after);
    }
  }

  lemma HandlesKept(reg: Registry, reg': Registry, awake: set<nat>,
                    before: map<nat, nat>, after: map<nat, nat>, handles: set<nat>)
    requires AllWellFormed(reg, before) && AllWellFormed(reg', after) && awake <= reg.Keys && awake <= reg'.Keys
    requires HandleBooks(reg, awake, before, handles)
    requires forall b :: b in awake ==> HandlesAt(reg', after, b) == HandlesAt(reg, before, b)
    ensures HandleBooks(reg', awake, after, handles)
  {
    hide AllWellFormed, HandlesAt, Union, Disjoint;
    SameOwners(HandlePool(reg, awake, before), HandlePool(reg', awake, after));
  }

  lemma TilesKept(reg: Registry, reg': Registry, awake: set<nat>, tiles: set<nat>)
    requires awake <= reg.Keys && awake <= reg'.Keys && TileBooks(reg, awake, tiles)
    requires forall b :: b in awake ==> reg'[b] == reg[b]
    ensures TileBooks(reg', awake, tiles)
  {
    hide TilesOf, Union, Disjoint;
    SameOwners(TilePool(reg, awake), TilePool(reg', awake));
  }

  /** An allocation only depends on its own cells. */
  lemma SameContents(chunks: seq<Chunk>, before: map<nat, nat>, after: map<nat, nat>)
    requires WellFormed(chunks, before)
    requires forall i :: 0 <= i < |chunks| ==>
      chunks[i].cell in after && after[chunks[i].cell] == before[chunks[i].cell]
    ensures WellFormed(chunks, after)
    ensures HandlesOf(chunks, after, |chunks|) == HandlesOf(chunks, before, |chunks|)
    ensures DistinctHandles(chunks, before, |chunks|) ==> DistinctHandles(chunks, after, |chunks|)
    ensures forall m, base :: Tiled(m, base, chunks, before, |chunks|) ==> Tiled(m, base, chunks, after, |chunks|)
    ensures forall hs :: Sized(hs, chunks, before, |chunks|) ==> Sized(hs, chunks, after, |chunks|)
  {
  }

  lemma GrowingHeap(chunks: seq<Chunk>, before: map<nat, nat>, after: map<nat, nat>)
    requires WellFormed(chunks, before)
    requires forall c :: c in before ==> c in after && after[c] == before[c]
    ensures WellFormed(chunks, after)
    ensures HandlesOf(chunks, after, |chunks|) == HandlesOf(chunks, before, |chunks|)
    ensures DistinctHandles(chunks, before, |chunks|) ==> DistinctHandles(chunks, after, |chunks|)
    ensures forall m, base :: Tiled(m, base, chunks, before, |chunks|) ==> Tiled(m, base, chunks, after, |chunks|)
    ensures forall hs :: Sized(hs, chunks, before, |chunks|) ==> Sized(hs, chunks, after, |chunks|)
  {
    hide HandlesOf, DistinctHandles, Tiled, At;
    SameContents(chunks, before, after);
  }

  /** The reservation and the cells of a sleeping allocation were given back. */
  ghost predicate Dropped(w: World, v: World, reg: Registry, a: nat)
    requires a in reg
  {
    && v.reserved == w.reserved - {a} && v.cells == w.cells - CellsOf(reg[a].chunks)
    && v.handles == w.handles && v.mapped == w.mapped
  }

  lemma DropKeepsBooks(w: World, v: World, reg: Registry, awake: set<nat>, a: nat)
    requires Accounted(w, reg, awake) && a in reg && a !in awake && Dropped(w, v, reg, a)
    ensures Accounted(v, reg - {a}, awake)
  {
    hide WellFormed, CellsOf, HandlesOf, TilesOf, Tiled, DistinctHandles, HandleBooks, TileBooks, Union, Disjoint,
         RangesApart, Reservations;
    var reg' := reg - {a};
    RangesDropped(reg, a);
    CellsDropped(reg, w.cells, v.cells, a);
    forall b | b in awake
      ensures HandlesAt(reg', v.cells, b) == HandlesAt(reg, w.cells, b) && IsAwake(v, reg', b)
    {
      assert IsAwake(w, reg, b);
      ShrinkingHeap(reg, w.cells, v.cells, a, b);
    }
    HandlesKept(reg, reg', awake, w.cells, v.cells, w.handles.Keys);
    TilesKept(reg, reg', awake, w.mapped.Keys);
  }

  lemma CellsDropped(reg: Registry, before: map<nat, nat>, after: map<nat, nat>, a: nat)
    requires CellBooks(reg, before) && a in reg && after == before - CellsOf(reg[a].chunks)
    ensures CellBooks(reg - {a}, after)
  {
    hide CellsOf, HandlesOf, Tiled, DistinctHandles, WellFormed, Union, Disjoint, Sum;
    Take(CellPool(reg), a);
    assert CellPool(reg - {a}) == CellPool(reg) - {a};
    forall b | b in reg && b != a ensures WellFormed(reg[b].chunks, after) {
      ShrinkingHeap(reg, before, after, a, b);
    }
  }

  lemma ShrinkingHeap(reg: Registry, before: map<nat, nat>, after: map<nat, nat>, a: nat, b: nat)
    requires CellBooks(reg, before) && a in reg && b in reg && a != b
    requires after == before - CellsOf(reg[a].chunks)
    ensures WellFormed(reg[b].chunks, after)
    ensures HandlesOf(reg[b].chunks, after, |reg[b].chunks|) == HandlesOf(reg[b].chunks, before, |reg[b].chunks|)
    ensures DistinctHandles(reg[b].chunks, before, |reg[b].chunks|) ==>
      DistinctHandles(reg[b].chunks, after, |reg[b].chunks|)
    ensures forall m, base :: Tiled(m, base, reg[b].chunks, before, |reg[b].chunks|) ==>
      Tiled(m, base, reg[b].chunks, after, |reg[b].chunks|)
    ensures forall hs :: Sized(hs, reg[b].chunks, before, |reg[b].chunks|) ==>
      Sized(hs, reg[b].chunks, after, |reg[b].chunks|)
  {
    hide HandlesOf, DistinctHandles, Tiled, At, Union, Sum, Sizes;
    assert CellPool(reg)[a] !! CellPool(reg)[b];
    forall i | 0 <= i < |reg[b].chunks| ensures reg[b].chunks[i].cell in after {
      assert reg[b].chunks[i].cell in CellsOf(reg[b].chunks);
    }
    SameContents(reg[b].chunks, before, after);
  }

  /** A failed attempt to wake may leave other handle values in the sleeper's own cells. */
  lemma RollbackKeepsBooks(w: World, v: World, reg: Registry, awake: set<nat>, a: nat)
    requires Accounted(w, reg, awake) && a in reg && a !in awake
    requires v.reserved == w.reserved && v.handles == w.handles && v.mapped == w.mapped
    requires OnlyCells(w.cells, v.cells, reg[a].chunks) && WellFormed(reg[a].chunks, v.cells)
    ensures Accounted(v, reg, awake)
  {
    hide HandlesOf, TilesOf, Tiled, DistinctHandles, HandleBooks, TileBooks, WellFormed, At;
    CellsUnchanged(reg, w.cells, v.cells, a);
    forall b | b in awake
      ensures HandlesAt(reg, v.cells, b) == HandlesAt(reg, w.cells, b) && IsAwake(v, reg, b)
    {
      assert IsAwake(w, reg, b);
      SameHandles(reg, w.cells, v.cells, a, b);
      SameContents(reg[b].chunks, w.cells, v.cells);
    }
    HandlesKept(reg, reg, awake, w.cells, v.cells, w.handles.Keys);
  }

  // ----- what the books determine -----

  /** Mapped addresses of an allocation lie in its reservation. */
  lemma TileInRange(reg: Registry, cells: map<nat, nat>, b: nat, i: nat)
    requires AllWellFormed(reg, cells) && b in reg && i < |reg[b].chunks|
    ensures var x := At(b, reg[b].chunks, i); b <= x && x + reg[b].chunks[i].size <= b + reg[b].size
  {
    NextAddress(b, reg[b].chunks, i);
    OffsetsGrow(Sizes(reg[b].chunks), i + 1, |reg[b].chunks|);
  }

  lemma TileIndex(reg: Registry, b: nat, x: nat) returns (i: nat)
    requires b in reg && x in TilesAt(reg, b)
    ensures i < |reg[b].chunks| && x == At(b, reg[b].chunks, i)
  {
    hide At;
    i :| 0 <= i < |reg[b].chunks| && At(b, reg[b].chunks, i) == x;
  }

  /** Every mapping is a chunk of an awake allocation. */
  lemma MappingHasOwner(w: World, reg: Registry, awake: set<nat>, x: nat) returns (b: nat, i: nat)
    requires Accounted(w, reg, awake) && x in w.mapped
    ensures b in awake && b in reg && i < |reg[b].chunks| && x == At(b, reg[b].chunks, i)
    ensures w.mapped[x].size == reg[b].chunks[i].size && w.mapped[x].accessible
  {
    hide HandleBooks, AllWellFormed, RangesApart, Reservations, At, Union, Disjoint, TilesAt, WellFormed,
         DistinctHandles;
    b := Owner(TilePool(reg, awake), x);
    i := TileIndex(reg, b, x);
    assert IsAwake(w, reg, b);
  }

  /** An address in the chunks of two allocations is in one of them only. */
  lemma OneOwner(reg: Registry, cells: map<nat, nat>, a: nat, i: nat, b: nat, j: nat, x: nat)
    requires AllWellFormed(reg, cells) && RangesApart(reg)
    requires a in reg && i < |reg[a].chunks| && b in reg && j < |reg[b].chunks|
    requires At(a, reg[a].chunks, i) <= x < At(a, reg[a].chunks, i) + reg[a].chunks[i].size
    requires At(b, reg[b].chunks, j) <= x < At(b, reg[b].chunks, j) + reg[b].chunks[j].size
    ensures a == b
  {
    hide AllWellFormed, At;
    TileInRange(reg, cells, a, i);
    TileInRange(reg, cells, b, j);
  }

  /** A sleeping allocation has nothing mapped anywhere in its range. */
  lemma SleeperIsUnmapped(w: World, reg: Registry, awake: set<nat>, a: nat)
    requires Accounted(w, reg, awake) && a in reg && a !in awake
    ensures MappedTiles(w.mapped, a, reg[a].chunks, |reg[a].chunks|) == {}
    ensures AllMapped(w.mapped, a, reg[a].chunks, |reg[a].chunks|) <==> reg[a].chunks == []
  {
    hide Accounted, At;
    forall i: nat | i < |reg[a].chunks| ensures !IsMapped(w.mapped, a, reg[a].chunks, i) {
      NotMapped(w, reg, awake, a, i);
    }
    assert reg[a].chunks != [] ==> !IsMapped(w.mapped, a, reg[a].chunks, 0);
  }

  lemma NotMapped(w: World, reg: Registry, awake: set<nat>, a: nat, i: nat)
    requires Accounted(w, reg, awake) && a in reg && a !in awake && i < |reg[a].chunks|
    ensures At(a, reg[a].chunks, i) !in w.mapped
  {
    hide HandleBooks, TileBooks, IsAwake, Reservations, RangesApart, At, Union, Disjoint;
    var x := At(a, reg[a].chunks, i);
    if x in w.mapped {
      var b, j := MappingHasOwner(w, reg, awake, x);
      OneOwner(reg, w.cells, a, i, b, j, x);
    }
  }

  /** No address is mapped twice, by one allocation or by two. */
  lemma MappingsNeverOverlap(w: World, reg: Registry, awake: set<nat>, p: nat, q: nat, x: nat)
    requires Accounted(w, reg, awake) && p in w.mapped && q in w.mapped
    requires p <= x < p + w.mapped[p].size && q <= x < q + w.mapped[q].size
    ensures p == q
  {
    hide HandleBooks, TileBooks, IsAwake, Reservations, RangesApart, At, Union, Disjoint, AllWellFormed;
    var a, i := MappingHasOwner(w, reg, awake, p);
    var b, j := MappingHasOwner(w, reg, awake, q);
    OneOwner(reg, w.cells, a, i, b, j, x);
    SameChunk(a, reg[a].chunks, i, j, x);
  }

  lemma SameChunk(base: nat, chunks: seq<Chunk>, i: nat, j: nat, x: nat)
    requires i < |chunks| && j < |chunks|
    requires At(base, chunks, i) <= x < At(base, chunks, i) + chunks[i].size
    requires At(base, chunks, j) <= x < At(base, chunks, j) + chunks[j].size
    ensures i == j
  {
    NextAddress(base, chunks, i);
    NextAddress(base, chunks, j);
    ChunksDisjoint(Sizes(chunks), x - base, i, j);
  }

  /** In balanced books everything that is mapped is accessible, so granting access changes nothing. */
  lemma GrantChangesNothing(w: World, reg: Registry, awake: set<nat>, base: nat, size: nat)
    requires Accounted(w, reg, awake)
    ensures Grant(w.mapped, base, size) == w.mapped
  {
    hide Accounted, At;
    forall x | x in w.mapped ensures w.mapped[x].accessible {
      var _, _ := MappingHasOwner(w, reg, awake, x);
    }
  }

  ghost predicate SameCells(before: map<nat, nat>, after: map<nat, nat>, chunks: seq<Chunk>) {
    forall i :: 0 <= i < |chunks| ==>
      && chunks[i].cell in before && chunks[i].cell in after
      && after[chunks[i].cell] == before[chunks[i].cell]
  }

  /** Every live handle belongs to a chunk of an awake allocation, and has its size. */
  lemma HandleHasOwner(w: World, reg: Registry, awake: set<nat>, h: nat) returns (b: nat, i: nat)
    requires Accounted(w, reg, awake) && h in w.handles
    ensures b in awake && b in reg && i < |reg[b].chunks| && reg[b].chunks[i].cell in w.cells
    ensures w.cells[reg[b].chunks[i].cell] == h && w.handles[h] == reg[b].chunks[i].size
  {
    hide TileBooks, RangesApart, Reservations, At, Union, Disjoint, Sum, Sizes, DistinctHandles, Tiled, Access;
    b := Owner(HandlePool(reg, awake, w.cells), h);
    i :| 0 <= i < |reg[b].chunks| && w.cells[reg[b].chunks[i].cell] == h;
    assert IsAwake(w, reg, b);
  }

  /** The cells of the awake allocations determine the live handles and their sizes. */
  lemma HandlesFollow(w: World, v: World, reg: Registry, awake: set<nat>)
    requires Accounted(w, reg, awake) && Accounted(v, reg, awake)
    requires forall b :: b in awake ==> SameCells(w.cells, v.cells, reg[b].chunks)
    ensures v.handles == w.handles
  {
    hide HandleBooks, TileBooks, CellBooks, IsAwake, RangesApart, Reservations;
    assert v.handles.Keys <= w.handles.Keys by { HandlesIncluded(v, w, reg, awake); }
    assert w.handles.Keys <= v.handles.Keys by { HandlesIncluded(w, v, reg, awake); }
    HandlesIncluded(v, w, reg, awake);
  }

  lemma HandlesIncluded(w: World, v: World, reg: Registry, awake: set<nat>)
    requires Accounted(w, reg, awake) && Accounted(v, reg, awake)
    requires forall b :: b in awake ==> SameCells(w.cells, v.cells, reg[b].chunks)
    ensures forall h :: h in w.handles ==> h in v.handles && v.handles[h] == w.handles[h]
  {
    hide HandleBooks, TileBooks, RangesApart, Reservations, DistinctHandles, Tiled, Access, Union, Disjoint;
    forall h | h in w.handles ensures h in v.handles && v.handles[h] == w.handles[h] {
      var b, i := HandleHasOwner(w, reg, awake, h);
      assert SameCells(w.cells, v.cells, reg[b].chunks) && IsAwake(v, reg, b);
    }
  }

  /** Balanced books determine the live handles, also when a sleeper's own cells have changed. */
  lemma HandlesDetermined(w: World, v: World, reg: Registry, awake: set<nat>, a: nat)
    requires Accounted(w, reg, awake) && Accounted(v, reg, awake) && a in reg
    requires OnlyCells(w.cells, v.cells, reg[a].chunks) && (a in awake ==> v.cells == w.cells)
    ensures v.handles == w.handles
  {
    hide Union, OnlyCells, TileBooks, HandleBooks, IsAwake, RangesApart, Reservations, HandlesAt, Sum, Sizes;
    forall b | b in awake ensures SameCells(w.cells, v.cells, reg[b].chunks) {
      if b != a { SameHandles(reg, w.cells, v.cells, a, b); }
    }
    HandlesFollow(w, v, reg, awake);
  }

  /** The cells of an awake allocation are determined by its mappings. */
  lemma AwakeCellsDetermined(w: World, v: World, reg: Registry, awake: set<nat>, a: nat)
    requires Accounted(w, reg, awake) && Accounted(v, reg, awake) && a in awake
    requires v.mapped == w.mapped && OnlyCells(w.cells, v.cells, reg[a].chunks)
    ensures v.cells == w.cells
  {
    hide HandleBooks, TileBooks, RangesApart, Reservations, At, Union, Disjoint, DistinctHandles, Sum;
    assert IsAwake(w, reg, a) && IsAwake(v, reg, a);
    var chunks := reg[a].chunks;
    forall i | 0 <= i < |chunks| ensures v.cells[chunks[i].cell] == w.cells[chunks[i].cell] {
      assert w.mapped[At(a, chunks, i)].handle == w.cells[chunks[i].cell];
    }
  }

  /** An awake allocation cannot be mapped again, unless it has no chunks. */
  lemma NotMappedTwice(w: World, v: World, reg: Registry, awake: set<nat>, a: nat)
    requires Accounted(w, reg, awake) && a in awake && WokeUp(w, v, reg, a)
    ensures reg[a].chunks == []
  {
    hide HandleBooks, TileBooks, RangesApart, Reservations, At, Union, Disjoint, DistinctHandles;
    assert IsAwake(w, reg, a);
    FirstTile(a, reg[a].chunks);
  }

  lemma FirstTile(base: nat, chunks: seq<Chunk>)
    ensures chunks != [] ==> At(base, chunks, 0) in TilesOf(base, chunks, |chunks|)
  {
  }

  lemma NoChunksNoChange(w: World, v: World, reg: Registry, a: nat)
    requires a in reg && reg[a].chunks == [] && WokeUp(w, v, reg, a)
    ensures v == w
  {
    hide At;
    assert v.mapped - {} == v.mapped;
    assert forall c :: c in w.cells ==> v.cells[c] == w.cells[c];
  }

  lemma NewHandlesUnbalance(w: World, v: World, reg: Registry, awake: set<nat>, a: nat)
    requires Accounted(w, reg, awake) && a in reg && a !in awake && WokeUp(w, v, reg, a)
    ensures Accounted(v, reg, awake) <==> reg[a].chunks == []
  {
    hide Accounted, At, Tiled, DistinctHandles, LaidOver;
    if reg[a].chunks == [] {
      NoChunksNoChange(w, v, reg, a);
    } else {
      assert v.cells[reg[a].chunks[0].cell] in HandlesOf(reg[a].chunks, v.cells, |reg[a].chunks|);
      if Accounted(v, reg, awake) { HandlesDetermined(w, v, reg, awake, a); }
    }
  }
}
