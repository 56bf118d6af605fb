/**
 What the ends of each allocator call mean for the books: which of them balance, and what the
 others leave behind.
 */
module AllocOutcomes {
  import opened AllocChunks
  import opened AllocDevice
  import opened AllocMapping
  import opened AllocLedger
  import opened AllocRuns

  lemma RegisteredIsWellFormed(w: World, reg: Registry, awake: set<nat>, a: nat)
    requires Accounted(w, reg, awake) && a in reg
    ensures AllWellFormed(reg, w.cells) && WellFormed(reg[a].chunks, w.cells)
    ensures a in w.reserved && w.reserved[a] == reg[a].size && w.reserved.Keys == reg.Keys
  {
    hide HandleBooks, TileBooks, IsAwake, RangesApart;
  }

  lemma ChunksPositive(sizes: seq<nat>, total: nat, size: nat, g: nat, baseChunk: nat)
    requires IsPlanFor(sizes, total, size, g, baseChunk)
    ensures Sum(sizes) == total && forall i :: 0 <= i < |sizes| ==> sizes[i] > 0
  {
  }

  // ----- mapping -----

  lemma AfterMapping(w: World, v: World, reg: Registry, awake: set<nat>, a: nat, granted: bool)
    requires Accounted(w, reg, awake) && a in reg && WokeUp(w, v, reg, a)
    requires Access(v.mapped, a, reg[a].chunks, |reg[a].chunks|, granted)
    ensures granted ==> Accounted(v, reg, awake + {a})
    ensures Accounted(v, reg, awake) <==> reg[a].chunks == []
    ensures a in awake ==> reg[a].chunks == []
  {
    hide Accounted, WokeUp, Access;
    if a in awake {
      NotMappedTwice(w, v, reg, awake, a);
      NoChunksNoChange(w, v, reg, a);
      assert awake + {a} == awake;
    } else {
      if granted { WakeKeepsBooks(w, v, reg, awake, a); }
      NewHandlesUnbalance(w, v, reg, awake, a);
    }
  }

  lemma AfterFailure(w: World, v: World, reg: Registry, awake: set<nat>, a: nat)
    requires Accounted(w, reg, awake) && a in reg && v.reserved == w.reserved && v.mapped == w.mapped
    requires OnlyCells(w.cells, v.cells, reg[a].chunks) && WellFormed(reg[a].chunks, v.cells)
    ensures Accounted(v, reg, awake) <==> v.handles == w.handles && (a in awake ==> v.cells == w.cells)
  {
    hide Accounted, OnlyCells, WellFormed;
    if Accounted(v, reg, awake) {
      if a in awake { AwakeCellsDetermined(w, v, reg, awake, a); }
      HandlesDetermined(w, v, reg, awake, a);
    }
    if v.handles == w.handles && a !in awake { RollbackKeepsBooks(w, v, reg, awake, a); }
  }

  /**
   What a denied access leaves behind: for every chunk a handle of its size, mapped where the
   allocation was to be, and of no use to anybody.
   */
  ghost predicate Leaked(w: World, v: World, base: nat, chunks: seq<Chunk>) {
    var tiles := TilesOf(base, chunks, |chunks|);
    && tiles !! w.mapped.Keys && v.mapped.Keys == w.mapped.Keys + tiles && v.mapped - tiles == w.mapped
    && (forall i :: 0 <= i < |chunks| ==>
         && IsMapped(v.mapped, base, chunks, i) && !v.mapped[At(base, chunks, i)].accessible
         && v.mapped[At(base, chunks, i)].handle in v.handles
         && v.handles[v.mapped[At(base, chunks, i)].handle] == chunks[i].size)
    && var leaked := set i | 0 <= i < |chunks| && IsMapped(v.mapped, base, chunks, i) ::
         v.mapped[At(base, chunks, i)].handle;
       leaked !! w.handles.Keys && v.handles.Keys == w.handles.Keys + leaked && v.handles - leaked == w.handles
  }

  lemma LeakIsExact(w: World, v: World, reg: Registry, a: nat)
    requires a in reg && WokeUp(w, v, reg, a) && Access(v.mapped, a, reg[a].chunks, |reg[a].chunks|, false)
    ensures Leaked(w, v, a, reg[a].chunks)
  {
    hide At, OnlyCells, DistinctHandles;
    var chunks := reg[a].chunks;
    forall i | 0 <= i < |chunks|
      ensures IsMapped(v.mapped, a, chunks, i)
      ensures v.mapped[At(a, chunks, i)].handle == v.cells[chunks[i].cell]
    {
      assert v.mapped[At(a, chunks, i)] == Mapping(chunks[i].size, v.cells[chunks[i].cell], false);
    }
    var leaked := set i | 0 <= i < |chunks| && IsMapped(v.mapped, a, chunks, i) :: v.mapped[At(a, chunks, i)].handle;
    assert leaked == HandlesOf(chunks, v.cells, |chunks|);
  }

  lemma LeakIgnoresCells(w: World, v: World, w': World, v': World, base: nat, chunks: seq<Chunk>)
    requires Leaked(w, v, base, chunks)
    requires w'.mapped == w.mapped && w'.handles == w.handles && v'.mapped == v.mapped && v'.handles == v.handles
    ensures Leaked(w', v', base, chunks)
  {
  }

  // ----- what unbalances the books -----

  lemma ExtraReservation(w: World, v: World, reg: Registry, awake: set<nat>, a: nat)
    requires Accounted(w, reg, awake) && a !in w.reserved && a in v.reserved
    ensures !Accounted(v, reg, awake)
  {
    hide HandleBooks, TileBooks, CellBooks, IsAwake, RangesApart;
  }

  /** An entry without a reservation: the registry and the device no longer agree. */
  lemma StaleEntry(w: World, v: World, reg: Registry, reg': Registry, awake: set<nat>, a: nat)
    requires Accounted(w, reg, awake) && v.reserved == w.reserved && a !in reg && a in reg'
    ensures !Accounted(v, reg', awake)
  {
    hide HandleBooks, TileBooks, CellBooks, IsAwake, RangesApart;
    assert w.reserved.Keys == reg.Keys;
    assert Accounted(v, reg', awake) ==> v.reserved.Keys == reg'.Keys;
  }

  /** After a failed mapping, freeing the new cells restores the heap. */
  lemma CellsGoBack(was: map<nat, nat>, mid: map<nat, nat>, now: map<nat, nat>, chunks: seq<Chunk>)
    requires WellFormed(chunks, mid) && CellsOf(chunks) !! was.Keys && mid.Keys == was.Keys + CellsOf(chunks)
    requires forall c :: c in was ==> mid[c] == was[c]
    requires OnlyCells(mid, now, chunks)
    ensures WellFormed(chunks, now) && now - CellsOf(chunks) == was
  {
    hide CellsOf;
  }

  // ----- sleeping and freeing -----

  lemma AwakeIsMapped(w: World, reg: Registry, awake: set<nat>, a: nat)
    requires Accounted(w, reg, awake) && a in awake
    ensures a in reg && AllWellFormed(reg, w.cells) && WellFormed(reg[a].chunks, w.cells)
    ensures Tiled(w.mapped, a, reg[a].chunks, w.cells, |reg[a].chunks|)
    ensures AllLive(w.handles.Keys, reg[a].chunks, w.cells, |reg[a].chunks|)
  {
    hide HandleBooks, TileBooks, Tiled, DistinctHandles, HandlesOf, RangesApart, Reservations;
    assert IsAwake(w, reg, a);
    HandlesInBooks(reg, awake, w.cells, w.handles.Keys, a);
  }

  /** unmap_and_release of an awake allocation. */
  lemma AfterSleepOf(w: World, v: World, reg: Registry, awake: set<nat>, a: nat)
    requires Accounted(w, reg, awake) && a in awake && a in reg && WellFormed(reg[a].chunks, w.cells)
    requires var n := |reg[a].chunks|;
      v == w.(handles := w.handles - HandlesOf(reg[a].chunks, w.cells, n),
              mapped := w.mapped - MappedTiles(w.mapped, a, reg[a].chunks, n))
    ensures AllMapped(w.mapped, a, reg[a].chunks, |reg[a].chunks|)
    ensures AllLive(w.handles.Keys, reg[a].chunks, w.cells, |reg[a].chunks|)
    ensures MappedTiles(w.mapped, a, reg[a].chunks, |reg[a].chunks|) == TilesOf(a, reg[a].chunks, |reg[a].chunks|)
    ensures AllWellFormed(reg, w.cells) && Accounted(v, reg, awake - {a})
    ensures Sleeps(Books(w, reg, awake), Books(v, reg, awake - {a}), a)
  {
    hide Accounted, AllWellFormed, WellFormed, AllLive, AllMapped, MappedTiles, HandlesOf, TilesOf, Tiled;
    AwakeIsMapped(w, reg, awake, a);
    TiledIsMapped(w.mapped, a, reg[a].chunks, w.cells);
    SleepKeepsBooks(w, v, reg, awake, a);
  }

  /** unmap_and_release of a sleeping allocation. */
  lemma SleepAgain(w: World, v: World, reg: Registry, awake: set<nat>, a: nat)
    requires Accounted(w, reg, awake) && a !in awake && a in reg && WellFormed(reg[a].chunks, w.cells)
    requires var n := |reg[a].chunks|;
      v == w.(handles := w.handles - HandlesOf(reg[a].chunks, w.cells, n),
              mapped := w.mapped - MappedTiles(w.mapped, a, reg[a].chunks, n))
    ensures v.mapped == w.mapped && awake - {a} == awake
    ensures AllMapped(w.mapped, a, reg[a].chunks, |reg[a].chunks|) <==> reg[a].chunks == []
    ensures reg[a].chunks == [] ==> AllLive(w.handles.Keys, reg[a].chunks, w.cells, |reg[a].chunks|)
    ensures Accounted(v, reg, awake) <==> HandlesOf(reg[a].chunks, w.cells, |reg[a].chunks|) !! w.handles.Keys
  {
    hide Accounted, WellFormed, AllMapped, MappedTiles;
    SleeperIsUnmapped(w, reg, awake, a);
    var hs := HandlesOf(reg[a].chunks, w.cells, |reg[a].chunks|);
    if hs !! w.handles.Keys {
      assert v.handles == w.handles;
    } else if Accounted(v, reg, awake) {
      HandlesDetermined(w, v, reg, awake, a);
    }
  }

  /** The rest of my_free, after unmap_and_release. */
  lemma AfterFree(w: World, m: World, v: World, reg: Registry, awake: set<nat>, a: nat, size: nat)
    requires Accounted(w, reg, awake) && a in reg && WellFormed(reg[a].chunks, w.cells)
    requires m.reserved == w.reserved && m.cells == w.cells
    requires m.handles == w.handles - HandlesOf(reg[a].chunks, w.cells, |reg[a].chunks|)
    requires a in awake ==> Accounted(m, reg, awake - {a})
    requires a !in awake ==> m.mapped == w.mapped
    requires v == m.(reserved := if size == reg[a].size then m.reserved - {a} else m.reserved,
                     cells := m.cells - CellsOf(reg[a].chunks))
    ensures Accounted(v, reg - {a}, awake - {a}) <==>
      size == reg[a].size && (a in awake || HandlesOf(reg[a].chunks, w.cells, |reg[a].chunks|) !! w.handles.Keys)
    ensures size == reg[a].size ==> Drops(Books(m, reg, awake - {a}), Books(v, reg - {a}, awake - {a}), a)
  {
    hide Accounted, WellFormed, HandlesOf, CellsOf;
    RegisteredIsWellFormed(w, reg, awake, a);
    if size != reg[a].size {
      NotRegistered(v, reg - {a}, awake - {a}, a);
    } else if a in awake {
      DropKeepsBooks(m, v, reg, awake - {a}, a);
    } else {
      assert awake - {a} == awake;
      var u := v.(handles := w.handles);
      DropKeepsBooks(w, u, reg, awake, a);
      SameCellsSameHandles(u, v, reg - {a}, awake);
    }
  }

  lemma NotRegistered(v: World, reg: Registry, awake: set<nat>, a: nat)
    requires a in v.reserved && a !in reg
    ensures !Accounted(v, reg, awake)
  {
    hide HandleBooks, TileBooks, CellBooks, IsAwake, RangesApart;
  }

  lemma SameCellsSameHandles(u: World, v: World, reg: Registry, awake: set<nat>)
    requires Accounted(u, reg, awake) && v == u.(handles := v.handles)
    ensures Accounted(v, reg, awake) <==> v.handles == u.handles
  {
    hide HandleBooks, TileBooks, RangesApart, Reservations, IsAwake, Sum, Sizes;
    assert v.handles == u.handles ==> v == u;
    if Accounted(v, reg, awake) { HandlesFollow(u, v, reg, awake); }
  }
}
