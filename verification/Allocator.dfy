/**
 The pluggable allocator: malloc, free, and putting one allocation to sleep or waking it up.
 */
module Allocator {
  import opened AllocChunks
  import opened AllocDevice
  import opened AllocMapping
  import opened AllocLedger
  import opened AllocRuns
  import opened AllocOutcomes

  /** How a call of malloc ended; only `Allocated` returns an address. */
  datatype MallocOutcome = NotStarted | NoHostMemory | MappingFailed | AccessFailed | Allocated

  /** CUDA_CHECK: an error replaces the pending one. */
  function Check(pending: nat, err: nat): nat {
    if err != 0 then err else pending
  }

  /** One `malloc`ed cell per chunk, or none. */
  method AllocateCells(d: Device, sizes: seq<nat>) returns (ok: bool, chunks: seq<Chunk>)
    requires forall i :: 0 <= i < |sizes| ==> sizes[i] > 0
    modifies d`cells
    ensures ok ==>
      && |chunks| == |sizes| && Sizes(chunks) == sizes && WellFormed(chunks, d.cells)
      && CellsOf(chunks) !! old(d.cells).Keys && d.cells.Keys == old(d.cells).Keys + CellsOf(chunks)
      && forall c :: c in old(d.cells) ==> d.cells[c] == old(d.cells)[c]
    ensures !ok ==> d.cells == old(d.cells)
  {
    chunks := [];
    for i := 0 to |sizes|
      invariant |chunks| == i && Sizes(chunks) == sizes[..i] && WellFormed(chunks, d.cells)
      invariant CellsOf(chunks) !! old(d.cells).Keys && d.cells.Keys == old(d.cells).Keys + CellsOf(chunks)
      invariant forall c :: c in old(d.cells) ==> d.cells[c] == old(d.cells)[c]
    {
      var got, cell := d.AllocateCell();
      if !got {
        FreeCells(d, chunks);
        return false, chunks;
      }
      CellsNext(chunks, Chunk(cell, sizes[i]));
      chunks := chunks + [Chunk(cell, sizes[i])];
    }
    ok := true;
  }

  lemma CellsNext(chunks: seq<Chunk>, c: Chunk)
    ensures CellsOf(chunks + [c]) == CellsOf(chunks) + {c.cell}
    ensures Sizes(chunks + [c]) == Sizes(chunks) + [c.size]
  {
    var more := chunks + [c];
    assert more[|chunks|] == c;
    forall x | x in CellsOf(chunks) ensures x in CellsOf(more) {
      var i :| 0 <= i < |chunks| && chunks[i].cell == x;
      assert more[i].cell == x;
    }
  }

  /** Every cell is freed exactly once: `FreeCell` requires that it is still allocated. */
  method FreeCells(d: Device, chunks: seq<Chunk>)
    requires WellFormed(chunks, d.cells)
    modifies d`cells
    ensures d.cells == old(d.cells) - CellsOf(chunks)
  {
    assert chunks[..0] == [];
    for i := 0 to |chunks|
      invariant d.cells == old(d.cells) - CellsOf(chunks[..i])
    {
      assert chunks[..i + 1] == chunks[..i] + [chunks[i]];
      CellsNext(chunks[..i], chunks[i]);
      d.FreeCell(chunks[i].cell);
    }
    assert chunks[..|chunks|] == chunks;
  }

  class Allocator {
    const d: Device
    /** The configured chunk size in bytes. */
    const baseChunk: nat
    var errorCode: nat
    /** What was registered for each base address. */
    var registry: Registry
    ghost var awake: set<nat>

    ghost function Snap(): World
      reads d
    {
      World(d.reserved, d.handles, d.mapped, d.cells)
    }

    ghost predicate Valid()
      reads this, d
    {
      d.granularity > 0 && Accounted(Snap(), registry, awake)
    }

    ghost function Ledger(): Books
      reads this, d
    {
      Books(Snap(), registry, awake)
    }

    constructor (d: Device, setting: Setting)
      requires d.granularity > 0 && (setting.Megabytes? ==> setting.value < WORD)
      requires World(d.reserved, d.handles, d.mapped, d.cells) == EMPTY
      ensures this.d == d && baseChunk == MemcreateChunkSize(setting)
      ensures Valid() && errorCode == 0 && Ledger() == START
    {
      this.d := d;
      baseChunk := MemcreateChunkSize(setting);
      errorCode := 0;
      registry := map[];
      awake := {};
      EmptyIsAccounted();
    }

    /** The chunk sizes for a request: as few equal chunks as possible, the last one possibly smaller. */
    method PlanChunks(size: nat) returns (alignedSize: nat, sizes: seq<nat>)
      requires NoWrap(size, d.granularity, baseChunk)
      ensures alignedSize == RoundUp(size, d.granularity)
      ensures IsPlanFor(sizes, alignedSize, size, d.granularity, baseChunk)
    {
      RoundUpIsLeastMultiple(size, d.granularity);
      RoundUpIsLeastMultiple(baseChunk, d.granularity);
      alignedSize := RoundUp(size, d.granularity);
      var chunkSize := RoundUp(baseChunk, d.granularity);
      sizes := ChunkSizes(alignedSize, chunkSize, d.granularity);
    }

    /**
     create_and_map for a registered allocation, whatever its state and whatever error is pending.
     An awake allocation is never mapped a second time.
     */
    method MapRegistered(a: nat) returns (outcome: Outcome)
      requires Valid() && a in registry
      modifies this`errorCode, this`awake, d`handles, d`mapped, d`cells
      ensures errorCode == 0 <==> outcome == Mapped
      ensures outcome == StaleError <==> old(errorCode) != 0
      ensures OnlyCells(old(d.cells), d.cells, registry[a].chunks) && WellFormed(registry[a].chunks, d.cells)
      ensures awake == old(awake) + if outcome == Mapped then {a} else {}
      ensures outcome == Mapped || outcome == AccessDenied ==>
        && WokeUp(old(Snap()), Snap(), registry, a)
        && Access(d.mapped, a, registry[a].chunks, |registry[a].chunks|, outcome == Mapped)
      ensures outcome == Mapped ==> Valid()
      ensures outcome == AccessDenied ==> (Valid() <==> registry[a].chunks == [])
      ensures outcome == RolledBack || outcome == StaleError ==>
        && d.mapped == old(d.mapped)
        && (Valid() <==> d.handles == old(d.handles) && (a in old(awake) ==> d.cells == old(d.cells)))
      ensures outcome == RolledBack ==> d.handles == old(d.handles)
      ensures outcome == StaleError ==>
        d.handles == old(d.handles) || OneHandleMore(old(d.handles), d.handles, registry[a].chunks, d.cells)
      ensures a in old(awake) && registry[a].chunks != [] ==> outcome == RolledBack || outcome == StaleError
    {
      hide Accounted, LaidOver, Issued, Access, Grant, WellFormed, OnlyCells, Sum, Sizes;
      ghost var was := Snap();
      RegisteredIsWellFormed(was, registry, awake, a);
      GrantChangesNothing(was, registry, awake, a, registry[a].size);
      errorCode, outcome := CreateAndMap(d, a, registry[a].size, registry[a].chunks, errorCode);
      if outcome == Mapped || outcome == AccessDenied {
        AfterMapping(was, Snap(), registry, awake, a, outcome == Mapped);
        if outcome == Mapped { awake := awake + {a}; }
      } else {
        AfterFailure(was, Snap(), registry, awake, a);
      }
    }

    /**
     my_malloc.  On success the books balance with one more awake allocation, whose chunks tile
     the rounded-up size: it was registered (`mid`) and then woken.  In every other case but one
     that never started, the books are out of balance; what is left behind is stated exactly.
     */
    method Malloc(size: nat) returns (ptr: nat, outcome: MallocOutcome, ghost mid: Books)
      requires Valid() && NoWrap(size, d.granularity, baseChunk)
      modifies this, d
      ensures old(errorCode) != 0 ==> outcome == NotStarted
      ensures Valid() <==> outcome == Allocated || outcome == NotStarted
      ensures outcome == NotStarted ==> errorCode != 0 && Ledger() == old(Ledger())
      ensures outcome == NoHostMemory ==>
        && errorCode == 0 && registry == old(registry) && awake == old(awake) && ptr !in old(d.reserved)
        && Snap() == old(Snap()).(reserved := old(d.reserved)[ptr := RoundUp(size, d.granularity)])
      ensures outcome == Allocated ==>
        && errorCode == 0 && ptr !in old(registry)
        && Registers(old(Ledger()), mid, ptr) && Wakes(mid, Ledger(), ptr)
      ensures outcome == Allocated || outcome == MappingFailed || outcome == AccessFailed ==>
        && ptr !in old(registry) && ptr in registry && registry == old(registry)[ptr := registry[ptr]]
        && registry[ptr].size == RoundUp(size, d.granularity)
        && IsPlanFor(Sizes(registry[ptr].chunks), registry[ptr].size, size, d.granularity, baseChunk)
      ensures outcome == MappingFailed ==> errorCode != 0 && Snap() == old(Snap()) && awake == old(awake)
      ensures outcome == AccessFailed ==>
        && errorCode != 0 && awake == old(awake) && d.reserved == old(d.reserved) && d.cells == old(d.cells)
        && Leaked(old(Snap()), Snap(), ptr, registry[ptr].chunks)
    {
      hide Accounted, IsPlanFor, RoundUp, NoWrap, WokeUp, CellsOf, OnlyCells, Sizes, WellFormed, Leaked, Unreserved,
           Access;
      ghost var was := Snap();
      ptr, outcome := Register(size);
      mid := Ledger();
      if outcome != Allocated {
        if outcome == NoHostMemory { ExtraReservation(was, Snap(), registry, awake, ptr); }
        return;
      }
      var alloc := registry[ptr];
      var mapping := MapRegistered(ptr);
      if mapping == Mapped {
        return;
      }
      outcome := if mapping == RolledBack then MappingFailed else AccessFailed;
      ghost var after := Snap();
      if mapping == AccessDenied { LeakIsExact(mid.world, after, registry, ptr); }
      CellsGoBack(was.cells, mid.world.cells, d.cells, alloc.chunks);
      TakeBack(ptr, alloc, was);
      assert awake == old(awake);
      StaleEntry(was, Snap(), old(registry), registry, awake, ptr);
      if outcome == AccessFailed { LeakIgnoresCells(mid.world, after, was, Snap(), ptr, alloc.chunks); }
    }

    /** The cleanup of my_malloc: address and handle cells go back. */
    method TakeBack(ptr: nat, alloc: Allocation, ghost was: World)
      requires ptr !in was.reserved && d.reserved == was.reserved[ptr := alloc.size]
      requires WellFormed(alloc.chunks, d.cells) && d.cells - CellsOf(alloc.chunks) == was.cells
      modifies this`errorCode, d`reserved, d`cells
      ensures d.reserved == was.reserved && d.cells == was.cells && errorCode == old(errorCode)
    {
      hide CellsOf, WellFormed;
      var err := d.CuMemAddressFree(ptr, alloc.size);
      errorCode := Check(errorCode, err);
      FreeCells(d, alloc.chunks);
    }

    /** The first half of my_malloc: reserve addresses, allocate handle cells, and tell Python. */
    method Register(size: nat) returns (ptr: nat, outcome: MallocOutcome)
      requires Valid() && NoWrap(size, d.granularity, baseChunk)
      modifies this`errorCode, this`registry, d`reserved, d`cells
      ensures outcome == NotStarted || outcome == NoHostMemory || outcome == Allocated
      ensures old(errorCode) != 0 ==> outcome == NotStarted
      ensures outcome == NotStarted ==> errorCode != 0 && Snap() == old(Snap()) && registry == old(registry)
      ensures outcome == NoHostMemory ==>
        && errorCode == 0 && registry == old(registry) && ptr !in old(d.reserved)
        && Snap() == old(Snap()).(reserved := old(d.reserved)[ptr := RoundUp(size, d.granularity)])
      ensures outcome == Allocated ==>
        && Valid() && errorCode == 0 && ptr !in old(d.reserved) && ptr !in old(registry)
        && ptr !in awake && ptr in registry
        && registry == old(registry)[ptr := registry[ptr]]
        && registry[ptr].size == RoundUp(size, d.granularity)
        && IsPlanFor(Sizes(registry[ptr].chunks), registry[ptr].size, size, d.granularity, baseChunk)
        && Registered(old(Snap()), Snap(), ptr, registry[ptr])
    {
      hide HandleBooks, TileBooks, CellBooks, IsAwake, IsPlanFor, RoundUp, NoWrap, CellsOf, Sizes, WellFormed, Sum;
      ptr := 0;
      if errorCode != 0 {
        return ptr, NotStarted;
      }
      ghost var was := Snap();
      var alignedSize, sizes := PlanChunks(size);
      var err, address := d.CuMemAddressReserve(alignedSize);
      if err != 0 {
        errorCode := err;
        return ptr, NotStarted;
      }
      ptr := address;
      ChunksPositive(sizes, alignedSize, size, d.granularity, baseChunk);
      var ok, chunks := AllocateCells(d, sizes);
      if !ok {
        return ptr, NoHostMemory;
      }
      RegisterKeepsBooks(was, Snap(), registry, awake, ptr, Allocation(alignedSize, chunks));
      registry := registry[ptr := Allocation(alignedSize, chunks)];
      outcome := Allocated;
    }

    /**
     python_unmap_and_release.  An awake allocation gives back exactly what it owns.  A sleeping
     one has nothing mapped, and the books survive iff none of its old handle values is live again.
     */
    method Sleep(a: nat) returns (raised: bool)
      requires Valid() && a in registry
      modifies this`errorCode, this`awake, d`handles, d`mapped
      ensures errorCode == 0 && awake == old(awake) - {a} && AllWellFormed(registry, d.cells)
      ensures a in old(awake) ==>
        && Valid() && Sleeps(old(Ledger()), Ledger(), a)
        && (raised <==> old(errorCode) != 0)
      ensures a !in old(awake) ==>
        && d.mapped == old(d.mapped) && d.handles == old(d.handles) - HandlesAt(registry, d.cells, a)
        && (raised <==> old(errorCode) != 0 || registry[a].chunks != [])
        && (Valid() <==> HandlesAt(registry, d.cells, a) !! old(d.handles).Keys)
    {
      hide Accounted, AllWellFormed, WellFormed, AllLive, AllMapped, MappedTiles, HandlesOf, TilesOf;
      ghost var was := Snap();
      RegisteredIsWellFormed(was, registry, awake, a);
      errorCode := UnmapAndRelease(d, a, registry[a].chunks, errorCode);
      if a in awake {
        AfterSleepOf(was, Snap(), registry, awake, a);
      } else {
        SleepAgain(was, Snap(), registry, awake, a);
      }
      awake := awake - {a};
      raised := errorCode != 0;
      errorCode := 0;
    }

    /** python_create_and_map: a failure is raised, and the error code is reset. */
    method Wake(a: nat) returns (outcome: Outcome)
      requires Valid() && a in registry
      modifies this`errorCode, this`awake, d`handles, d`mapped, d`cells
      ensures errorCode == 0 && (outcome == StaleError <==> old(errorCode) != 0)
      ensures a !in old(awake) && outcome == Mapped ==> Valid() && Wakes(old(Ledger()), Ledger(), a)
      ensures a !in old(awake) && outcome == RolledBack ==> Valid() && RollsBack(old(Ledger()), Ledger(), a)
      ensures outcome == AccessDenied ==>
        && awake == old(awake) && WokeUp(old(Snap()), Snap(), registry, a)
        && Access(d.mapped, a, registry[a].chunks, |registry[a].chunks|, false)
        && (Valid() <==> registry[a].chunks == [])
      ensures outcome == StaleError ==>
        && awake == old(awake) && d.mapped == old(d.mapped)
        && (d.handles == old(d.handles) || OneHandleMore(old(d.handles), d.handles, registry[a].chunks, d.cells))
      ensures a in old(awake) && registry[a].chunks != [] ==> outcome == RolledBack || outcome == StaleError
      ensures a in old(awake) && outcome == RolledBack ==>
        && awake == old(awake) && d.mapped == old(d.mapped) && d.handles == old(d.handles)
        && (Valid() <==> d.cells == old(d.cells))
    {
      hide Accounted, WokeUp, OnlyCells, WellFormed, Access, OneHandleMore;
      outcome := MapRegistered(a);
      errorCode := 0;
    }

    /**
     my_free.  Freeing an awake allocation with its aligned size is a sleep (`mid`) and a drop.
     Freeing a sleeping one is reported as an error, and takes away a handle of whoever has been
     issued one of its old handle values.  With another size the reservation stays behind.
     */
    method Free(a: nat, size: nat) returns (ghost mid: Books)
      requires Valid()
      modifies this, d
      ensures a !in old(registry) ==> Ledger() == old(Ledger()) && errorCode == old(errorCode)
      ensures a in old(registry) ==>
        var alloc := old(registry)[a];
        && registry == old(registry) - {a} && awake == old(awake) - {a}
        && d.cells == old(d.cells) - CellsOf(alloc.chunks)
        && d.reserved == (if size == alloc.size then old(d.reserved) - {a} else old(d.reserved))
        && WellFormed(alloc.chunks, old(d.cells))
        && d.handles == old(d.handles) - HandlesOf(alloc.chunks, old(d.cells), |alloc.chunks|)
        && d.mapped == old(d.mapped) - (if a in old(awake) then TilesOf(a, alloc.chunks, |alloc.chunks|) else {})
        && (errorCode == 0 <==> old(errorCode) == 0 && size == alloc.size && (a in old(awake) || alloc.chunks == []))
        && (Valid() <==>
              size == alloc.size &&
              (a in old(awake) || HandlesOf(alloc.chunks, old(d.cells), |alloc.chunks|) !! old(d.handles).Keys))
      ensures a in old(registry) && Valid() ==>
        && Drops(mid, Ledger(), a)
        && if a in old(awake) then Sleeps(old(Ledger()), mid, a) else mid == old(Ledger())
    {
      hide Accounted, AllWellFormed, WellFormed, AllLive, AllMapped, MappedTiles, HandlesOf, TilesOf, CellsOf;
      mid := Ledger();
      if a !in registry {
        return;
      }
      ghost var was := Snap();
      ghost var up := awake;
      var alloc := registry[a];
      RegisteredIsWellFormed(was, registry, awake, a);
      errorCode := UnmapAndRelease(d, a, alloc.chunks, errorCode);
      if a in awake {
        AfterSleepOf(was, Snap(), registry, awake, a);
      } else {
        SleepAgain(was, Snap(), registry, awake, a);
      }
      awake := awake - {a};
      mid := Ledger();
      var err := d.CuMemAddressFree(a, size);
      errorCode := Check(errorCode, err);
      FreeCells(d, alloc.chunks);
      registry := registry - {a};
      AfterFree(was, mid.world, Snap(), mid.registry, up, a, size);
    }
  }
}
