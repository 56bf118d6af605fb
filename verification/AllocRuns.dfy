/**
 Runs of the allocator: every call is one or two moves, and every move keeps the books.
 */
module AllocRuns {
  import opened AllocChunks
  import opened AllocDevice
  import opened AllocMapping
  import opened AllocLedger

  datatype Books = Books(world: World, registry: Registry, awake: set<nat>)

  const START := Books(EMPTY, map[], {})

  ghost predicate Registers(b: Books, c: Books, a: nat) {
    && a in c.registry && Registered(b.world, c.world, a, c.registry[a])
    && c.registry == b.registry[a := c.registry[a]] && c.awake == b.awake
  }

  ghost predicate Wakes(b: Books, c: Books, a: nat) {
    && a in b.registry && a !in b.awake && WokeUp(b.world, c.world, b.registry, a)
    && Access(c.world.mapped, a, b.registry[a].chunks, |b.registry[a].chunks|, true)
    && c.registry == b.registry && c.awake == b.awake + {a}
  }

  /** A failed attempt to wake: only the sleeper's own cells may hold other values. */
  ghost predicate RollsBack(b: Books, c: Books, a: nat) {
    && a in b.registry && a !in b.awake && c.registry == b.registry && c.awake == b.awake
    && c.world == b.world.(cells := c.world.cells)
    && OnlyCells(b.world.cells, c.world.cells, b.registry[a].chunks)
    && WellFormed(b.registry[a].chunks, c.world.cells)
  }

  ghost predicate Sleeps(b: Books, c: Books, a: nat) {
    && a in b.registry && a in b.awake && AllWellFormed(b.registry, b.world.cells)
    && FellAsleep(b.world, c.world, b.registry, a)
    && c.registry == b.registry && c.awake == b.awake - {a}
  }

  ghost predicate Drops(b: Books, c: Books, a: nat) {
    && a in b.registry && a !in b.awake && Dropped(b.world, c.world, b.registry, a)
    && c.registry == b.registry - {a} && c.awake == b.awake
  }

  ghost predicate Moves(b: Books, c: Books, a: nat) {
    Registers(b, c, a) || Wakes(b, c, a) || RollsBack(b, c, a) || Sleeps(b, c, a) || Drops(b, c, a)
  }

  ghost predicate Balanced(b: Books) {
    Accounted(b.world, b.registry, b.awake)
  }

  lemma MoveKeepsBooks(b: Books, c: Books, a: nat)
    requires Balanced(b) && Moves(b, c, a)
    ensures Balanced(c)
  {
    hide Accounted, WokeUp, FellAsleep, Registered, Dropped, OnlyCells, WellFormed, AllWellFormed;
    if Registers(b, c, a) {
      RegisterKeepsBooks(b.world, c.world, b.registry, b.awake, a, c.registry[a]);
    } else if Wakes(b, c, a) {
      WakeKeepsBooks(b.world, c.world, b.registry, b.awake, a);
    } else if RollsBack(b, c, a) {
      RollbackKeepsBooks(b.world, c.world, b.registry, b.awake, a);
    } else if Sleeps(b, c, a) {
      SleepKeepsBooks(b.world, c.world, b.registry, b.awake, a);
    } else {
      DropKeepsBooks(b.world, c.world, b.registry, b.awake, a);
    }
  }

  /** Books after each move, from an empty device on; `who` says which allocation moved. */
  ghost predicate IsRun(run: seq<Books>, who: seq<nat>) {
    && |run| == |who| + 1 && run[0] == START
    && forall i :: 0 <= i < |who| ==> Moves(run[i], run[i + 1], who[i])
  }

  lemma RunGrows(run: seq<Books>, who: seq<nat>, c: Books, a: nat)
    requires IsRun(run, who) && Moves(run[|who|], c, a)
    ensures IsRun(run + [c], who + [a])
  {
    hide Moves;
    var more, names := run + [c], who + [a];
    forall i | 0 <= i < |names| ensures Moves(more[i], more[i + 1], names[i]) {
      if i < |who| { assert Moves(run[i], run[i + 1], who[i]); }
    }
  }

  lemma {:induction false} RunKeepsBooks(run: seq<Books>, who: seq<nat>, k: nat)
    requires IsRun(run, who) && k < |run|
    ensures Balanced(run[k])
  {
    hide Moves, Accounted;
    if k == 0 {
      EmptyIsAccounted();
    } else {
      RunKeepsBooks(run, who, k - 1);
      MoveKeepsBooks(run[k - 1], run[k], who[k - 1]);
    }
  }

  /** Whatever was allocated, put to sleep, woken and freed in between: when all is freed, nothing is held. */
  lemma EverythingIsGivenBack(run: seq<Books>, who: seq<nat>)
    requires IsRun(run, who) && run[|who|].registry == map[]
    ensures run[|who|].world == EMPTY
  {
    hide Moves, Accounted;
    RunKeepsBooks(run, who, |who|);
    NothingRegisteredNothingHeld(run[|who|].world, run[|who|].awake);
  }

  // ----- a handle value can be issued again -----

  /** An allocation of one chunk. */
  function Small(cell: nat): Allocation { Allocation(1, [Chunk(cell, 1)]) }

  lemma SmallIsOneChunk(base: nat, cell: nat, cells: map<nat, nat>)
    requires cell in cells
    ensures var chunks := Small(cell).chunks;
      && WellFormed(chunks, cells) && Sizes(chunks) == [1] && Sum([1]) == 1 && At(base, chunks, 0) == base
      && CellsOf(chunks) == {cell} && TilesOf(base, chunks, 1) == {base}
      && HandlesOf(chunks, cells, 1) == {cells[cell]} && DistinctHandles(chunks, cells, 1)
  {
    var chunks := Small(cell).chunks;
    assert Sizes(chunks) == [1] && [1][..0] == [];
    assert chunks[0] == Chunk(cell, 1);
    assert TilesOf(base, chunks, 1) == {At(base, chunks, 0)};
    assert HandlesOf(chunks, cells, 1) == {cells[chunks[0].cell]};
  }

  function AfterRegister(b: Books, a: nat, cell: nat): Books {
    var w := b.world;
    Books(w.(reserved := w.reserved[a := 1], cells := w.cells[cell := 0]), b.registry[a := Small(cell)], b.awake)
  }

  lemma SmallRegisters(b: Books, a: nat, cell: nat)
    requires Unreserved(b.world.reserved, a, 1) && cell !in b.world.cells
    ensures Registers(b, AfterRegister(b, a, cell), a)
  {
    SmallIsOneChunk(a, cell, b.world.cells[cell := 0]);
  }

  function AfterWake(b: Books, a: nat, cell: nat, h: nat): Books {
    var w := b.world;
    b.(world := World(w.reserved, w.handles[h := 1], w.mapped[a := Mapping(1, h, true)], w.cells[cell := h]),
       awake := b.awake + {a})
  }

  lemma SmallWakes(b: Books, a: nat, cell: nat, h: nat)
    requires a in b.registry && b.registry[a] == Small(cell) && a !in b.awake && cell in b.world.cells
    requires h !in b.world.handles && a !in b.world.mapped
    ensures Wakes(b, AfterWake(b, a, cell, h), a)
  {
    var w, v := b.world, AfterWake(b, a, cell, h).world;
    SmallIsOneChunk(a, cell, v.cells);
    assert v.mapped - {a} == w.mapped && v.handles - {h} == w.handles;
  }

  function AfterSleep(b: Books, a: nat, cell: nat): Books
    requires cell in b.world.cells
  {
    var w := b.world;
    b.(world := w.(handles := w.handles - {w.cells[cell]}, mapped := w.mapped - {a}), awake := b.awake - {a})
  }

  lemma SmallSleeps(b: Books, a: nat, cell: nat)
    requires a in b.registry && b.registry[a] == Small(cell) && a in b.awake && cell in b.world.cells
    requires AllWellFormed(b.registry, b.world.cells)
    ensures Sleeps(b, AfterSleep(b, a, cell), a)
  {
    SmallIsOneChunk(a, cell, b.world.cells);
  }

  /**
   There is a run after which a sleeping allocation's cell holds the handle of an awake one: the
   driver issues a released handle value again.
   */
  lemma SleeperCanHoldForeignHandle() returns (run: seq<Books>, who: seq<nat>, sleeper: nat)
    ensures IsRun(run, who)
    ensures var b := run[|who|];
      && sleeper in b.registry && sleeper !in b.awake && AllWellFormed(b.registry, b.world.cells)
      && HandlesAt(b.registry, b.world.cells, sleeper) == b.world.handles.Keys != {}
  {
    hide Registers, Wakes, Sleeps, Drops, RollsBack, AllWellFormed, HandlesOf, IsRun, Small;
    sleeper := 0;
    var b;
    run, who, b := OneAsleep();
    var c := AfterRegister(b, 1, 1);
    var d := AfterWake(c, 1, 1, 7);
    SmallRegisters(b, 1, 1);
    SmallWakes(c, 1, 1, 7);
    RunGrows(run, who, c, 1);
    run, who := run + [c], who + [1];
    RunGrows(run, who, d, 1);
    run, who := run + [d], who + [1];
    SmallAllWellFormed(d.registry, d.world.cells);
    SmallIsOneChunk(0, 0, d.world.cells);
  }

  /** One allocation, asleep again after it was awake with handle 7. */
  lemma OneAsleep() returns (run: seq<Books>, who: seq<nat>, b: Books)
    ensures IsRun(run, who) && |run| == |who| + 1 && run[|who|] == b
    ensures b.registry.Keys == {0} && b.registry[0] == Small(0) && b.awake == {}
    ensures b.world.handles == map[] && b.world.mapped.Keys == {}
    ensures b.world.cells.Keys == {0} && b.world.cells[0] == 7 && b.world.reserved == map[0 := 1]
  {
    hide Registers, Wakes, Sleeps, Drops, RollsBack, AllWellFormed, Small;
    var s := AfterRegister(START, 0, 0);
    var t := AfterWake(s, 0, 0, 7);
    b := AfterSleep(t, 0, 0);
    SmallRegisters(START, 0, 0);
    SmallWakes(s, 0, 0, 7);
    SmallAllWellFormed(t.registry, t.world.cells);
    SmallSleeps(t, 0, 0);
    run, who := [START, s, t, b], [0, 0, 0];
  }

  lemma SmallAllWellFormed(reg: Registry, cells: map<nat, nat>)
    requires forall a :: a in reg ==> reg[a] == Small(a) && a in cells
    ensures AllWellFormed(reg, cells)
  {
    forall a | a in reg ensures WellFormed(reg[a].chunks, cells) && Sum(Sizes(reg[a].chunks)) == reg[a].size {
      SmallIsOneChunk(a, a, cells);
    }
  }
}
