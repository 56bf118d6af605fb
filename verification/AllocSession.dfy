/**
 A whole session with the allocator: whatever is asked for in whatever order, and whatever fails
 on the way, the books balance after every call.
 */
module AllocSession {
  import opened AllocChunks
  import opened AllocDevice
  import opened AllocMapping
  import opened AllocLedger
  import opened AllocRuns
  import opened Allocator

  datatype Command = Allocate(size: nat) | PutToSleep(address: nat) | WakeUp(address: nat) | Release(address: nat)

  ghost predicate AllFit(cmds: seq<Command>, g: nat, baseChunk: nat) {
    forall i :: 0 <= i < |cmds| && cmds[i].Allocate? ==> NoWrap(cmds[i].size, g, baseChunk)
  }

  /**
   Carries out the commands that make sense: awake allocations can be put to sleep or released,
   sleeping ones woken.  `ok` is false when a call left something behind that nobody owns.
   */
  method Serve(d: Device, setting: Setting, cmds: seq<Command>)
    returns (al: Allocator, ok: bool, ghost run: seq<Books>, ghost who: seq<nat>)
    requires d.granularity > 0 && (setting.Megabytes? ==> setting.value < WORD)
    requires AllFit(cmds, d.granularity, MemcreateChunkSize(setting))
    requires World(d.reserved, d.handles, d.mapped, d.cells) == EMPTY
    modifies d
    ensures al.d == d && IsRun(run, who) && forall k :: 0 <= k < |run| ==> Balanced(run[k])
    ensures ok ==> run[|who|] == al.Ledger() && al.Valid() && (al.registry == map[] ==> al.Snap() == EMPTY)
  {
    hide IsRun, Accounted, NoWrap;
    al := new Allocator(d, setting);
    ok, run, who := true, [START], [];
    NoMoves();
    var up: set<nat> := {};
    for i := 0 to |cmds|
      invariant fresh(al) && al.d == d && al.baseChunk == MemcreateChunkSize(setting)
      invariant IsRun(run, who) && |run| == |who| + 1
      invariant ok ==> al.Valid() && up == al.awake && run[|who|] == al.Ledger()
    {
      if !ok {
        break;
      }
      assert cmds[i].Allocate? ==> NoWrap(cmds[i].size, d.granularity, al.baseChunk);
      ok, up, run, who := Carry(al, cmds[i], up, run, who);
    }
    Conclude(run, who);
    if ok && al.registry == map[] { NothingRegisteredNothingHeld(al.Snap(), al.awake); }
  }

  /** One command. */
  method Carry(al: Allocator, cmd: Command, up: set<nat>, ghost run: seq<Books>, ghost who: seq<nat>)
    returns (ok: bool, up': set<nat>, ghost run': seq<Books>, ghost who': seq<nat>)
    requires al.Valid() && up == al.awake
    requires cmd.Allocate? ==> NoWrap(cmd.size, al.d.granularity, al.baseChunk)
    requires IsRun(run, who) && |run| == |who| + 1 && run[|who|] == al.Ledger()
    modifies al, al.d
    ensures IsRun(run', who') && |run'| == |who'| + 1
    ensures ok ==> al.Valid() && up' == al.awake && run'[|who'|] == al.Ledger()
    ensures !ok ==> cmd.WakeUp? || (cmd.Allocate? && !al.Valid())
  {
    hide IsRun, Accounted, NoWrap, Registers, Wakes, RollsBack, Sleeps, Drops;
    ok, up', run', who' := true, up, run, who;
    ghost var was := al.Ledger();
    UpIsRegistered(was);
    match cmd
    case Allocate(size) =>
      var ptr, outcome, mid := al.Malloc(size);
      if outcome == Allocated {
        WakesChanges(mid, al.Ledger(), ptr);
        RegistersChanges(was, mid, ptr);
        run', who' := TwoMoves(run, who, mid, al.Ledger(), ptr);
        up' := up + {ptr};
      } else {
        ok := outcome == NotStarted;
      }
    case PutToSleep(a) =>
      if a in up {
        var _ := al.Sleep(a);
        run', who' := OneMove(run, who, al.Ledger(), a);
        up' := up - {a};
      }
    case WakeUp(a) =>
      if a in al.registry && a !in up {
        var outcome := al.Wake(a);
        ok := outcome == Mapped || outcome == RolledBack;
        if outcome == Mapped {
          WakesChanges(was, al.Ledger(), a);
          run', who' := OneMove(run, who, al.Ledger(), a);
          up' := up + {a};
        } else if outcome == RolledBack {
          RollsBackChanges(was, al.Ledger(), a);
          run', who' := OneMove(run, who, al.Ledger(), a);
        }
      }
    case Release(a) =>
      if a in up {
        var mid := al.Free(a, al.registry[a].size);
        run', who' := TwoMoves(run, who, mid, al.Ledger(), a);
        up' := up - {a};
      }
  }

  lemma NoMoves()
    ensures IsRun([START], [])
  {
  }

  lemma UpIsRegistered(b: Books)
    requires Balanced(b)
    ensures b.awake <= b.registry.Keys
  {
  }

  lemma WakesChanges(b: Books, c: Books, a: nat)
    requires Wakes(b, c, a)
    ensures c.awake == b.awake + {a}
  {
  }

  lemma RegistersChanges(b: Books, c: Books, a: nat)
    requires Registers(b, c, a)
    ensures c.awake == b.awake
  {
  }

  lemma RollsBackChanges(b: Books, c: Books, a: nat)
    requires RollsBack(b, c, a)
    ensures c.awake == b.awake
  {
  }

  lemma OneMove(run: seq<Books>, who: seq<nat>, c: Books, a: nat) returns (run': seq<Books>, who': seq<nat>)
    requires IsRun(run, who) && |run| == |who| + 1 && Moves(run[|who|], c, a)
    ensures IsRun(run', who') && |run'| == |who'| + 1 && run'[|who'|] == c
  {
    hide IsRun, Moves;
    RunGrows(run, who, c, a);
    run', who' := run + [c], who + [a];
  }

  lemma TwoMoves(run: seq<Books>, who: seq<nat>, mid: Books, c: Books, a: nat)
    returns (run': seq<Books>, who': seq<nat>)
    requires IsRun(run, who) && |run| == |who| + 1 && Moves(run[|who|], mid, a) && Moves(mid, c, a)
    ensures IsRun(run', who') && |run'| == |who'| + 1 && run'[|who'|] == c
  {
    hide IsRun, Moves;
    run', who' := OneMove(run, who, mid, a);
    run', who' := OneMove(run', who', c, a);
  }

  lemma Conclude(run: seq<Books>, who: seq<nat>)
    requires IsRun(run, who)
    ensures forall k :: 0 <= k < |run| ==> Balanced(run[k])
  {
    hide IsRun, Balanced;
    forall k | 0 <= k < |run| ensures Balanced(run[k]) { RunKeepsBooks(run, who, k); }
  }
}
