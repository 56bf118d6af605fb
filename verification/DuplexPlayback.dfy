/**
 Playback: over any run, what is heard never overlaps and keeps arrival order, nothing is
 scheduled in the past, and silence follows the loss of the turn.
 */
module DuplexPlayback {
  import opened Wrappers
  import opened DuplexModel
  import opened DuplexTurns

  function Max(a: real, b: real): real { if a < b then b else a }

  /** An earlier chunk is over, or was stopped, before a later one starts. */
  predicate Precedes(p: Play, q: Play) {
    p.End() <= q.start || (p.cut.Some? && p.cut.value <= q.start)
  }

  ghost predicate InOrder(plays: seq<Play>) {
    forall i, j :: 0 <= i < j < |plays| ==> Precedes(plays[i], plays[j])
  }

  /** A chunk that was not stopped ends before the next one may start; a stopped one was stopped by now. */
  predicate Settled(p: Play, horizon: real, now: real) {
    && p.arrived <= p.start && p.duration >= 0.0
    && (p.cut.None? ==> p.End() <= horizon)
    && (p.cut.Some? ==> p.cut.value <= now)
  }

  ghost predicate ActiveInv(a: Audio, now: real) {
    && (forall i :: i in a.active ==> i < |a.plays| && a.plays[i].cut.None?)
    && (forall i :: 0 <= i < |a.plays| && i !in a.active ==>
          a.plays[i].cut.Some? || a.plays[i].End() <= now)
  }

  ghost predicate PlaybackInv(a: Audio, now: real) {
    && InOrder(a.plays)
    && (forall i :: 0 <= i < |a.plays| ==> Settled(a.plays[i], Max(a.nextStart, now), now))
    && ActiveInv(a, now)
  }

  lemma TimePasses(a: Audio, now: real, later: real)
    requires PlaybackInv(a, now) && now <= later
    ensures PlaybackInv(a, later)
  {
    assert forall i :: 0 <= i < |a.plays| && i !in a.active ==>
      a.plays[i].cut.Some? || a.plays[i].End() <= now;
  }

  lemma StopKeepsOrder(a: Audio, now: real)
    requires PlaybackInv(a, now)
    ensures PlaybackInv(StopAllPlayback(a, now), now)
  {
    var t := StopAllPlayback(a, now);
    forall i | 0 <= i < |t.plays|
      ensures Settled(t.plays[i], Max(0.0, now), now)
    {
      assert Settled(a.plays[i], Max(a.nextStart, now), now);
      if i !in a.active {
        assert a.plays[i].cut.Some? || a.plays[i].End() <= now;
      }
    }
    forall i, j | 0 <= i < j < |t.plays|
      ensures Precedes(t.plays[i], t.plays[j])
    {
      assert Precedes(a.plays[i], a.plays[j]);
      assert i in a.active ==> a.plays[i].cut.None?;
    }
  }

  lemma ScheduleKeepsOrder(a: Audio, now: real, duration: real)
    requires PlaybackInv(a, now) && duration >= 0.0
    ensures PlaybackInv(Schedule(a, now, duration), now)
  {
    var t := Schedule(a, now, duration);
    var n := |a.plays|;
    assert Max(a.nextStart, now) <= t.plays[n].start;
    forall i | 0 <= i < |t.plays|
      ensures Settled(t.plays[i], Max(t.nextStart, now), now)
      ensures i < n ==> Precedes(t.plays[i], t.plays[n])
    {
      if i < n {
        assert Settled(a.plays[i], Max(a.nextStart, now), now);
      }
    }
    forall i, j | 0 <= i < j < |t.plays|
      ensures Precedes(t.plays[i], t.plays[j])
    {
      if j < n {
        assert Precedes(a.plays[i], a.plays[j]);
      }
    }
    assert forall i :: i in t.active ==> i in a.active || i == n;
    assert n in t.active by { assert t.active[|a.active|] == n; }
    assert forall i :: i in a.active ==> i in t.active;
  }

  lemma EndKeepsOrder(s: State, e: Event)
    requires PlaybackInv(s.audio, e.now) && e.input.SourceEnded? && Fires(s, e)
    ensures PlaybackInv(OnEnded(s, e.input.source).audio, e.now)
  {
  }

  lemma {:induction false} StepKeepsPlayback(cfg: Config, s: State, e: Event)
    requires cfg.sampleRate > 0
    requires PlaybackInv(s.audio, e.now) && Fires(s, e)
    ensures PlaybackInv(Step(cfg, s, e).audio, e.now)
  {
    hide PlaybackInv;
    StopKeepsOrder(s.audio, e.now);
    match e.input
    case AudioChunk(bytes) => ScheduleKeepsOrder(s.audio, e.now, ChunkDuration(cfg, bytes));
    case SourceEnded(_) => EndKeepsOrder(s, e);
    case _ =>
  }

  lemma {:induction false} RunKeepsPlayback(cfg: Config, es: seq<Event>)
    requires cfg.sampleRate > 0 && Legal(cfg, es)
    ensures PlaybackInv(Run(cfg, es).audio, Clock(es))
  {
    if es == [] {
    } else {
      var k := |es| - 1;
      RunKeepsPlayback(cfg, es[..k]);
      TimePasses(Run(cfg, es[..k]).audio, Clock(es[..k]), es[k].now);
      StepKeepsPlayback(cfg, Run(cfg, es[..k]), es[k]);
    }
  }

  /** Whenever two chunks are heard, the one that arrived first is heard first: they never overlap. */
  lemma NeverTwoAtOnce(cfg: Config, es: seq<Event>, i: nat, j: nat, t: real, u: real)
    requires cfg.sampleRate > 0 && Legal(cfg, es)
    requires i < j < |Run(cfg, es).audio.plays|
    requires Run(cfg, es).audio.plays[i].Sounds(t) && Run(cfg, es).audio.plays[j].Sounds(u)
    ensures t < u
  {
    RunKeepsPlayback(cfg, es);
    var plays := Run(cfg, es).audio.plays;
    assert Precedes(plays[i], plays[j]);
  }

  /** Nothing is scheduled in the past. */
  lemma NeverInThePast(cfg: Config, es: seq<Event>, i: nat)
    requires cfg.sampleRate > 0 && Legal(cfg, es)
    requires i < |Run(cfg, es).audio.plays|
    ensures var p := Run(cfg, es).audio.plays[i]; p.arrived <= p.start
  {
    RunKeepsPlayback(cfg, es);
    var a := Run(cfg, es).audio;
    assert Settled(a.plays[i], Max(a.nextStart, Clock(es)), Clock(es));
  }

  /** When it is not the AI's turn nothing plays now or later, whatever is still reported about old sources. */
  lemma SilenceWithoutTurn(cfg: Config, es: seq<Event>, i: nat, t: real)
    requires cfg.sampleRate > 0 && Legal(cfg, es)
    requires !Run(cfg, es).turn.ai
    requires i < |Run(cfg, es).audio.plays| && Clock(es) <= t
    ensures !Run(cfg, es).audio.plays[i].Sounds(t)
  {
    RunKeepsPlayback(cfg, es);
    RunKeepsTurns(cfg, es);
    var a := Run(cfg, es).audio;
    assert a.active == [];
    assert Settled(a.plays[i], Max(a.nextStart, Clock(es)), Clock(es));
  }

  // ----- no gaps -----

  /** A chunk that arrives while its predecessor is still due to be heard starts where that one ends. */
  predicate Joined(p: Play, q: Play) {
    p.End() > q.arrived && (p.cut.Some? ==> p.cut.value > q.arrived) ==> q.start == p.End()
  }

  /** The chunk follows its predecessor directly, and that one was not stopped before the chunk arrived. */
  predicate Follows(plays: seq<Play>, j: nat)
    requires j < |plays|
  {
    && j > 0 && plays[j].start == plays[j - 1].End()
    && (plays[j - 1].cut.Some? ==> plays[j].arrived <= plays[j - 1].cut.value)
  }

  /** A chunk starts 50 ms after its arrival, or at the very start of the clock, or after the chunk before it. */
  predicate Prompt(plays: seq<Play>, j: nat)
    requires j < |plays|
  {
    plays[j].start == plays[j].arrived + 0.05 || plays[j].start == plays[j].arrived == 0.0 || Follows(plays, j)
  }

  ghost predicate GaplessInv(a: Audio, now: real) {
    && 0.0 <= now
    && (forall i :: 0 <= i < |a.plays| - 1 ==> Joined(a.plays[i], a.plays[i + 1]))
    && (forall j :: 0 <= j < |a.plays| ==> a.plays[j].arrived <= now && Prompt(a.plays, j))
    && (a.plays != [] ==>
          var p := a.plays[|a.plays| - 1];
          p.cut.Some? || p.End() <= now || a.nextStart == p.End())
    && (a.nextStart != 0.0 ==>
          a.plays != [] && a.plays[|a.plays| - 1].cut.None? && a.nextStart == a.plays[|a.plays| - 1].End())
  }

  lemma StopKeepsJoins(a: Audio, now: real)
    requires PlaybackInv(a, now) && GaplessInv(a, now)
    ensures GaplessInv(StopAllPlayback(a, now), now)
  {
    hide InOrder, Settled;
    var t := StopAllPlayback(a, now);
    forall i | 0 <= i < |t.plays| - 1
      ensures Joined(t.plays[i], t.plays[i + 1])
    {
      assert Joined(a.plays[i], a.plays[i + 1]);
      assert i in a.active ==> a.plays[i].cut.None?;
    }
    forall j | 0 <= j < |t.plays| ensures Prompt(t.plays, j) {
      assert Prompt(a.plays, j);
    }
  }

  lemma ScheduleKeepsJoins(a: Audio, now: real, duration: real)
    requires PlaybackInv(a, now) && GaplessInv(a, now)
    ensures GaplessInv(Schedule(a, now, duration), now)
  {
    hide InOrder, ActiveInv;
    var t := Schedule(a, now, duration);
    forall i | 0 <= i < |t.plays| - 1
      ensures Joined(t.plays[i], t.plays[i + 1])
    {
      assert Settled(a.plays[i], Max(a.nextStart, now), now);
      assert i < |a.plays| - 1 ==> Joined(a.plays[i], a.plays[i + 1]);
    }
    forall j | 0 <= j < |t.plays| ensures Prompt(t.plays, j) {
      assert j < |a.plays| ==> Prompt(a.plays, j);
    }
  }

  lemma EndKeepsJoins(s: State, source: nat, now: real)
    requires GaplessInv(s.audio, now)
    ensures GaplessInv(OnEnded(s, source).audio, now)
  {
    hide Joined, Prompt;
  }

  lemma {:induction false} StepKeepsJoins(cfg: Config, s: State, e: Event)
    requires cfg.sampleRate > 0 && PlaybackInv(s.audio, e.now) && GaplessInv(s.audio, e.now)
    ensures GaplessInv(Step(cfg, s, e).audio, e.now)
  {
    hide PlaybackInv, GaplessInv;
    StopKeepsJoins(s.audio, e.now);
    match e.input
    case AudioChunk(bytes) => ScheduleKeepsJoins(s.audio, e.now, ChunkDuration(cfg, bytes));
    case SourceEnded(source) => EndKeepsJoins(s, source, e.now);
    case _ =>
  }

  lemma {:induction false} RunKeepsJoins(cfg: Config, es: seq<Event>)
    requires cfg.sampleRate > 0 && Legal(cfg, es)
    ensures GaplessInv(Run(cfg, es).audio, Clock(es))
  {
    hide PlaybackInv, Joined, Prompt;
    if es == [] {
    } else {
      var k := |es| - 1;
      RunKeepsJoins(cfg, es[..k]);
      RunKeepsPlayback(cfg, es[..k]);
      TimePasses(Run(cfg, es[..k]).audio, Clock(es[..k]), es[k].now);
      StepKeepsJoins(cfg, Run(cfg, es[..k]), es[k]);
    }
  }

  /** Over any run, consecutive chunks that arrive in time are played back to back. */
  lemma GaplessPlayback(cfg: Config, es: seq<Event>, i: nat)
    requires cfg.sampleRate > 0 && Legal(cfg, es) && i + 1 < |Run(cfg, es).audio.plays|
    ensures var p, q := Run(cfg, es).audio.plays[i], Run(cfg, es).audio.plays[i + 1];
      p.End() > q.arrived && (p.cut.Some? ==> p.cut.value > q.arrived) ==> q.start == p.End()
  {
    hide Follows;
    RunKeepsJoins(cfg, es);
    var plays := Run(cfg, es).audio.plays;
    assert Joined(plays[i], plays[i + 1]);
  }

  /** And a chunk waits only for its predecessor: otherwise it starts 50 ms after its arrival. */
  lemma PromptPlayback(cfg: Config, es: seq<Event>, j: nat)
    requires cfg.sampleRate > 0 && Legal(cfg, es) && j < |Run(cfg, es).audio.plays|
    ensures var plays := Run(cfg, es).audio.plays;
      plays[j].start == plays[j].arrived + 0.05 || plays[j].start == plays[j].arrived == 0.0 || Follows(plays, j)
  {
    hide Joined, Follows;
    RunKeepsJoins(cfg, es);
    assert Prompt(Run(cfg, es).audio.plays, j);
  }

  // ----- every chunk of the AI's turn is played, for as long as it lasts -----

  /** The chunks of 16-bit samples that arrived in the AI's turn; odd and empty ones do not count. */
  ghost function Accepted(cfg: Config, es: seq<Event>): seq<Event>
    requires cfg.sampleRate > 0
  {
    if es == [] then []
    else
      var k := |es| - 1;
      Accepted(cfg, es[..k]) +
      match es[k].input
      case AudioChunk(bytes) =>
        if Run(cfg, es[..k]).turn.ai && bytes > 0 && bytes % 2 == 0 then [es[k]] else []
      case _ => []
  }

  /** `p` plays the chunk from its arrival on, two bytes to a sample. */
  predicate IsPlayOf(cfg: Config, p: Play, e: Event) {
    && e.input.AudioChunk? && p.arrived == e.now
    && p.duration * (cfg.sampleRate as real) * 2.0 == e.input.bytes as real
  }

  ghost predicate PlaysAll(cfg: Config, plays: seq<Play>, chunks: seq<Event>) {
    |plays| == |chunks| && forall i :: 0 <= i < |plays| ==> IsPlayOf(cfg, plays[i], chunks[i])
  }

  lemma DurationIsExact(cfg: Config, bytes: nat)
    requires cfg.sampleRate > 0 && bytes % 2 == 0
    ensures ChunkDuration(cfg, bytes) * (cfg.sampleRate as real) * 2.0 == bytes as real
  {
    var rate := cfg.sampleRate as real;
    assert (bytes / 2) as real / rate * rate == (bytes / 2) as real;
    assert bytes == (bytes / 2) * 2;
  }

  lemma {:induction false} ChunkIsPlayed(cfg: Config, s: State, e: Event, chunks: seq<Event>)
    requires cfg.sampleRate > 0 && e.input.AudioChunk? && PlaysAll(cfg, s.audio.plays, chunks)
    requires s.turn.ai ==> !s.voice.speaking
    ensures var t := Step(cfg, s, e);
      if s.turn.ai && e.input.bytes > 0 && e.input.bytes % 2 == 0 then
        PlaysAll(cfg, t.audio.plays, chunks + [e]) && t.log == s.log + [Scheduled(|chunks|)]
      else t == s
  {
    hide ChunkDuration;
    if s.turn.ai && e.input.bytes > 0 && e.input.bytes % 2 == 0 {
      DurationIsExact(cfg, e.input.bytes);
    }
  }

  lemma StopKeepsPlays(cfg: Config, a: Audio, now: real, chunks: seq<Event>)
    requires PlaysAll(cfg, a.plays, chunks)
    ensures PlaysAll(cfg, StopAllPlayback(a, now).plays, chunks)
  {
    hide IsPlayOf;
    forall i | 0 <= i < |a.plays| ensures IsPlayOf(cfg, StopAllPlayback(a, now).plays[i], chunks[i]) {
      SamePlay(cfg, a.plays[i], now, chunks[i]);
    }
  }

  lemma SamePlay(cfg: Config, p: Play, now: real, e: Event)
    requires IsPlayOf(cfg, p, e)
    ensures IsPlayOf(cfg, p.(cut := Some(now)), e)
  {
  }

  lemma {:induction false} OthersKeepPlays(cfg: Config, s: State, e: Event, chunks: seq<Event>)
    requires cfg.sampleRate > 0 && !e.input.AudioChunk? && PlaysAll(cfg, s.audio.plays, chunks)
    ensures PlaysAll(cfg, Step(cfg, s, e).audio.plays, chunks)
  {
    hide PlaysAll, StopAllPlayback, FlushCount, KeepForPreRoll, CountFrame;
    StopKeepsPlays(cfg, s.audio, e.now, chunks);
  }

  /** Over a run, source `i` plays the `i`th chunk of the AI's turns, for its full length. */
  lemma {:induction false} EveryChunkIsPlayed(cfg: Config, es: seq<Event>)
    requires cfg.sampleRate > 0
    ensures PlaysAll(cfg, Run(cfg, es).audio.plays, Accepted(cfg, es))
  {
    if es == [] {
    } else {
      hide PlaysAll, Step, NoStaleOutput, TurnOpen, Controls, IsDialogue;
      var k := |es| - 1;
      var s := Run(cfg, es[..k]);
      EveryChunkIsPlayed(cfg, es[..k]);
      if es[k].input.AudioChunk? {
        RunKeepsTurns(cfg, es[..k]);
        ChunkIsPlayed(cfg, s, es[k], Accepted(cfg, es[..k]));
        assert Accepted(cfg, es[..k]) + [] == Accepted(cfg, es[..k]);
      } else {
        OthersKeepPlays(cfg, s, es[k], Accepted(cfg, es[..k]));
        assert Accepted(cfg, es[..k]) + [] == Accepted(cfg, es[..k]);
      }
    }
  }

  // ----- when a source is stopped -----

  /** The device has reported the end of source `i`. */
  ghost predicate Reported(es: seq<Event>, i: nat) {
    exists k :: 0 <= k < |es| && es[k].input == SourceEnded(i)
  }

  ghost predicate Unfinished(es: seq<Event>, a: Audio, i: nat) {
    i < |a.plays| && a.plays[i].cut.None? && !Reported(es, i)
  }

  /** The page closes, the server interrupts, or the user does. */
  predicate Silences(s: State, t: State, e: Event) {
    || e.input.SocketClosed? || e.input.InterruptMessage?
    || (e.input.AudioFrame? && s.turn.ai && !s.voice.speaking && t.voice.speaking)
  }

  lemma ReportedNext(es: seq<Event>, e: Event, i: nat)
    ensures Reported(es + [e], i) <==> Reported(es, i) || e.input == SourceEnded(i)
  {
    var more := es + [e];
    if Reported(es, i) {
      var k :| 0 <= k < |es| && es[k].input == SourceEnded(i);
      assert more[k] == es[k];
    }
    if e.input == SourceEnded(i) { assert more[|es|] == e; }
  }

  /** What an event does to the sources there are. */
  lemma {:induction false} StepStops(cfg: Config, s: State, e: Event, i: nat)
    requires cfg.sampleRate > 0 && i < |s.audio.plays| && (s.turn.ai ==> !s.voice.speaking)
    requires (s.audio.active != [] ==> s.turn.ai)
    ensures var t := Step(cfg, s, e);
      && i < |t.audio.plays|
      && t.audio.plays[i] ==
           (if Silences(s, t, e) && i in s.audio.active then s.audio.plays[i].(cut := Some(e.now))
            else s.audio.plays[i])
      && (i in t.audio.active <==>
           i in s.audio.active && !Silences(s, t, e) && e.input != SourceEnded(i))
  {
    hide FlushCount, KeepForPreRoll, ChunkDuration;
  }

  lemma {:induction false} StepStarts(cfg: Config, s: State, e: Event, i: nat)
    requires cfg.sampleRate > 0 && |s.audio.plays| <= i && i !in s.audio.active
    ensures var t := Step(cfg, s, e);
      && (i in t.audio.active <==> i < |t.audio.plays|)
      && (i < |t.audio.plays| ==> t.audio.plays[i].cut.None? && e.input.AudioChunk?)
  {
    hide FlushCount, KeepForPreRoll, ChunkDuration;
  }

  /** The sources that would be stopped are those neither stopped before nor reported to have ended. */
  lemma {:induction false} ActiveIff(cfg: Config, es: seq<Event>, i: nat)
    requires cfg.sampleRate > 0 && Legal(cfg, es)
    ensures i in Run(cfg, es).audio.active <==> Unfinished(es, Run(cfg, es).audio, i)
    ensures Reported(es, i) ==> i < |Run(cfg, es).audio.plays|
  {
    if es == [] {
    } else {
      hide Step, Reported, NoStaleOutput, TurnOpen, Controls, IsDialogue, Silences;
      var k := |es| - 1;
      var s := Run(cfg, es[..k]);
      ActiveIff(cfg, es[..k], i);
      RunKeepsTurns(cfg, es[..k]);
      ReportedNext(es[..k], es[k], i);
      assert es == es[..k] + [es[k]];
      if i < |s.audio.plays| {
        StepStops(cfg, s, es[k], i);
      } else {
        StepStarts(cfg, s, es[k], i);
      }
    }
  }

  /** A source is stopped at the moment of an event that silences the AI, if unfinished then, and never otherwise. */
  lemma StoppedExactly(cfg: Config, es: seq<Event>, e: Event, i: nat)
    requires cfg.sampleRate > 0 && Legal(cfg, es) && i < |Run(cfg, es).audio.plays|
    ensures var s, t := Run(cfg, es), Step(cfg, Run(cfg, es), e);
      && i < |t.audio.plays|
      && t.audio.plays[i] ==
           if Silences(s, t, e) && Unfinished(es, s.audio, i) then s.audio.plays[i].(cut := Some(e.now))
           else s.audio.plays[i]
  {
    hide Step, Unfinished, Silences, NoStaleOutput, TurnOpen, Controls, IsDialogue;
    RunKeepsTurns(cfg, es);
    ActiveIff(cfg, es, i);
    StepStops(cfg, Run(cfg, es), e, i);
  }
}
