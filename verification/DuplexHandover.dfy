/**
 When the AI gives the turn back.  The end of a response does not do it; only the end of the last
 source does, and only after the end of the response.  An answer without audio, or one whose audio
 is over too soon, keeps the turn until the user speaks, who is then taken to interrupt it.
 */
module DuplexHandover {
  import opened DuplexModel
  import opened DuplexTurns
  import opened DuplexFrames
  import opened DuplexPreRoll

  /** The events that end the AI's turn. */
  predicate EndsTurn(cfg: Config, s: State, input: Input) {
    match input
    case AudioFrame(rms, _, _, _) => s.open && Activates(cfg, s.voice, rms > cfg.vadThreshold)
    case SocketClosed => true
    case SourceEnded(source) => !s.turn.processing && forall i :: i in s.audio.active ==> i == source
    case _ => false
  }

  /** In every reachable state, an event takes the turn from the AI iff it is one of those. */
  lemma TurnEndsIff(cfg: Config, es: seq<Event>, e: Event)
    requires cfg.sampleRate > 0 && Run(cfg, es).turn.ai
    ensures !Step(cfg, Run(cfg, es), e).turn.ai <==> EndsTurn(cfg, Run(cfg, es), e.input)
  {
    hide Run, TurnOpen, NoStaleOutput, IsDialogue, Controls;
    RunKeepsTurns(cfg, es);
    var s := Run(cfg, es);
    if e.input.SourceEnded? {
      var active := Without(s.audio.active, e.input.source);
      assert active != [] ==> active[0] in s.audio.active && active[0] != e.input.source;
    }
  }

  // ----- when an answer is awaited -----

  predicate Answers(o: Out) { o.ResponseEnded? || o.BargeIn? || o.Closed? }

  /** The last utterance has not been answered, interrupted or cut off. */
  ghost predicate Pending(log: seq<Out>) {
    log != [] &&
    var o := log[|log| - 1];
    o.EndOfUtterance? || (!Answers(o) && Pending(log[..|log| - 1]))
  }

  lemma NextPending(log: seq<Out>, o: Out)
    ensures Pending(log + [o]) <==> o.EndOfUtterance? || (!Answers(o) && Pending(log))
  {
    assert (log + [o])[..|log|] == log;
  }

  lemma {:induction false} FramesKeepPending(log: seq<Out>, more: seq<Out>)
    requires forall i :: 0 <= i < |more| ==> more[i].FrameSent?
    ensures Pending(log + more) <==> Pending(log)
  {
    if more == [] {
      assert log + more == log;
    } else {
      var n := |more| - 1;
      assert log + more == log + more[..n] + [more[n]];
      FramesKeepPending(log, more[..n]);
      NextPending(log + more[..n], more[n]);
    }
  }

  lemma AudioKeepsPending(cfg: Config, s: State, now: real, f: Frame)
    requires (s.turn.processing <==> Pending(s.log)) && (s.turn.processing ==> s.turn.ai)
    ensures var t := OnAudio(cfg, s, now, f.rms, f.backlogs, f.backlog, f.mode);
      t.turn.processing <==> Pending(t.log)
  {
    hide Pending, FlushCount, KeepForPreRoll, StopAllPlayback, CountFrame, PreRollFrames;
    var loud := f.rms > cfg.vadThreshold;
    var live := Live(cfg, s.frames.nextSeq, f.backlog);
    if s.open && Activates(cfg, s.voice, loud) {
      ActivationAdds(cfg, s, now, f);
      var q := s.frames.preRoll;
      var sent := FromBuffer(q[..FlushCount(cfg.maxBuffered, f.backlogs, 0, |q|)]);
      var o := Activated(|s.voice.history| + 1);
      var begun := s.log + [o] + if s.turn.ai then [BargeIn] else [];
      NextPending(s.log, o);
      NextPending(s.log + [o], BargeIn);
      assert s.log + [o] + [] == s.log + [o];
      FramesKeepPending(begun, sent + live);
      assert begun + (sent + live) == OnAudio(cfg, s, now, f.rms, f.backlogs, f.backlog, f.mode).log;
    } else if s.open && Finishes(cfg, s.voice, loud) {
      EndAdds(cfg, s, now, f);
      var o := EndOfUtterance(|s.voice.history| + 1, s.frames.lastVoiceSeq, f.mode);
      NextPending(s.log, o);
      assert s.log + [o] + [] == s.log + [o];
    } else if s.open {
      OtherAdds(cfg, s, now, f);
      FramesKeepPending(s.log, live);
    }
  }

  lemma {:induction false} OthersKeepPending(cfg: Config, s: State, e: Event)
    requires cfg.sampleRate > 0 && !e.input.AudioFrame? && (s.turn.processing <==> Pending(s.log))
    ensures var t := Step(cfg, s, e); t.turn.processing <==> Pending(t.log)
  {
    hide Pending, StopAllPlayback, Schedule, Without;
    var t := Step(cfg, s, e);
    if t.log != s.log { NextPending(s.log, t.log[|s.log|]); }
  }

  /** Over a run, the client is waiting for the server iff its last utterance is still pending. */
  lemma {:induction false} ProcessingIff(cfg: Config, es: seq<Event>)
    requires cfg.sampleRate > 0
    ensures Run(cfg, es).turn.processing <==> Pending(Run(cfg, es).log)
  {
    if es == [] {
    } else {
      hide Step, Pending, NoStaleOutput, IsDialogue, Controls, TurnOpen;
      var k := |es| - 1;
      var s := Run(cfg, es[..k]);
      ProcessingIff(cfg, es[..k]);
      if es[k].input.AudioFrame? {
        var AudioFrame(rms, backlogs, backlog, mode) := es[k].input;
        RunKeepsTurns(cfg, es[..k]);
        AudioKeepsPending(cfg, s, es[k].now, Frame(rms, backlogs, backlog, mode));
        AudioStep(cfg, s, es[k]);
      } else {
        OthersKeepPending(cfg, s, es[k]);
      }
    }
  }

  lemma AudioStep(cfg: Config, s: State, e: Event)
    requires cfg.sampleRate > 0 && e.input.AudioFrame?
    ensures Step(cfg, s, e) == OnAudio(cfg, s, e.now, e.input.rms, e.input.backlogs, e.input.backlog, e.input.mode)
  {
  }

  // ----- when nothing gives the turn back -----

  /** The response is over and nothing is left to play, but the AI still has the turn. */
  predicate Waiting(s: State) {
    s.turn == Turn(false, true) && s.audio.active == []
  }

  /** How one gets there: the end of the response comes when nothing is playing. */
  lemma EndOfResponseKeepsTurn(cfg: Config, s: State, now: real)
    requires cfg.sampleRate > 0 && s.turn.ai
    ensures Waiting(Step(cfg, s, Event(now, EndOfResponseMessage))) <==> s.audio.active == []
  {
  }

  predicate Interrupts(o: Out) { o.BargeIn? || o.Closed? }

  /**
   And how one gets out, as long as the server sends no more audio and no old source reports its
   end: only by a barge_in or by closing the socket.
   */
  lemma {:induction false} WaitsForInterruption(cfg: Config, es: seq<Event>, more: seq<Event>)
    requires cfg.sampleRate > 0 && Waiting(Run(cfg, es))
    requires forall k :: 0 <= k < |more| ==> !more[k].input.AudioChunk? && !more[k].input.SourceEnded?
    ensures var before, after := Run(cfg, es), Run(cfg, es + more);
      || (Waiting(after) && !after.voice.speaking)
      || exists k :: |before.log| <= k < |after.log| && Interrupts(after.log[k])
    ensures Run(cfg, es).log <= Run(cfg, es + more).log
  {
    hide Step, TurnInv;
    if more == [] {
      assert es + more == es;
      RunKeepsTurns(cfg, es);
      NotSpeaking(Run(cfg, es));
    } else {
      var n := |more| - 1;
      WaitsForInterruption(cfg, es, more[..n]);
      assert (es + more)[..|es| + n] == es + more[..n];
      var s := Run(cfg, es + more[..n]);
      LogOnlyGrows(cfg, s, more[n]);
      var t := Run(cfg, es + more);
      assert t == Step(cfg, s, more[n]);
      if Waiting(s) && !s.voice.speaking {
        WaitsOneStep(cfg, s, more[n]);
      } else {
        var k :| |Run(cfg, es).log| <= k < |s.log| && Interrupts(s.log[k]);
        assert t.log[k] == s.log[k];
      }
    }
  }

  lemma NotSpeaking(s: State)
    requires TurnInv(s) && s.turn.ai
    ensures !s.voice.speaking
  {
  }

  lemma LogOnlyGrows(cfg: Config, s: State, e: Event)
    requires cfg.sampleRate > 0
    ensures s.log <= Step(cfg, s, e).log
  {
  }

  lemma WaitsOneStep(cfg: Config, s: State, e: Event)
    requires cfg.sampleRate > 0 && Waiting(s) && !s.voice.speaking
    requires !e.input.AudioChunk? && !e.input.SourceEnded?
    ensures var t := Step(cfg, s, e);
      || (Waiting(t) && !t.voice.speaking)
      || exists k :: |s.log| <= k < |t.log| && Interrupts(t.log[k])
  {
    var t := Step(cfg, s, e);
    if e.input.AudioFrame? && s.open && Activates(cfg, s.voice, e.input.rms > cfg.vadThreshold) {
      assert t.log[|s.log| + 1] == BargeIn;
    }
    if e.input.SocketClosed? {
      assert t.log[|s.log|] == Closed;
    }
  }

  // ----- both ways of getting there happen -----

  const QUIET := Event(0.0, AudioFrame(0.0, [], 0, General))

  const SPOKEN := Speech(1) + [QUIET]

  lemma RunOne(cfg: Config, es: seq<Event>, e: Event)
    requires cfg.sampleRate > 0 && Legal(cfg, es) && Clock(es) <= e.now && Fires(Run(cfg, es), e)
    ensures Run(cfg, es + [e]) == Step(cfg, Run(cfg, es), e)
    ensures Legal(cfg, es + [e]) && Clock(es + [e]) == e.now
  {
    assert (es + [e])[..|es|] == es;
  }

  /** The user has spoken, and it is the AI's turn. */
  lemma AiHasTurn()
    ensures var s := Run(EAGER, SPOKEN);
      && s.open && s.turn == Turn(true, true) && !s.voice.speaking && s.audio == INIT.audio
      && Legal(EAGER, SPOKEN) && Clock(SPOKEN) == 0.0
  {
    hide Step;
    var open := Event(0.0, SocketOpened);
    assert [] + [open] == [open] && [open] + [LOUD] == Speech(1);
    RunOne(EAGER, [], open);
    RunOne(EAGER, [open], LOUD);
    RunOne(EAGER, Speech(1), QUIET);
    UtteranceEnds();
  }

  lemma UtteranceEnds()
    ensures var s := Step(EAGER, Step(EAGER, Step(EAGER, INIT, Event(0.0, SocketOpened)), LOUD), QUIET);
      s.open && s.turn == Turn(true, true) && !s.voice.speaking && s.audio == INIT.audio
  {
    var a := Step(EAGER, INIT, Event(0.0, SocketOpened));
    var b := Step(EAGER, a, LOUD);
    assert b.voice.speaking && b.open && b.audio == INIT.audio && b.voice.quietRun == 0;
  }

  /** An answer of text only, after which the user's next word is sent as a barge_in. */
  lemma TextAnswerIsInterrupted() returns (es: seq<Event>)
    ensures Legal(EAGER, es) && Waiting(Run(EAGER, es)) && Run(EAGER, es).audio.plays == []
    ensures var t := Run(EAGER, es + [LOUD]); t.log != [] && BargeIn in t.log[|Run(EAGER, es).log|..]
  {
    hide Step, EAGER, SPOKEN;
    AiHasTurn();
    EagerConfig();
    var text, end := Event(0.0, TextMessage("a")), Event(0.0, EndOfResponseMessage);
    RunOne(EAGER, SPOKEN, text);
    RunOne(EAGER, SPOKEN + [text], end);
    TextThenEnd(EAGER, Run(EAGER, SPOKEN), text, end);
    es := SPOKEN + [text] + [end];
    RunOne(EAGER, es, LOUD);
    LoudBargesIn(Run(EAGER, es));
  }

  lemma EagerConfig()
    ensures EAGER.sampleRate > 0
  {
  }

  lemma TextThenEnd(cfg: Config, s: State, text: Event, end: Event)
    requires cfg.sampleRate > 0 && s.turn.ai && s.audio == INIT.audio && s.open && !s.voice.speaking
    requires text.input.TextMessage? && end.input.EndOfResponseMessage?
    ensures var t := Step(cfg, Step(cfg, s, text), end); Waiting(t) && t.audio == s.audio && t.open && !t.voice.speaking
  {
  }

  lemma LoudBargesIn(s: State)
    requires s.open && Waiting(s) && !s.voice.speaking
    ensures BargeIn in Step(EAGER, s, LOUD).log[|s.log|..]
  {
    assert Step(EAGER, s, LOUD).log[|s.log| + 1] == BargeIn;
  }

  /** An answer whose only chunk is over before the end of the response arrives. */
  lemma SoundAnswerKeepsTurn() returns (es: seq<Event>)
    ensures Legal(EAGER, es) && Waiting(Run(EAGER, es)) && |Run(EAGER, es).audio.plays| == 1
  {
    hide Step, EAGER, SPOKEN;
    AiHasTurn();
    EagerConfig();
    var s := Run(EAGER, SPOKEN);
    var chunk := Event(0.0, AudioChunk(2));
    RunOne(EAGER, SPOKEN, chunk);
    var t := Run(EAGER, SPOKEN + [chunk]);
    ChunkPlays(EAGER, s, chunk);
    var over := Event(t.audio.plays[0].End(), SourceEnded(0));
    RunOne(EAGER, SPOKEN + [chunk], over);
    var end := Event(over.now, EndOfResponseMessage);
    RunOne(EAGER, SPOKEN + [chunk] + [over], end);
    OverThenEnd(EAGER, t, over, end);
    es := SPOKEN + [chunk] + [over] + [end];
  }

  lemma ChunkPlays(cfg: Config, s: State, chunk: Event)
    requires cfg.sampleRate > 0 && s.turn == Turn(true, true) && !s.voice.speaking && s.audio == INIT.audio
    requires chunk == Event(0.0, AudioChunk(2))
    ensures var t := Step(cfg, s, chunk);
      t.turn == s.turn && t.audio.active == [0] && |t.audio.plays| == 1 && t.audio.plays[0].End() >= 0.0
  {
  }

  lemma OverThenEnd(cfg: Config, t: State, over: Event, end: Event)
    requires cfg.sampleRate > 0 && t.turn == Turn(true, true) && t.audio.active == [0] && |t.audio.plays| == 1
    requires over.input == SourceEnded(0) && end.input == EndOfResponseMessage
    ensures var u := Step(cfg, Step(cfg, t, over), end); Waiting(u) && |u.audio.plays| == 1
  {
    assert [0][1..] == [];
  }
}
