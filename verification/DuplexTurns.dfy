/**
 Whose turn it is: nothing the server sent for an abandoned turn is ever shown or scheduled,
 and the control messages to the server form the dialogue the server expects.
 */
module DuplexTurns {
  import opened Wrappers
  import opened DuplexModel

  predicate IsOutput(o: Out) { o.Scheduled? || o.TextShown? }

  predicate IsControl(o: Out) { o.EndOfUtterance? || o.BargeIn? }

  predicate GivesTurnBack(o: Out) { o.BargeIn? || o.Closed? || o.TurnEnded? }

  /** Whether the last turn-taking entry of the log handed the turn to the AI. */
  ghost predicate TurnOpen(log: seq<Out>) {
    log != [] &&
    var o := log[|log| - 1];
    o.EndOfUtterance? || (!GivesTurnBack(o) && TurnOpen(log[..|log| - 1]))
  }

  ghost predicate NoStaleOutput(log: seq<Out>) {
    forall i :: 0 <= i < |log| && IsOutput(log[i]) ==> TurnOpen(log[..i])
  }

  /** The control messages of the log, in order. */
  ghost function Controls(log: seq<Out>): seq<Out> {
    if log == [] then []
    else
      var o := log[|log| - 1];
      Controls(log[..|log| - 1]) + if IsControl(o) then [o] else []
  }

  /** The language (end_of_utterance barge_in?)*. */
  ghost predicate IsDialogue(cs: seq<Out>) {
    || cs == []
    || (cs[0].EndOfUtterance? && IsDialogue(cs[1..]))
    || (|cs| >= 2 && cs[0].EndOfUtterance? && cs[1].BargeIn? && IsDialogue(cs[2..]))
  }

  ghost predicate AwaitsReply(cs: seq<Out>) {
    cs != [] && cs[|cs| - 1].EndOfUtterance?
  }

  ghost predicate TurnInv(s: State) {
    && (s.turn.processing ==> s.turn.ai)
    && (s.audio.active != [] ==> s.turn.ai)
    && (s.turn.ai ==> !s.voice.speaking)
    && (TurnOpen(s.log) <==> s.turn.ai)
    && NoStaleOutput(s.log)
    && IsDialogue(Controls(s.log))
    && (s.turn.ai ==> AwaitsReply(Controls(s.log)))
  }

  lemma {:induction false} DialogueGrows(cs: seq<Out>, o: Out)
    requires IsDialogue(cs)
    requires o.EndOfUtterance? || (o.BargeIn? && AwaitsReply(cs))
    ensures IsDialogue(cs + [o])
  {
    var ds := cs + [o];
    if cs == [] {
      assert ds[1..] == [];
    } else if cs[0].EndOfUtterance? && IsDialogue(cs[1..]) {
      assert ds[1..] == cs[1..] + [o];
      if |cs| == 1 && o.BargeIn? {
        assert ds[2..] == [];
      } else {
        DialogueGrows(cs[1..], o);
      }
    } else {
      assert ds[2..] == cs[2..] + [o];
      DialogueGrows(cs[2..], o);
    }
  }

  /** How one more entry moves the log-side view. */
  lemma NextEntry(log: seq<Out>, o: Out)
    requires NoStaleOutput(log) && IsDialogue(Controls(log))
    requires TurnOpen(log) ==> AwaitsReply(Controls(log))
    requires IsOutput(o) || o.BargeIn? ==> TurnOpen(log)
    ensures NoStaleOutput(log + [o]) && IsDialogue(Controls(log + [o]))
    ensures TurnOpen(log + [o]) <==> o.EndOfUtterance? || (!GivesTurnBack(o) && TurnOpen(log))
    ensures TurnOpen(log + [o]) ==> AwaitsReply(Controls(log + [o]))
  {
    var more := log + [o];
    assert more[..|log|] == log;
    forall i | 0 <= i < |more| && IsOutput(more[i])
      ensures TurnOpen(more[..i])
    {
      if i < |log| {
        assert more[..i] == log[..i];
      }
    }
    if IsControl(o) {
      DialogueGrows(Controls(log), o);
    } else {
      assert Controls(more) == Controls(log);
    }
  }

  /** The log-side half of the invariant survives sending buffered frames. */
  lemma {:induction false} SendingFrames(log: seq<Out>, numbers: seq<nat>)
    requires NoStaleOutput(log) && IsDialogue(Controls(log))
    requires TurnOpen(log) ==> AwaitsReply(Controls(log))
    ensures var more := log + PreRollFrames(numbers);
      && NoStaleOutput(more) && IsDialogue(Controls(more)) && TurnOpen(more) == TurnOpen(log)
      && (TurnOpen(more) ==> AwaitsReply(Controls(more)))
  {
    if numbers == [] {
      assert log + PreRollFrames(numbers) == log;
    } else {
      var k := |numbers| - 1;
      SendingFrames(log, numbers[..k]);
      NextEntry(log + PreRollFrames(numbers[..k]), FrameSent(numbers[k], false));
      assert log + PreRollFrames(numbers) ==
             log + PreRollFrames(numbers[..k]) + [FrameSent(numbers[k], false)];
    }
  }

  lemma DetectVoiceKeepsTurns(cfg: Config, s: State, now: real, loud: bool, mode: Mode)
    requires TurnInv(s)
    ensures TurnInv(DetectVoice(cfg, s, now, loud, mode))
    ensures Activates(cfg, s.voice, loud) ==> !DetectVoice(cfg, s, now, loud, mode).turn.ai
  {
    hide TurnOpen, NoStaleOutput, IsDialogue, Controls, AwaitsReply;
    var voice := CountFrame(s.voice, loud);
    if Activates(cfg, s.voice, loud) {
      NextEntry(s.log, Activated(|voice.history|));
      if s.turn.ai {
        NextEntry(s.log + [Activated(|voice.history|)], BargeIn);
      }
    } else if Finishes(cfg, s.voice, loud) {
      NextEntry(s.log, EndOfUtterance(|voice.history|, s.frames.lastVoiceSeq, mode));
    }
  }

  lemma FlushKeepsTurns(cfg: Config, s: State, backlogs: seq<nat>)
    requires TurnInv(s)
    ensures TurnInv(FlushPreRoll(cfg, s, backlogs))
  {
    hide TurnOpen, NoStaleOutput, IsDialogue, Controls, AwaitsReply;
    SendingFrames(s.log, s.frames.preRoll[..FlushCount(cfg.maxBuffered, backlogs, 0, |s.frames.preRoll|)]);
  }

  lemma TransmitKeepsTurns(cfg: Config, s: State, rms: real, backlog: nat)
    requires TurnInv(s)
    ensures TurnInv(Transmit(cfg, s, rms, backlog))
  {
    hide TurnOpen, NoStaleOutput, IsDialogue, Controls, AwaitsReply;
    NextEntry(s.log, FrameSent(s.frames.nextSeq, true));
  }

  lemma AudioKeepsTurns(cfg: Config, s: State, now: real, rms: real,
                        backlogs: seq<nat>, backlog: nat, mode: Mode)
    requires TurnInv(s)
    ensures TurnInv(OnAudio(cfg, s, now, rms, backlogs, backlog, mode))
  {
    hide TurnOpen, NoStaleOutput, IsDialogue, Controls, AwaitsReply;
    var loud := rms > cfg.vadThreshold;
    var t := DetectVoice(cfg, s.(level := rms), now, loud, mode);
    DetectVoiceKeepsTurns(cfg, s.(level := rms), now, loud, mode);
    if Activates(cfg, s.voice, loud) {
      FlushKeepsTurns(cfg, t, backlogs);
      TransmitKeepsTurns(cfg, FlushPreRoll(cfg, t, backlogs), rms, backlog);
    } else {
      TransmitKeepsTurns(cfg, t, rms, backlog);
    }
  }

  lemma OutputKeepsTurns(cfg: Config, s: State, now: real, content: string, bytes: nat)
    requires cfg.sampleRate > 0
    requires TurnInv(s)
    ensures TurnInv(OnText(s, content)) && TurnInv(OnChunk(cfg, s, now, bytes))
  {
    hide TurnOpen, NoStaleOutput, IsDialogue, Controls, AwaitsReply;
    if s.turn.ai {
      NextEntry(s.log, Scheduled(|s.audio.plays|));
      if s.chat.firstToken || s.chat.bubble.None? {
        NextEntry(s.log, TextShown(s.chat.bubbles, content));
      } else {
        NextEntry(s.log, TextShown(s.chat.bubble.value, content));
      }
    }
  }

  lemma SignalKeepsTurns(s: State, now: real, source: nat)
    requires TurnInv(s)
    ensures TurnInv(OnClose(s, now)) && TurnInv(OnInterrupt(s, now))
    ensures TurnInv(OnEndOfResponse(s)) && TurnInv(OnEnded(s, source))
    ensures TurnInv(s.(open := true)) && TurnInv(s.(open := false))
  {
    hide TurnOpen, NoStaleOutput, IsDialogue, Controls, AwaitsReply;
    NextEntry(s.log, Closed);
    NextEntry(s.log, Interrupted);
    NextEntry(s.log, ResponseEnded);
    NextEntry(s.log, TurnEnded);
  }

  lemma {:induction false} StepKeepsTurns(cfg: Config, s: State, e: Event)
    requires cfg.sampleRate > 0
    requires TurnInv(s)
    ensures TurnInv(Step(cfg, s, e))
  {
    hide TurnInv;
    match e.input
    case AudioFrame(rms, backlogs, backlog, mode) => AudioKeepsTurns(cfg, s, e.now, rms, backlogs, backlog, mode);
    case TextMessage(content) => OutputKeepsTurns(cfg, s, e.now, content, 0);
    case AudioChunk(bytes) => OutputKeepsTurns(cfg, s, e.now, "", bytes);
    case SourceEnded(source) => SignalKeepsTurns(s, e.now, source);
    case _ => SignalKeepsTurns(s, e.now, 0);
  }

  lemma {:induction false} RunKeepsTurns(cfg: Config, es: seq<Event>)
    requires cfg.sampleRate > 0
    ensures TurnInv(Run(cfg, es))
  {
    if es == [] {
    } else {
      var k := |es| - 1;
      RunKeepsTurns(cfg, es[..k]);
      StepKeepsTurns(cfg, Run(cfg, es[..k]), es[k]);
    }
  }

  lemma {:induction false} TurnClosedUntilEndOfUtterance(log: seq<Out>, i: nat)
    requires i < |log| && GivesTurnBack(log[i]) && TurnOpen(log)
    ensures exists k :: i < k < |log| && log[k].EndOfUtterance?
  {
    var n := |log| - 1;
    if !log[n].EndOfUtterance? {
      TurnClosedUntilEndOfUtterance(log[..n], i);
      var k :| i < k < n && log[..n][k].EndOfUtterance?;
      assert log[k].EndOfUtterance?;
    }
  }

  /**
   After a barge-in, a close or the end of a turn, no text is shown and no chunk is scheduled
   until the client has sent its next end_of_utterance, in any interleaving of events.
   */
  lemma NothingStale(cfg: Config, es: seq<Event>, i: nat, j: nat)
    requires cfg.sampleRate > 0
    requires i < j < |Run(cfg, es).log|
    requires GivesTurnBack(Run(cfg, es).log[i]) && IsOutput(Run(cfg, es).log[j])
    ensures exists k :: i < k < j && Run(cfg, es).log[k].EndOfUtterance?
  {
    RunKeepsTurns(cfg, es);
    var log := Run(cfg, es).log;
    TurnClosedUntilEndOfUtterance(log[..j], i);
    var k :| i < k < j && log[..j][k].EndOfUtterance?;
    assert log[k].EndOfUtterance?;
  }

  /** The guard that rejects chunks while the user is speaking loudly never fires. */
  lemma LoudUserGuardIsDead(cfg: Config, es: seq<Event>, bytes: nat)
    requires cfg.sampleRate > 0
    ensures var s := Run(cfg, es); Rejects(s, bytes) <==> !s.turn.ai || bytes % 2 != 0 || bytes == 0
  {
    RunKeepsTurns(cfg, es);
  }
}
