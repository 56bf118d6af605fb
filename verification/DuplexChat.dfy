/**
 The transcript: every piece of text that arrives in the AI's turn is shown, as it is and in order,
 and two pieces share a message bubble iff they belong to the same stretch of one answer.
 */
module DuplexChat {
  import opened DuplexModel
  import opened DuplexTurns
  import opened DuplexPreRoll

  /** Entries after which the next token must open a new bubble. */
  predicate Separates(o: Out) {
    o.Activated? || o.EndOfUtterance? || o.BargeIn? || o.Closed? || o.Interrupted? || o.ResponseEnded?
  }

  ghost predicate NoSeparator(log: seq<Out>, i: int, j: int)
    requires 0 <= i && j <= |log|
  {
    forall k :: i <= k < j ==> !Separates(log[k])
  }

  predicate Extendable(c: Chat) { !c.firstToken && c.bubble.Some? }

  /** The last text went to bubble `b` and nothing has separated it from what comes next. */
  ghost predicate OpenBubble(log: seq<Out>, b: nat) {
    exists i :: 0 <= i < |log| && log[i].TextShown? && log[i].bubble == b && NoSeparator(log, i, |log|)
  }

  ghost predicate Unmixed(log: seq<Out>) {
    forall i, j :: 0 <= i < j < |log| && log[i].TextShown? && log[j].TextShown? && log[i].bubble == log[j].bubble ==>
      NoSeparator(log, i, j)
  }

  ghost predicate BubblesBelow(log: seq<Out>, n: nat) {
    forall i :: 0 <= i < |log| && log[i].TextShown? ==> log[i].bubble < n
  }

  ghost predicate ChatInv(s: State) {
    && Unmixed(s.log)
    && BubblesBelow(s.log, s.chat.bubbles)
    && (s.voice.speaking ==> !Extendable(s.chat))
    && (Extendable(s.chat) ==> OpenBubble(s.log, s.chat.bubble.value))
  }

  lemma OtherEntry(log: seq<Out>, o: Out)
    requires Unmixed(log) && !o.TextShown?
    ensures Unmixed(log + [o])
    ensures forall n :: BubblesBelow(log, n) ==> BubblesBelow(log + [o], n)
    ensures !Separates(o) ==> forall b :: OpenBubble(log, b) ==> OpenBubble(log + [o], b)
  {
    var more := log + [o];
    forall i, j | 0 <= i < j < |more| && more[i].TextShown? && more[j].TextShown? && more[i].bubble == more[j].bubble
      ensures NoSeparator(more, i, j)
    {
      assert NoSeparator(log, i, j);
    }
    if !Separates(o) {
      forall b | OpenBubble(log, b)
        ensures OpenBubble(more, b)
      {
        var i :| 0 <= i < |log| && log[i].TextShown? && log[i].bubble == b && NoSeparator(log, i, |log|);
        assert more[i] == log[i] && NoSeparator(more, i, |more|);
      }
    }
  }

  lemma SameBubble(log: seq<Out>, i: int, b: nat)
    requires Unmixed(log) && OpenBubble(log, b)
    requires 0 <= i < |log| && log[i].TextShown? && log[i].bubble == b
    ensures NoSeparator(log, i, |log|)
  {
    var p :| 0 <= p < |log| && log[p].TextShown? && log[p].bubble == b && NoSeparator(log, p, |log|);
    if i < p {
      assert NoSeparator(log, i, p);
    }
  }

  lemma TextEntry(log: seq<Out>, b: nat, content: string, n: nat)
    requires Unmixed(log) && BubblesBelow(log, n)
    requires b == n || (b < n && OpenBubble(log, b))
    ensures var more := log + [TextShown(b, content)];
      && Unmixed(more) && OpenBubble(more, b)
      && BubblesBelow(more, if b == n then n + 1 else n)
  {
    var more := log + [TextShown(b, content)];
    forall i, j | 0 <= i < j < |more| && more[i].TextShown? && more[j].TextShown? && more[i].bubble == more[j].bubble
      ensures NoSeparator(more, i, j)
    {
      if j < |log| {
        assert NoSeparator(log, i, j);
      } else {
        SameBubble(log, i, b);
      }
    }
    assert more[|log|].TextShown? && NoSeparator(more, |log|, |more|);
  }

  lemma {:induction false} ShowingNoText(log: seq<Out>, numbers: seq<nat>, n: nat)
    requires Unmixed(log) && BubblesBelow(log, n)
    ensures Unmixed(log + PreRollFrames(numbers)) && BubblesBelow(log + PreRollFrames(numbers), n)
  {
    hide Unmixed, BubblesBelow;
    if numbers == [] {
      assert log + PreRollFrames(numbers) == log;
    } else {
      var k := |numbers| - 1;
      ShowingNoText(log, numbers[..k], n);
      OtherEntry(log + PreRollFrames(numbers[..k]), FrameSent(numbers[k], false));
      assert log + PreRollFrames(numbers) ==
             log + PreRollFrames(numbers[..k]) + [FrameSent(numbers[k], false)];
    }
  }

  lemma DetectVoiceKeepsChat(cfg: Config, s: State, now: real, loud: bool, mode: Mode)
    requires ChatInv(s)
    ensures ChatInv(DetectVoice(cfg, s, now, loud, mode))
    ensures Activates(cfg, s.voice, loud) ==> !Extendable(DetectVoice(cfg, s, now, loud, mode).chat)
  {
    hide Unmixed, BubblesBelow, OpenBubble;
    var voice := CountFrame(s.voice, loud);
    if Activates(cfg, s.voice, loud) {
      var o := Activated(|voice.history|);
      OtherEntry(s.log, o);
      OtherEntry(s.log + [o], BargeIn);
    } else if Finishes(cfg, s.voice, loud) {
      OtherEntry(s.log, EndOfUtterance(|voice.history|, s.frames.lastVoiceSeq, mode));
    }
  }

  lemma AudioKeepsChat(cfg: Config, s: State, now: real, rms: real,
                       backlogs: seq<nat>, backlog: nat, mode: Mode)
    requires ChatInv(s)
    ensures ChatInv(OnAudio(cfg, s, now, rms, backlogs, backlog, mode))
  {
    hide Unmixed, BubblesBelow, OpenBubble;
    var loud := rms > cfg.vadThreshold;
    var t := DetectVoice(cfg, s.(level := rms), now, loud, mode);
    DetectVoiceKeepsChat(cfg, s.(level := rms), now, loud, mode);
    var u := if Activates(cfg, s.voice, loud) then FlushPreRoll(cfg, t, backlogs) else t;
    if Activates(cfg, s.voice, loud) {
      var c := FlushCount(cfg.maxBuffered, backlogs, 0, |t.frames.preRoll|);
      ShowingNoText(t.log, t.frames.preRoll[..c], t.chat.bubbles);
    }
    OtherEntry(u.log, FrameSent(u.frames.nextSeq, true));
  }

  lemma TextKeepsChat(s: State, content: string)
    requires ChatInv(s)
    requires s.turn.ai ==> !s.voice.speaking
    ensures ChatInv(OnText(s, content))
  {
    if Extendable(s.chat) {
      var b := s.chat.bubble.value;
      var i :| 0 <= i < |s.log| && s.log[i].TextShown? && s.log[i].bubble == b && NoSeparator(s.log, i, |s.log|);
      TextEntry(s.log, b, content, s.chat.bubbles);
    } else {
      TextEntry(s.log, s.chat.bubbles, content, s.chat.bubbles);
    }
  }

  lemma OthersKeepChat(cfg: Config, s: State, e: Event)
    requires cfg.sampleRate > 0
    requires ChatInv(s) && !e.input.AudioFrame? && !e.input.TextMessage?
    ensures ChatInv(Step(cfg, s, e))
  {
    hide Unmixed, BubblesBelow, OpenBubble;
    OtherEntry(s.log, Closed);
    OtherEntry(s.log, Interrupted);
    OtherEntry(s.log, ResponseEnded);
    OtherEntry(s.log, TurnEnded);
    OtherEntry(s.log, Scheduled(|s.audio.plays|));
  }

  lemma {:induction false} RunKeepsChat(cfg: Config, es: seq<Event>)
    requires cfg.sampleRate > 0
    ensures ChatInv(Run(cfg, es))
  {
    if es == [] {
    } else {
      hide ChatInv;
      var k := |es| - 1;
      var s := Run(cfg, es[..k]);
      RunKeepsChat(cfg, es[..k]);
      if es[k].input.AudioFrame? {
        var AudioFrame(rms, backlogs, backlog, mode) := es[k].input;
        AudioKeepsChat(cfg, s, es[k].now, rms, backlogs, backlog, mode);
      } else if es[k].input.TextMessage? {
        RunKeepsTurns(cfg, es[..k]);
        TextKeepsChat(s, es[k].input.content);
      } else {
        OthersKeepChat(cfg, s, es[k]);
      }
    }
  }

  /**
   Two pieces of text end up in the same bubble only if, in between, the user did not start or
   finish speaking, nobody interrupted, the answer did not end and the socket stayed open.
   */
  lemma OneAnswerPerBubble(cfg: Config, es: seq<Event>, i: nat, j: nat, k: nat)
    requires cfg.sampleRate > 0
    requires i < k < j < |Run(cfg, es).log|
    requires Run(cfg, es).log[i].TextShown? && Run(cfg, es).log[j].TextShown?
    requires Separates(Run(cfg, es).log[k])
    ensures Run(cfg, es).log[i].bubble != Run(cfg, es).log[j].bubble
  {
    RunKeepsChat(cfg, es);
    UnmixedAt(Run(cfg, es).log, i, j, k);
  }

  lemma UnmixedAt(log: seq<Out>, i: nat, j: nat, k: nat)
    requires Unmixed(log) && i < k < j < |log|
    requires log[i].TextShown? && log[j].TextShown? && Separates(log[k])
    ensures log[i].bubble != log[j].bubble
  {
    assert log[i].bubble == log[j].bubble ==> NoSeparator(log, i, j);
  }

  // ----- and text that belongs together stays together -----

  ghost predicate Together(log: seq<Out>) {
    forall i, j :: 0 <= i < j < |log| && log[i].TextShown? && log[j].TextShown? && NoSeparator(log, i, j) ==>
      log[i].bubble == log[j].bubble
  }

  /** Text that nothing has separated from what comes next is in the bubble to be extended. */
  ghost predicate Continues(log: seq<Out>, c: Chat) {
    forall i :: 0 <= i < |log| && log[i].TextShown? && NoSeparator(log, i, |log|) ==>
      Extendable(c) && c.bubble.value == log[i].bubble
  }

  /** `more` was logged, no text among it, and the open bubble changed only if `more` separates. */
  ghost predicate AddsNoText(s: State, t: State) {
    && s.log <= t.log
    && (forall i :: |s.log| <= i < |t.log| ==> !t.log[i].TextShown?)
    && (t.chat == s.chat || exists i :: |s.log| <= i < |t.log| && Separates(t.log[i]))
  }

  lemma NoTextKeepsTogether(s: State, t: State)
    requires Together(s.log) && Continues(s.log, s.chat) && AddsNoText(s, t)
    ensures Together(t.log) && Continues(t.log, t.chat)
  {
    forall i | 0 <= i < |s.log| && NoSeparator(t.log, i, |t.log|) ensures NoSeparator(s.log, i, |s.log|) {
      forall k | i <= k < |s.log| ensures !Separates(s.log[k]) { assert t.log[k] == s.log[k]; }
    }
    forall i, j | 0 <= i < j < |t.log| && t.log[i].TextShown? && t.log[j].TextShown? && NoSeparator(t.log, i, j)
      ensures t.log[i].bubble == t.log[j].bubble
    {
      forall k | i <= k < j ensures !Separates(s.log[k]) { assert t.log[k] == s.log[k]; }
      assert NoSeparator(s.log, i, j);
    }
  }

  lemma NonTextAdds(cfg: Config, s: State, e: Event)
    requires cfg.sampleRate > 0 && !e.input.TextMessage? && !e.input.AudioFrame?
    ensures AddsNoText(s, Step(cfg, s, e))
  {
    hide StopAllPlayback, Schedule, Without;
    var t := Step(cfg, s, e);
    assert t.chat != s.chat ==> |t.log| == |s.log| + 1 && Separates(t.log[|s.log|]);
  }

  lemma AudioAdds(cfg: Config, s: State, now: real, f: Frame)
    ensures AddsNoText(s, OnAudio(cfg, s, now, f.rms, f.backlogs, f.backlog, f.mode))
  {
    hide FlushCount, KeepForPreRoll, StopAllPlayback, CountFrame, PreRollFrames;
    var t := OnAudio(cfg, s, now, f.rms, f.backlogs, f.backlog, f.mode);
    if s.open && Activates(cfg, s.voice, f.rms > cfg.vadThreshold) {
      ActivationAdds(cfg, s, now, f);
      assert t.log[|s.log|].Activated?;
    } else if s.open && Finishes(cfg, s.voice, f.rms > cfg.vadThreshold) {
      EndAdds(cfg, s, now, f);
    } else if s.open {
      OtherAdds(cfg, s, now, f);
    }
  }

  lemma TextKeepsTogether(s: State, content: string)
    requires Together(s.log) && Continues(s.log, s.chat)
    ensures var t := OnText(s, content); Together(t.log) && Continues(t.log, t.chat)
  {
    var t := OnText(s, content);
    if t.log != s.log {
      var n := |s.log|;
      forall i, j | 0 <= i < j < |t.log| && t.log[i].TextShown? && t.log[j].TextShown? && NoSeparator(t.log, i, j)
        ensures t.log[i].bubble == t.log[j].bubble
      {
        forall k | i <= k < j ensures !Separates(s.log[k]) { assert t.log[k] == s.log[k]; }
        assert NoSeparator(s.log, i, j);
      }
      forall i | 0 <= i < |t.log| && t.log[i].TextShown? && NoSeparator(t.log, i, |t.log|)
        ensures Extendable(t.chat) && t.chat.bubble.value == t.log[i].bubble
      {
        if i < n {
          forall k | i <= k < n ensures !Separates(s.log[k]) { assert t.log[k] == s.log[k]; }
          assert NoSeparator(s.log, i, n);
        }
      }
    }
  }

  lemma {:induction false} RunKeepsTogether(cfg: Config, es: seq<Event>)
    requires cfg.sampleRate > 0
    ensures Together(Run(cfg, es).log) && Continues(Run(cfg, es).log, Run(cfg, es).chat)
  {
    if es == [] {
    } else {
      hide Together, Continues, AddsNoText, OnAudio, OnText;
      var k := |es| - 1;
      var s := Run(cfg, es[..k]);
      RunKeepsTogether(cfg, es[..k]);
      if es[k].input.TextMessage? {
        TextKeepsTogether(s, es[k].input.content);
      } else {
        NoTextAdded(cfg, s, es[k]);
        NoTextKeepsTogether(s, Step(cfg, s, es[k]));
      }
    }
  }

  lemma NoTextAdded(cfg: Config, s: State, e: Event)
    requires cfg.sampleRate > 0 && !e.input.TextMessage?
    ensures AddsNoText(s, Step(cfg, s, e))
  {
    hide AddsNoText, OnAudio;
    if e.input.AudioFrame? {
      AudioAdds(cfg, s, e.now, Frame(e.input.rms, e.input.backlogs, e.input.backlog, e.input.mode));
    } else {
      NonTextAdds(cfg, s, e);
    }
  }

  /** Exactly: two pieces of text share a bubble iff nothing between them separates them. */
  lemma SameBubbleIff(cfg: Config, es: seq<Event>, i: nat, j: nat)
    requires cfg.sampleRate > 0 && i < j < |Run(cfg, es).log|
    requires Run(cfg, es).log[i].TextShown? && Run(cfg, es).log[j].TextShown?
    ensures Run(cfg, es).log[i].bubble == Run(cfg, es).log[j].bubble <==> NoSeparator(Run(cfg, es).log, i, j)
  {
    RunKeepsChat(cfg, es);
    RunKeepsTogether(cfg, es);
  }

  // ----- what is shown -----

  function Texts(log: seq<Out>): seq<string> {
    if log == [] then []
    else
      var o := log[|log| - 1];
      Texts(log[..|log| - 1]) + if o.TextShown? then [o.content] else []
  }

  /** The non-empty texts that arrived in the AI's turn. */
  function Answers(cfg: Config, es: seq<Event>): seq<string>
    requires cfg.sampleRate > 0
  {
    if es == [] then []
    else
      var k := |es| - 1;
      Answers(cfg, es[..k]) +
      match es[k].input
      case TextMessage(content) => if content != "" && Run(cfg, es[..k]).turn.ai then [content] else []
      case _ => []
  }

  lemma {:induction false} NoMoreTexts(log: seq<Out>, more: seq<Out>)
    requires log <= more && forall i :: |log| <= i < |more| ==> !more[i].TextShown?
    ensures Texts(more) == Texts(log)
    decreases |more|
  {
    if |more| == |log| {
      assert more == log;
    } else {
      NoMoreTexts(log, more[..|more| - 1]);
    }
  }

  /** Over a run, exactly the texts of the AI's turns are shown, each as it arrived, in order. */
  lemma {:induction false} ShownAsReceived(cfg: Config, es: seq<Event>)
    requires cfg.sampleRate > 0
    ensures Texts(Run(cfg, es).log) == Answers(cfg, es)
  {
    if es == [] {
    } else {
      hide OnAudio, OnChunk, OnEnded, OnClose, OnInterrupt, OnEndOfResponse;
      var k := |es| - 1;
      var s := Run(cfg, es[..k]);
      ShownAsReceived(cfg, es[..k]);
      if es[k].input.TextMessage? {
        TextIsShown(s, es[k].input.content);
      } else {
        NoTextAdded(cfg, s, es[k]);
        NoMoreTexts(s.log, Step(cfg, s, es[k]).log);
      }
    }
  }

  lemma TextIsShown(s: State, content: string)
    ensures Texts(OnText(s, content).log) == Texts(s.log) + if content != "" && s.turn.ai then [content] else []
  {
    var t := OnText(s, content);
    assert t.log != s.log ==> t.log[..|s.log|] == s.log;
  }
}
