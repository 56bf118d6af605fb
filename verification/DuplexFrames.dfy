/**
 Outgoing frames: numbers only grow, although frames are buffered before speech, flushed under
 backpressure and thrown away at the end of an utterance; and the end_of_utterance message
 names the last live frame.
 */
module DuplexFrames {
  import opened Wrappers
  import opened DuplexModel

  ghost predicate Increasing(q: seq<nat>) {
    forall i, j :: 0 <= i < j < |q| ==> q[i] < q[j]
  }

  /** Every frame sent so far has a number below `n`. */
  ghost predicate SentBelow(log: seq<Out>, n: nat) {
    forall i :: 0 <= i < |log| && log[i].FrameSent? ==> log[i].number < n
  }

  ghost predicate SentInOrder(log: seq<Out>) {
    forall i, j :: 0 <= i < j < |log| && log[i].FrameSent? && log[j].FrameSent? ==>
      log[i].number < log[j].number
  }

  /** The last live frame since the user last started to speak. */
  ghost function LastLive(log: seq<Out>): Option<nat> {
    if log == [] then None
    else
      var o := log[|log| - 1];
      if o.Activated? then None
      else if o.FrameSent? && o.live then Some(o.number)
      else LastLive(log[..|log| - 1])
  }

  /** An end_of_utterance names the last live frame, and no frame sent so far has a larger number. */
  ghost predicate NamesLastFrame(before: seq<Out>, last: Option<nat>) {
    && last == LastLive(before)
    && (last.Some? ==> SentBelow(before, last.value + 1))
  }

  ghost predicate EndsNameLastFrame(log: seq<Out>) {
    forall i :: 0 <= i < |log| && log[i].EndOfUtterance? ==> NamesLastFrame(log[..i], log[i].last)
  }

  ghost predicate BufferInv(cfg: Config, f: Frames) {
    && Increasing(f.preRoll)
    && (forall i :: 0 <= i < |f.preRoll| ==> f.preRoll[i] < f.nextSeq)
    && |f.preRoll| <= cfg.preRollLimit
  }

  ghost predicate FrameInv(cfg: Config, s: State) {
    && BufferInv(cfg, s.frames)
    && SentInOrder(s.log) && SentBelow(s.log, s.frames.nextSeq)
    && (!s.voice.speaking ==> forall i :: 0 <= i < |s.frames.preRoll| ==> SentBelow(s.log, s.frames.preRoll[i]))
    && NamesLastFrame(s.log, s.frames.lastVoiceSeq)
    && EndsNameLastFrame(s.log)
  }

  lemma SendOne(log: seq<Out>, n: nat, live: bool)
    requires SentInOrder(log) && SentBelow(log, n) && EndsNameLastFrame(log)
    ensures var more := log + [FrameSent(n, live)];
      && SentInOrder(more) && SentBelow(more, n + 1) && EndsNameLastFrame(more)
      && LastLive(more) == if live then Some(n) else LastLive(log)
  {
    var more := log + [FrameSent(n, live)];
    forall i | 0 <= i < |more| && more[i].EndOfUtterance?
      ensures NamesLastFrame(more[..i], more[i].last)
    {
      assert more[..i] == log[..i];
    }
  }

  /** Entries that are not frames and do not start speech; an end_of_utterance must carry the right number. */
  lemma OtherEntry(log: seq<Out>, o: Out)
    requires !o.FrameSent?
    requires SentInOrder(log) && EndsNameLastFrame(log)
    requires o.EndOfUtterance? ==> NamesLastFrame(log, o.last)
    ensures SentInOrder(log + [o]) && EndsNameLastFrame(log + [o])
    ensures forall n :: SentBelow(log, n) ==> SentBelow(log + [o], n)
    ensures LastLive(log + [o]) == if o.Activated? then None else LastLive(log)
  {
    var more := log + [o];
    forall i | 0 <= i < |more| && more[i].EndOfUtterance?
      ensures NamesLastFrame(more[..i], more[i].last)
    {
      assert more[..i] == if i < |log| then log[..i] else log;
    }
  }

  lemma {:induction false} SendMany(log: seq<Out>, numbers: seq<nat>)
    requires SentInOrder(log) && EndsNameLastFrame(log) && LastLive(log) == None
    requires Increasing(numbers)
    requires numbers != [] ==> SentBelow(log, numbers[0])
    ensures var more := log + PreRollFrames(numbers);
      && SentInOrder(more) && EndsNameLastFrame(more) && LastLive(more) == None
      && (numbers != [] ==> SentBelow(more, numbers[|numbers| - 1] + 1))
  {
    hide SentInOrder, EndsNameLastFrame, LastLive;
    if numbers == [] {
      assert log + PreRollFrames(numbers) == log;
    } else {
      var k := |numbers| - 1;
      var sent := log + PreRollFrames(numbers[..k]);
      SendMany(log, numbers[..k]);
      assert SentBelow(sent, numbers[k]) by {
        if k == 0 { assert sent == log; } else { assert numbers[k - 1] < numbers[k]; }
      }
      SendOne(sent, numbers[k], false);
      assert log + PreRollFrames(numbers) == sent + [FrameSent(numbers[k], false)];
    }
  }

  lemma DetectVoiceKeepsFrames(cfg: Config, s: State, now: real, loud: bool, mode: Mode)
    requires FrameInv(cfg, s)
    ensures var t := DetectVoice(cfg, s, now, loud, mode);
      if Activates(cfg, s.voice, loud) then FrameInv(cfg, t.(voice := s.voice)) && LastLive(t.log) == None
      else FrameInv(cfg, t)
  {
    var voice := CountFrame(s.voice, loud);
    if Activates(cfg, s.voice, loud) {
      var o := Activated(|voice.history|);
      OtherEntry(s.log, o);
      OtherEntry(s.log + [o], BargeIn);
    } else if Finishes(cfg, s.voice, loud) {
      OtherEntry(s.log, EndOfUtterance(|voice.history|, s.frames.lastVoiceSeq, mode));
    }
  }

  lemma FlushKeepsFrames(cfg: Config, s: State, voice: Voice, backlogs: seq<nat>)
    requires FrameInv(cfg, s) && !s.voice.speaking && voice.speaking && LastLive(s.log) == None
    ensures FrameInv(cfg, FlushPreRoll(cfg, s.(voice := voice), backlogs))
  {
    var q := s.frames.preRoll;
    var c := FlushCount(cfg.maxBuffered, backlogs, 0, |q|);
    SendMany(s.log, q[..c]);
    if c == 0 { assert s.log + PreRollFrames(q[..c]) == s.log; }
  }

  lemma TransmitKeepsFrames(cfg: Config, s: State, rms: real, backlog: nat)
    requires FrameInv(cfg, s)
    ensures FrameInv(cfg, Transmit(cfg, s, rms, backlog))
  {
    hide SentInOrder, EndsNameLastFrame, LastLive;
    SendOne(s.log, s.frames.nextSeq, true);
  }

  lemma AudioKeepsFrames(cfg: Config, s: State, now: real, rms: real,
                         backlogs: seq<nat>, backlog: nat, mode: Mode)
    requires FrameInv(cfg, s)
    ensures FrameInv(cfg, OnAudio(cfg, s, now, rms, backlogs, backlog, mode))
  {
    var loud := rms > cfg.vadThreshold;
    var t := DetectVoice(cfg, s.(level := rms), now, loud, mode);
    DetectVoiceKeepsFrames(cfg, s.(level := rms), now, loud, mode);
    if Activates(cfg, s.voice, loud) {
      FlushKeepsFrames(cfg, t.(voice := s.voice), t.voice, backlogs);
      assert t.(voice := s.voice).(voice := t.voice) == t;
      TransmitKeepsFrames(cfg, FlushPreRoll(cfg, t, backlogs), rms, backlog);
    } else {
      TransmitKeepsFrames(cfg, t, rms, backlog);
    }
  }

  lemma {:induction false} StepKeepsFrames(cfg: Config, s: State, e: Event)
    requires cfg.sampleRate > 0
    requires FrameInv(cfg, s)
    ensures FrameInv(cfg, Step(cfg, s, e))
  {
    if e.input.AudioFrame? {
      AudioKeepsFrames(cfg, s, e.now, e.input.rms, e.input.backlogs, e.input.backlog, e.input.mode);
    } else {
      var t := Step(cfg, s, e);
      NonAudioStep(cfg, s, e);
      if t.log != s.log {
        OtherEntry(s.log, t.log[|s.log|]);
      }
    }
  }

  lemma {:induction false} RunKeepsFrames(cfg: Config, es: seq<Event>)
    requires cfg.sampleRate > 0
    ensures FrameInv(cfg, Run(cfg, es))
  {
    if es == [] {
    } else {
      var k := |es| - 1;
      RunKeepsFrames(cfg, es[..k]);
      StepKeepsFrames(cfg, Run(cfg, es[..k]), es[k]);
    }
  }

  /** The 32-bit number in a frame's header. */
  function Header(number: nat): (h: nat)
    ensures h == number <==> number < 0x1_0000_0000
  {
    number % 0x1_0000_0000
  }

  // ----- headers wrap -----

  const WRAP: nat := 0x1_0000_0000

  ghost predicate HeadersIncrease(log: seq<Out>) {
    forall i, j :: 0 <= i < j < |log| && log[i].FrameSent? && log[j].FrameSent? ==>
      Header(log[i].number) < Header(log[j].number)
  }

  /** Headers increase as long as no more than 2^32 frames have been captured. */
  lemma HeadersInOrder(cfg: Config, es: seq<Event>)
    requires cfg.sampleRate > 0 && Run(cfg, es).frames.nextSeq <= WRAP
    ensures HeadersIncrease(Run(cfg, es).log)
  {
    RunKeepsFrames(cfg, es);
    var s := Run(cfg, es);
    forall i, j | 0 <= i < j < |s.log| && s.log[i].FrameSent? && s.log[j].FrameSent?
      ensures Header(s.log[i].number) < Header(s.log[j].number)
    {
      assert s.log[i].number < s.log[j].number < s.frames.nextSeq;
    }
  }

  /** A configuration in which the first loud frame activates the detector. */
  const EAGER := Config(0.1, 1, 1, 0, 1, 1)

  const LOUD := Event(0.0, AudioFrame(1.0, [], 0, General))

  /** The socket opens and the user speaks for `n` frames. */
  function Speech(n: nat): seq<Event> {
    [Event(0.0, SocketOpened)] + seq(n, _ => LOUD)
  }

  function LiveFrames(n: nat): seq<Out> { seq(n, i requires 0 <= i < n => FrameSent(i, true)) }

  ghost predicate AllSent(s: State, n: nat) {
    && s.open && !s.turn.ai && s.voice.speaking == (n > 0)
    && s.frames.preRoll == [] && s.frames.nextSeq == n
    && s.log == (if n == 0 then [] else [Activated(1)]) + LiveFrames(n)
    && (n == 0 ==> s.voice.history == [])
  }

  /** Every one of them is sent. */
  lemma {:induction false} SpeechIsSent(n: nat)
    ensures AllSent(Run(EAGER, Speech(n)), n)
  {
    hide Step, AllSent;
    var es := Speech(n);
    if n == 0 {
      assert es[..0] == [] && es[0] == Event(0.0, SocketOpened);
      SocketOpens();
    } else {
      SpeechIsSent(n - 1);
      assert es[..n] == Speech(n - 1) && es[n] == LOUD;
      NextFrameIsSent(Run(EAGER, Speech(n - 1)), n - 1);
    }
  }

  lemma SocketOpens()
    ensures AllSent(Step(EAGER, INIT, Event(0.0, SocketOpened)), 0)
  {
  }

  lemma NextFrameIsSent(s: State, n: nat)
    requires AllSent(s, n)
    ensures AllSent(Step(EAGER, s, LOUD), n + 1)
  {
    assert LiveFrames(n + 1) == LiveFrames(n) + [FrameSent(n, true)];
  }

  /** Every run that captures at most `n` frames sends increasing headers. */
  ghost predicate InOrderUpTo(n: nat) {
    forall cfg: Config, es: seq<Event> ::
      cfg.sampleRate > 0 && Run(cfg, es).frames.nextSeq <= n ==> HeadersIncrease(Run(cfg, es).log)
  }

  /** Exactly: 2^32 is the largest number of captured frames that keeps the headers of every run in order. */
  lemma HeadersInOrderIff(n: nat)
    ensures InOrderUpTo(n) <==> n <= WRAP
  {
    hide HeadersIncrease, Run;
    if n <= WRAP {
      forall cfg: Config, es: seq<Event> | cfg.sampleRate > 0 && Run(cfg, es).frames.nextSeq <= n
        ensures HeadersIncrease(Run(cfg, es).log)
      {
        HeadersInOrder(cfg, es);
      }
    } else {
      var cfg, es := EAGER, Speech(WRAP + 1);
      SpeechIsSent(WRAP + 1);
      HeadersWrap(Run(cfg, es).log);
    }
  }

  lemma HeadersWrap(log: seq<Out>)
    requires log == [Activated(1)] + LiveFrames(WRAP + 1)
    ensures !HeadersIncrease(log)
  {
    assert log[1] == FrameSent(0, true) && log[WRAP + 1] == FrameSent(WRAP, true);
    assert Header(0) == Header(WRAP) == 0;
  }
}
