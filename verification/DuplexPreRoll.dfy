/**
 Which frames reach the server: which are buffered before the user speaks, which of those are
 flushed when they do, and which are sent live, told from the events alone.
 */
module DuplexPreRoll {
  import opened DuplexModel
  import opened DuplexVad
  import opened DuplexFrames

  /** What the microphone delivered, and how full the socket was at each attempt to send. */
  datatype Frame = Frame(rms: real, backlogs: seq<nat>, backlog: nat, mode: Mode)

  /** The last thing that happened to the socket is that it opened. */
  predicate IsOpen(es: seq<Event>) {
    es != [] &&
    match es[|es| - 1].input
    case SocketOpened => true
    case SocketClosing => false
    case SocketClosed => false
    case _ => IsOpen(es[..|es| - 1])
  }

  /** The frames that came while the socket was open; frame `k` of them carries the number `k`. */
  function Captured(es: seq<Event>): seq<Frame> {
    if es == [] then []
    else
      var k := |es| - 1;
      Captured(es[..k]) +
      match es[k].input
      case AudioFrame(rms, backlogs, backlog, mode) =>
        if IsOpen(es[..k]) then [Frame(rms, backlogs, backlog, mode)] else []
      case _ => []
  }

  function Loudness(cfg: Config, fs: seq<Frame>): (h: seq<bool>)
    ensures |h| == |fs|
  {
    seq(|fs|, i requires 0 <= i < |fs| => fs[i].rms > cfg.vadThreshold)
  }

  /** The user is speaking after these frames. */
  ghost predicate Talking(cfg: Config, fs: seq<Frame>) {
    Speaking(cfg, Loudness(cfg, fs))
  }

  /** The frames above half the threshold since the user last spoke. */
  ghost function Audible(cfg: Config, fs: seq<Frame>): seq<nat> {
    if fs == [] || Talking(cfg, fs) then []
    else
      var n := |fs| - 1;
      Audible(cfg, fs[..n]) + if fs[n].rms > cfg.vadThreshold / 2.0 then [n] else []
  }

  function Latest(q: seq<nat>, n: nat): seq<nat> {
    if |q| <= n then q else q[|q| - n..]
  }

  /** What should be buffered while the user is silent: the latest of them. */
  ghost function Buffered(cfg: Config, fs: seq<Frame>): seq<nat> {
    Latest(Audible(cfg, fs), cfg.preRollLimit)
  }

  // ----- the client follows the events -----

  ghost predicate Tracks(cfg: Config, fs: seq<Frame>, s: State) {
    && s.frames.nextSeq == |fs| && s.voice.history == Loudness(cfg, fs)
    && (s.voice.speaking <==> Talking(cfg, fs))
    && (!s.voice.speaking ==> s.frames.preRoll == Buffered(cfg, fs))
  }

  lemma OpenAfter(cfg: Config, s: State, e: Event)
    requires cfg.sampleRate > 0
    ensures Step(cfg, s, e).open <==>
      e.input.SocketOpened? || (s.open && !e.input.SocketClosing? && !e.input.SocketClosed?)
  {
    hide FlushCount, KeepForPreRoll, StopAllPlayback, Schedule, CountFrame;
  }

  lemma KeepLatest(cfg: Config, q: seq<nat>, n: nat)
    ensures KeepForPreRoll(cfg, Latest(q, cfg.preRollLimit), n) == Latest(q + [n], cfg.preRollLimit)
  {
  }

  lemma NextLoudness(cfg: Config, fs: seq<Frame>, f: Frame)
    ensures Loudness(cfg, fs + [f]) == Loudness(cfg, fs) + [f.rms > cfg.vadThreshold]
    ensures (fs + [f])[..|fs|] == fs
  {
  }

  /** One captured frame. */
  lemma FrameIsFollowed(cfg: Config, s: State, now: real, fs: seq<Frame>, f: Frame)
    requires s.open && Tracks(cfg, fs, s)
    requires var t := OnAudio(cfg, s, now, f.rms, f.backlogs, f.backlog, f.mode);
      t.voice.speaking <==> Talking(cfg, fs + [f])
    ensures Tracks(cfg, fs + [f], OnAudio(cfg, s, now, f.rms, f.backlogs, f.backlog, f.mode))
  {
    hide Talking, Latest, KeepForPreRoll, FlushCount;
    NextLoudness(cfg, fs, f);
    if !Talking(cfg, fs + [f]) {
      KeepLatest(cfg, Audible(cfg, fs), |fs|);
      LatestOfNone(cfg);
      assert (fs + [f])[|fs|] == f && Audible(cfg, fs) + [] == Audible(cfg, fs);
      assert s.voice.speaking ==> Audible(cfg, fs) == [];
      assert Audible(cfg, fs + [f]) == Audible(cfg, fs) + if f.rms > cfg.vadThreshold / 2.0 then [|fs|] else [];
    }
  }

  lemma LatestOfNone(cfg: Config)
    ensures Latest([], cfg.preRollLimit) == []
  {
  }

  lemma {:induction false} RunFollows(cfg: Config, es: seq<Event>)
    requires cfg.sampleRate > 0
    ensures Run(cfg, es).open == IsOpen(es) && Tracks(cfg, Captured(es), Run(cfg, es))
  {
    hide Speaking, Step, LogAgrees, Buffered;
    RunKeepsVad(cfg, es);
    if es == [] {
      NothingBuffered(cfg);
    } else {
      var k := |es| - 1;
      var s := Run(cfg, es[..k]);
      RunFollows(cfg, es[..k]);
      OpenAfter(cfg, s, es[k]);
      if es[k].input.AudioFrame? {
        AudioFollows(cfg, es);
      } else {
        NonAudioStep(cfg, s, es[k]);
        assert Captured(es) == Captured(es[..k]) + [] == Captured(es[..k]);
      }
    }
  }

  lemma NothingBuffered(cfg: Config)
    ensures Tracks(cfg, [], INIT)
  {
    SilenceAtStart(cfg);
    assert Loudness(cfg, []) == [];
  }

  lemma AudioFollows(cfg: Config, es: seq<Event>)
    requires cfg.sampleRate > 0 && es != [] && es[|es| - 1].input.AudioFrame?
    requires VadInv(cfg, Run(cfg, es))
    requires var before := es[..|es| - 1];
      Run(cfg, before).open == IsOpen(before) && Tracks(cfg, Captured(before), Run(cfg, before))
    ensures Tracks(cfg, Captured(es), Run(cfg, es))
  {
    hide Speaking, LogAgrees, Buffered, Transmit, FlushPreRoll, Activate;
    var k := |es| - 1;
    var s, fs := Run(cfg, es[..k]), Captured(es[..k]);
    if s.open {
      var AudioFrame(rms, backlogs, backlog, mode) := es[k].input;
      var f := Frame(rms, backlogs, backlog, mode);
      var t := OnAudio(cfg, s, es[k].now, rms, backlogs, backlog, mode);
      NextLoudness(cfg, fs, f);
      HistoryGrows(cfg, s, es[k].now, f);
      FrameIsFollowed(cfg, s, es[k].now, fs, f);
    } else {
      assert Captured(es) == fs + [] == fs;
    }
  }

  lemma HistoryGrows(cfg: Config, s: State, now: real, f: Frame)
    requires s.open
    ensures OnAudio(cfg, s, now, f.rms, f.backlogs, f.backlog, f.mode).voice.history ==
      s.voice.history + [f.rms > cfg.vadThreshold]
  {
    hide FlushCount, KeepForPreRoll;
  }

  /**
   Whenever the user is silent, the buffer holds the last frames above half the threshold since
   they last spoke, oldest first and at most as many as the limit allows.
   */
  lemma BufferIsLatestAudible(cfg: Config, es: seq<Event>)
    requires cfg.sampleRate > 0 && !Talking(cfg, Captured(es))
    ensures Run(cfg, es).frames.preRoll == Buffered(cfg, Captured(es))
  {
    hide Buffered, Captured, Talking;
    RunFollows(cfg, es);
  }

  lemma {:induction false} AudibleIff(cfg: Config, fs: seq<Frame>, k: nat)
    ensures k in Audible(cfg, fs) <==>
      && k < |fs| && fs[k].rms > cfg.vadThreshold / 2.0
      && forall m :: k < m <= |fs| ==> !Talking(cfg, fs[..m])
    ensures Increasing(Audible(cfg, fs)) && forall i :: 0 <= i < |Audible(cfg, fs)| ==> Audible(cfg, fs)[i] < |fs|
  {
    hide Talking;
    if fs == [] {
    } else {
      var n := |fs| - 1;
      AudibleIff(cfg, fs[..n], k);
      assert fs[..|fs|] == fs;
      assert forall m :: 0 <= m <= n ==> fs[..n][..m] == fs[..m];
    }
  }

  // ----- what one frame puts on the socket -----

  /** The socket is not too full for buffered frame `j`. */
  predicate HasRoom(max: nat, backlogs: seq<nat>, j: nat) {
    j < |backlogs| ==> backlogs[j] <= max
  }

  /** `sent` is what comes before the first frame of `q` for which there is no room. */
  ghost predicate IsFlush(max: nat, backlogs: seq<nat>, q: seq<nat>, sent: seq<nat>) {
    && sent <= q
    && (forall j :: 0 <= j < |sent| ==> HasRoom(max, backlogs, j))
    && (sent != q ==> !HasRoom(max, backlogs, |sent|))
  }

  lemma {:induction false} CountIsFlush(max: nat, backlogs: seq<nat>, k: nat, n: nat)
    requires k <= n && forall j :: 0 <= j < k ==> HasRoom(max, backlogs, j)
    ensures var c := FlushCount(max, backlogs, k, n);
      (forall j :: 0 <= j < c ==> HasRoom(max, backlogs, j)) && (c < n ==> !HasRoom(max, backlogs, c))
    decreases n - k
  {
    if k < n && HasRoom(max, backlogs, k) {
      CountIsFlush(max, backlogs, k + 1, n);
    }
  }

  function FromBuffer(sent: seq<nat>): (r: seq<Out>)
    ensures |r| == |sent| && forall i :: 0 <= i < |r| ==> r[i] == FrameSent(sent[i], false)
  {
    seq(|sent|, i requires 0 <= i < |sent| => FrameSent(sent[i], false))
  }

  ghost predicate Starts(cfg: Config, fs: seq<Frame>, f: Frame) {
    !Talking(cfg, fs) && Talking(cfg, fs + [f])
  }

  ghost predicate Stops(cfg: Config, fs: seq<Frame>, f: Frame) {
    Talking(cfg, fs) && !Talking(cfg, fs + [f])
  }

  /**
   The log after frame `f`.  When it makes the user a speaker, they interrupt the AI if it has the
   turn, and what was buffered goes out first, as far as there is room.  When it ends their
   utterance, the server is told the last live frame and the mode.  While they speak it is sent.
   */
  ghost predicate Adds(cfg: Config, fs: seq<Frame>, f: Frame, s: State, sent: seq<nat>, log: seq<Out>) {
    var n := |fs|;
    && (Starts(cfg, fs, f) ==> IsFlush(cfg.maxBuffered, f.backlogs, Buffered(cfg, fs), sent))
    && log == s.log
        + (if Starts(cfg, fs, f) then
             [Activated(n + 1)] + (if s.turn.ai then [BargeIn] else []) + FromBuffer(sent)
           else if Stops(cfg, fs, f) then [EndOfUtterance(n + 1, LastLive(s.log), f.mode)]
           else [])
        + (if Talking(cfg, fs + [f]) && f.backlog < cfg.maxBuffered then [FrameSent(n, true)] else [])
  }

  lemma FrameAdds(cfg: Config, s: State, now: real, fs: seq<Frame>, f: Frame) returns (sent: seq<nat>)
    requires s.open && Tracks(cfg, fs, s) && s.frames.lastVoiceSeq == LastLive(s.log)
    requires var t := OnAudio(cfg, s, now, f.rms, f.backlogs, f.backlog, f.mode);
      t.voice.speaking <==> Talking(cfg, fs + [f])
    ensures Adds(cfg, fs, f, s, sent, OnAudio(cfg, s, now, f.rms, f.backlogs, f.backlog, f.mode).log)
  {
    hide Talking, Buffered, LastLive, OnAudio, FlushCount, CountFrame;
    var loud := f.rms > cfg.vadThreshold;
    var q := s.frames.preRoll;
    var c := FlushCount(cfg.maxBuffered, f.backlogs, 0, |q|);
    sent := q[..c];
    if Activates(cfg, s.voice, loud) {
      ActivationAdds(cfg, s, now, f);
      CountIsFlush(cfg.maxBuffered, f.backlogs, 0, |q|);
    } else if Finishes(cfg, s.voice, loud) {
      EndAdds(cfg, s, now, f);
    } else {
      OtherAdds(cfg, s, now, f);
    }
  }

  function Live(cfg: Config, n: nat, backlog: nat): seq<Out> {
    if backlog < cfg.maxBuffered then [FrameSent(n, true)] else []
  }

  lemma ActivationAdds(cfg: Config, s: State, now: real, f: Frame)
    requires s.open && Activates(cfg, s.voice, f.rms > cfg.vadThreshold)
    ensures var t, q := OnAudio(cfg, s, now, f.rms, f.backlogs, f.backlog, f.mode), s.frames.preRoll;
      var sent := q[..FlushCount(cfg.maxBuffered, f.backlogs, 0, |q|)];
      && t.voice.speaking
      && t.log == s.log
          + ([Activated(|s.voice.history| + 1)] + (if s.turn.ai then [BargeIn] else []) + FromBuffer(sent))
          + Live(cfg, s.frames.nextSeq, f.backlog)
  {
    hide KeepForPreRoll, FlushCount, StopAllPlayback;
    var q := s.frames.preRoll;
    var sent := q[..FlushCount(cfg.maxBuffered, f.backlogs, 0, |q|)];
    assert FromBuffer(sent) == PreRollFrames(sent);
  }

  lemma EndAdds(cfg: Config, s: State, now: real, f: Frame)
    requires s.open && Finishes(cfg, s.voice, f.rms > cfg.vadThreshold)
    ensures var t := OnAudio(cfg, s, now, f.rms, f.backlogs, f.backlog, f.mode);
      && !t.voice.speaking
      && t.log == s.log + [EndOfUtterance(|s.voice.history| + 1, s.frames.lastVoiceSeq, f.mode)] + []
  {
    hide KeepForPreRoll;
  }

  lemma OtherAdds(cfg: Config, s: State, now: real, f: Frame)
    requires s.open && !Activates(cfg, s.voice, f.rms > cfg.vadThreshold)
    requires !Finishes(cfg, s.voice, f.rms > cfg.vadThreshold)
    ensures var t := OnAudio(cfg, s, now, f.rms, f.backlogs, f.backlog, f.mode);
      && t.voice.speaking == s.voice.speaking
      && t.log == s.log + [] + if s.voice.speaking then Live(cfg, s.frames.nextSeq, f.backlog) else []
  {
    hide KeepForPreRoll;
  }

  /** What each microphone frame adds to the log of a run. */
  lemma NextFrameAdds(cfg: Config, es: seq<Event>, now: real, f: Frame) returns (sent: seq<nat>)
    requires cfg.sampleRate > 0
    ensures var more := es + [Event(now, AudioFrame(f.rms, f.backlogs, f.backlog, f.mode))];
      if IsOpen(es) then
        && Captured(more) == Captured(es) + [f]
        && Adds(cfg, Captured(es), f, Run(cfg, es), sent, Run(cfg, more).log)
      else
        Captured(more) == Captured(es) && Run(cfg, more).log == Run(cfg, es).log
  {
    hide Adds, Speaking, LogAgrees, Buffered, DetectVoice, Transmit, FlushPreRoll, LastLive, SentInOrder, BufferInv;
    var e := Event(now, AudioFrame(f.rms, f.backlogs, f.backlog, f.mode));
    var more := es + [e];
    assert more[..|es|] == es && more[|es|] == e;
    var s := Run(cfg, es);
    sent := [];
    RunFollows(cfg, es);
    if IsOpen(es) {
      RunFollows(cfg, more);
      RunKeepsFrames(cfg, es);
      sent := FrameAdds(cfg, s, now, Captured(es), f);
    } else {
      assert Captured(es) + [] == Captured(es);
    }
  }

  // ----- over a whole run -----

  /** Buffered frame `k` is in the queue and there is room for it and for all before it. */
  ghost predicate GoesOut(max: nat, q: seq<nat>, backlogs: seq<nat>, k: nat) {
    exists p :: 0 <= p < |q| && q[p] == k && forall j :: 0 <= j <= p ==> HasRoom(max, backlogs, j)
  }

  lemma FlushGoesOut(max: nat, q: seq<nat>, backlogs: seq<nat>, sent: seq<nat>, k: nat)
    requires IsFlush(max, backlogs, q, sent)
    ensures k in sent <==> GoesOut(max, q, backlogs, k)
  {
    if k in sent {
      var p :| 0 <= p < |sent| && sent[p] == k;
      assert q[p] == k;
    }
    if GoesOut(max, q, backlogs, k) {
      var p :| 0 <= p < |q| && q[p] == k && forall j :: 0 <= j <= p ==> HasRoom(max, backlogs, j);
      assert p < |sent| && sent[p] == k;
    }
  }

  /** Frame `k` was buffered when frame `m` started the user's utterance, and went out then. */
  ghost predicate FlushedAt(cfg: Config, fs: seq<Frame>, m: nat, k: nat) {
    && m < |fs| && Starts(cfg, fs[..m], fs[m])
    && GoesOut(cfg.maxBuffered, Buffered(cfg, fs[..m]), fs[m].backlogs, k)
  }

  /** Frame `k` was sent as it came. */
  ghost predicate SentLive(cfg: Config, fs: seq<Frame>, k: nat) {
    k < |fs| && Talking(cfg, fs[..k + 1]) && fs[k].backlog < cfg.maxBuffered
  }

  ghost predicate Sent(cfg: Config, fs: seq<Frame>, k: nat, live: bool) {
    if live then SentLive(cfg, fs, k) else exists m: nat :: FlushedAt(cfg, fs, m, k)
  }

  ghost predicate SentNow(cfg: Config, fs: seq<Frame>, f: Frame, k: nat, live: bool) {
    if live then k == |fs| && Talking(cfg, fs + [f]) && f.backlog < cfg.maxBuffered
    else Starts(cfg, fs, f) && GoesOut(cfg.maxBuffered, Buffered(cfg, fs), f.backlogs, k)
  }

  lemma NextSent(cfg: Config, fs: seq<Frame>, f: Frame, k: nat, live: bool)
    ensures Sent(cfg, fs + [f], k, live) <==> Sent(cfg, fs, k, live) || SentNow(cfg, fs, f, k, live)
  {
    hide Talking, FlushedAt, GoesOut, Buffered;
    var gs := fs + [f];
    if live {
      if k < |fs| { assert gs[..k + 1] == fs[..k + 1]; }
      if k == |fs| { assert gs[..k + 1] == gs; }
    } else {
      forall m: nat
        ensures FlushedAt(cfg, gs, m, k) <==>
          FlushedAt(cfg, fs, m, k) || (m == |fs| && SentNow(cfg, fs, f, k, false))
      {
        NextFlushed(cfg, fs, f, m, k);
      }
      assert FlushedAt(cfg, gs, |fs|, k) <==> FlushedAt(cfg, fs, |fs|, k) || SentNow(cfg, fs, f, k, false);
    }
  }

  lemma NextFlushed(cfg: Config, fs: seq<Frame>, f: Frame, m: nat, k: nat)
    ensures FlushedAt(cfg, fs + [f], m, k) <==>
      FlushedAt(cfg, fs, m, k) || (m == |fs| && SentNow(cfg, fs, f, k, false))
  {
    hide Starts, GoesOut, Buffered;
    var gs := fs + [f];
    if m <= |fs| { assert gs[..m] == fs[..m]; }
    assert fs[..|fs|] == fs;
  }

  lemma AddsSent(cfg: Config, fs: seq<Frame>, f: Frame, s: State, sent: seq<nat>, log: seq<Out>, k: nat, live: bool)
    requires Adds(cfg, fs, f, s, sent, log)
    ensures FrameSent(k, live) in log <==> FrameSent(k, live) in s.log || SentNow(cfg, fs, f, k, live)
  {
    hide Talking, GoesOut, Buffered, IsFlush, LastLive;
    if Starts(cfg, fs, f) {
      FlushGoesOut(cfg.maxBuffered, Buffered(cfg, fs), f.backlogs, sent, k);
      InFromBuffer(sent, k, live);
    }
  }

  lemma InFromBuffer(sent: seq<nat>, k: nat, live: bool)
    ensures FrameSent(k, live) in FromBuffer(sent) <==> !live && k in sent
  {
    if k in sent {
      var i :| 0 <= i < |sent| && sent[i] == k;
      assert FromBuffer(sent)[i] == FrameSent(k, false);
    }
  }

  /**
   Exactly which frames are sent over a run: live, those that come while the user speaks and the
   socket has room; late, those buffered when the user starts to speak, up to the first for which
   there is no room.
   */
  lemma {:induction false} SentExactly(cfg: Config, es: seq<Event>, k: nat, live: bool)
    requires cfg.sampleRate > 0
    ensures FrameSent(k, live) in Run(cfg, es).log <==> Sent(cfg, Captured(es), k, live)
  {
    hide Sent, Adds, Step;
    if es == [] {
      NothingSent(cfg, k, live);
    } else {
      var n := |es| - 1;
      assert es == es[..n] + [es[n]];
      SentExactly(cfg, es[..n], k, live);
      if es[n].input.AudioFrame? {
        var AudioFrame(rms, backlogs, backlog, mode) := es[n].input;
        var f := Frame(rms, backlogs, backlog, mode);
        assert es[n] == Event(es[n].now, es[n].input);
        var sent := NextFrameAdds(cfg, es[..n], es[n].now, f);
        if IsOpen(es[..n]) {
          AddsSent(cfg, Captured(es[..n]), f, Run(cfg, es[..n]), sent, Run(cfg, es).log, k, live);
          NextSent(cfg, Captured(es[..n]), f, k, live);
        }
      } else {
        NonAudioStep(cfg, Run(cfg, es[..n]), es[n]);
        assert Captured(es) == Captured(es[..n]) + [] == Captured(es[..n]);
      }
    }
  }

  lemma NothingSent(cfg: Config, k: nat, live: bool)
    ensures !Sent(cfg, [], k, live)
  {
  }
}
