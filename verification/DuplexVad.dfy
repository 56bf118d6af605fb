/**
 Voice activity: two counters updated frame by frame decide exactly what the loud/quiet
 history says, and the log marks exactly the frames where the answer changes.
 */
module DuplexVad {
  import opened DuplexModel

  /** A window or timeout of 0 frames acts like 1: the counter is already 1 when it is compared. */
  function AtLeastOne(n: nat): (r: nat)
    ensures r >= 1
  {
    if n == 0 then 1 else n
  }

  ghost predicate AllLoud(h: seq<bool>, a: nat, b: nat)
    requires b <= |h|
  {
    forall i :: a <= i < b ==> h[i]
  }

  ghost predicate AllQuiet(h: seq<bool>, a: nat, b: nat)
    requires b <= |h|
  {
    forall i :: a <= i < b ==> !h[i]
  }

  ghost predicate LoudWindow(cfg: Config, h: seq<bool>, a: nat) {
    a + AtLeastOne(cfg.vadWindow) <= |h| && AllLoud(h, a, a + AtLeastOne(cfg.vadWindow))
  }

  ghost predicate QuietWindow(cfg: Config, h: seq<bool>, b: nat) {
    b + AtLeastOne(cfg.silenceTimeout) <= |h| && AllQuiet(h, b, b + AtLeastOne(cfg.silenceTimeout))
  }

  ghost predicate NoQuietWindowFrom(cfg: Config, h: seq<bool>, a: nat) {
    forall b: nat :: a <= b ==> !QuietWindow(cfg, h, b)
  }

  /** The user is speaking iff some loud window has not been followed by a quiet window. */
  ghost predicate Speaking(cfg: Config, h: seq<bool>) {
    exists a: nat :: LoudWindow(cfg, h, a) && NoQuietWindowFrom(cfg, h, a + AtLeastOne(cfg.vadWindow))
  }

  ghost function RunLength(h: seq<bool>, x: bool): (n: nat)
    ensures n <= |h|
  {
    if h == [] || h[|h| - 1] != x then 0 else 1 + RunLength(h[..|h| - 1], x)
  }

  lemma {:induction false} RunLengthIsMaximal(h: seq<bool>, x: bool)
    ensures var n := RunLength(h, x);
      && (forall i :: |h| - n <= i < |h| ==> h[i] == x)
      && (n < |h| ==> h[|h| - n - 1] != x)
  {
    if h != [] && h[|h| - 1] == x {
      RunLengthIsMaximal(h[..|h| - 1], x);
    }
  }

  // ----- how one more frame changes the answer -----

  /** Windows that lie within `h` are the same windows of any extension. */
  lemma SameWindows(cfg: Config, h: seq<bool>, x: bool, a: nat)
    ensures LoudWindow(cfg, h, a) <==>
      LoudWindow(cfg, h + [x], a) && a + AtLeastOne(cfg.vadWindow) <= |h|
    ensures QuietWindow(cfg, h, a) <==>
      QuietWindow(cfg, h + [x], a) && a + AtLeastOne(cfg.silenceTimeout) <= |h|
  {
    var g := h + [x];
    assert forall i :: 0 <= i < |h| ==> h[i] == g[i];
    if LoudWindow(cfg, g, a) && a + AtLeastOne(cfg.vadWindow) <= |h| {
      forall i | a <= i < a + AtLeastOne(cfg.vadWindow) ensures h[i] { assert g[i]; }
    }
    if QuietWindow(cfg, g, a) && a + AtLeastOne(cfg.silenceTimeout) <= |h| {
      forall i | a <= i < a + AtLeastOne(cfg.silenceTimeout) ensures !h[i] { assert !g[i]; }
    }
  }

  /** A loud window of `h` that no quiet window follows, if the last frame completes none. */
  lemma StillSpeaking(cfg: Config, h: seq<bool>, x: bool)
    requires Speaking(cfg, h)
    requires RunLength(h + [x], false) < AtLeastOne(cfg.silenceTimeout)
    ensures Speaking(cfg, h + [x])
  {
    var w, t, g := AtLeastOne(cfg.vadWindow), AtLeastOne(cfg.silenceTimeout), h + [x];
    var a: nat :| LoudWindow(cfg, h, a) && NoQuietWindowFrom(cfg, h, a + w);
    SameWindows(cfg, h, x, a);
    RunLengthIsMaximal(g, false);
    forall b: nat | a + w <= b
      ensures !QuietWindow(cfg, g, b)
    {
      SameWindows(cfg, h, x, b);
      assert !QuietWindow(cfg, h, b);
      if b + t == |g| {
        assert g[|g| - RunLength(g, false) - 1];
      }
    }
  }

  /** A loud window of the extension that already lies in `h`. */
  lemma WasSpeaking(cfg: Config, h: seq<bool>, x: bool, a: nat)
    requires LoudWindow(cfg, h + [x], a)
    requires NoQuietWindowFrom(cfg, h + [x], a + AtLeastOne(cfg.vadWindow))
    requires a + AtLeastOne(cfg.vadWindow) <= |h|
    ensures Speaking(cfg, h)
  {
    SameWindows(cfg, h, x, a);
    forall b: nat | a + AtLeastOne(cfg.vadWindow) <= b
      ensures !QuietWindow(cfg, h, b)
    {
      SameWindows(cfg, h, x, b);
      assert !QuietWindow(cfg, h + [x], b);
    }
  }

  lemma LoudFrame(cfg: Config, h: seq<bool>)
    ensures Speaking(cfg, h + [true]) <==>
      Speaking(cfg, h) || RunLength(h + [true], true) >= AtLeastOne(cfg.vadWindow)
  {
    var w, g := AtLeastOne(cfg.vadWindow), h + [true];
    RunLengthIsMaximal(g, true);
    if Speaking(cfg, h) {
      StillSpeaking(cfg, h, true);
    } else if RunLength(g, true) >= w {
      assert LoudWindow(cfg, g, |g| - w);
      assert NoQuietWindowFrom(cfg, g, |g|);
    } else if Speaking(cfg, g) {
      var a: nat :| LoudWindow(cfg, g, a) && NoQuietWindowFrom(cfg, g, a + w);
      WasSpeaking(cfg, h, true, a);
    }
  }

  /** While the user is speaking the quiet run has not reached the timeout. */
  lemma QuietRunBelowTimeout(cfg: Config, h: seq<bool>)
    requires Speaking(cfg, h)
    ensures RunLength(h, false) < AtLeastOne(cfg.silenceTimeout)
  {
    var w, t := AtLeastOne(cfg.vadWindow), AtLeastOne(cfg.silenceTimeout);
    var a: nat :| LoudWindow(cfg, h, a) && NoQuietWindowFrom(cfg, h, a + w);
    assert h[a + w - 1];
    RunLengthIsMaximal(h, false);
    if RunLength(h, false) >= t {
      assert QuietWindow(cfg, h, |h| - t);
    }
  }

  lemma QuietFrame(cfg: Config, h: seq<bool>)
    ensures Speaking(cfg, h + [false]) <==>
      Speaking(cfg, h) && RunLength(h + [false], false) < AtLeastOne(cfg.silenceTimeout)
  {
    var w, g := AtLeastOne(cfg.vadWindow), h + [false];
    if Speaking(cfg, g) {
      var a: nat :| LoudWindow(cfg, g, a) && NoQuietWindowFrom(cfg, g, a + w);
      assert g[a + w - 1];
      WasSpeaking(cfg, h, false, a);
      QuietRunBelowTimeout(cfg, g);
    }
    if Speaking(cfg, h) && RunLength(g, false) < AtLeastOne(cfg.silenceTimeout) {
      StillSpeaking(cfg, h, false);
    }
  }

  // ----- the counters and the log -----

  predicate IsVoice(o: Out) { o.Activated? || o.EndOfUtterance? }

  function FrameOf(o: Out): nat
    requires IsVoice(o)
  {
    match o
    case Activated(k) => k
    case EndOfUtterance(k, _, _) => k
  }

  ghost predicate CountersAgree(cfg: Config, v: Voice) {
    && v.loudRun == RunLength(v.history, true)
    && (v.speaking ==> v.quietRun == RunLength(v.history, false))
    && (v.speaking <==> Speaking(cfg, v.history))
  }

  /** What a voice entry of the log says about the history. */
  ghost predicate Marks(cfg: Config, h: seq<bool>, o: Out)
    requires IsVoice(o)
  {
    var k := FrameOf(o);
    && 1 <= k <= |h|
    && (o.Activated? ==>
          && !Speaking(cfg, h[..k - 1]) && Speaking(cfg, h[..k])
          && RunLength(h[..k], true) >= AtLeastOne(cfg.vadWindow))
    && (o.EndOfUtterance? ==>
          && Speaking(cfg, h[..k - 1]) && !Speaking(cfg, h[..k])
          && RunLength(h[..k], false) == AtLeastOne(cfg.silenceTimeout))
  }

  ghost predicate Marked(log: seq<Out>, k: nat) {
    exists i :: 0 <= i < |log| && IsVoice(log[i]) && FrameOf(log[i]) == k
  }

  ghost predicate Changes(cfg: Config, h: seq<bool>, k: nat)
    requires 1 <= k <= |h|
  {
    Speaking(cfg, h[..k - 1]) != Speaking(cfg, h[..k])
  }

  ghost predicate LogAgrees(cfg: Config, h: seq<bool>, log: seq<Out>) {
    && (forall i :: 0 <= i < |log| && IsVoice(log[i]) ==> Marks(cfg, h, log[i]))
    && (forall i, j :: 0 <= i < j < |log| && IsVoice(log[i]) && IsVoice(log[j]) ==>
          FrameOf(log[i]) < FrameOf(log[j]))
    && (forall k :: 1 <= k <= |h| && Changes(cfg, h, k) ==> Marked(log, k))
  }

  ghost predicate VadInv(cfg: Config, s: State) {
    CountersAgree(cfg, s.voice) && LogAgrees(cfg, s.voice.history, s.log)
  }

  lemma MarkedStays(log: seq<Out>, more: seq<Out>, k: nat)
    requires Marked(log, k)
    ensures Marked(log + more, k)
  {
    var i :| 0 <= i < |log| && IsVoice(log[i]) && FrameOf(log[i]) == k;
    assert (log + more)[i] == log[i];
  }

  lemma OtherEntries(cfg: Config, h: seq<bool>, log: seq<Out>, more: seq<Out>)
    requires LogAgrees(cfg, h, log)
    requires forall i :: 0 <= i < |more| ==> !IsVoice(more[i])
    ensures LogAgrees(cfg, h, log + more)
  {
    forall k | 1 <= k <= |h| && Changes(cfg, h, k)
      ensures Marked(log + more, k)
    {
      MarkedStays(log, more, k);
    }
  }

  lemma MarksStays(cfg: Config, h: seq<bool>, x: bool, o: Out)
    requires IsVoice(o) && Marks(cfg, h, o)
    ensures Marks(cfg, h + [x], o)
  {
    var k := FrameOf(o);
    assert (h + [x])[..k] == h[..k] && (h + [x])[..k - 1] == h[..k - 1];
  }

  /** Extending the history by a frame that changes nothing, or by one the log marks. */
  lemma NextFrame(cfg: Config, h: seq<bool>, x: bool, log: seq<Out>, more: seq<Out>)
    requires LogAgrees(cfg, h, log)
    requires |more| <= 1
    requires forall i :: 0 <= i < |more| ==>
      IsVoice(more[i]) && FrameOf(more[i]) == |h| + 1 && Marks(cfg, h + [x], more[i])
    requires more == [] ==> Speaking(cfg, h + [x]) == Speaking(cfg, h)
    ensures LogAgrees(cfg, h + [x], log + more)
  {
    var g, full := h + [x], log + more;
    forall i | 0 <= i < |full| && IsVoice(full[i])
      ensures Marks(cfg, g, full[i])
      ensures i < |log| ==> FrameOf(full[i]) <= |h|
    {
      if i < |log| {
        assert full[i] == log[i];
        MarksStays(cfg, h, x, log[i]);
      }
    }
    forall k | 1 <= k <= |g| && Changes(cfg, g, k)
      ensures Marked(full, k)
    {
      if k <= |h| {
        assert g[..k] == h[..k] && g[..k - 1] == h[..k - 1];
        assert Changes(cfg, h, k);
        MarkedStays(log, more, k);
      } else {
        assert g[..k] == g && g[..k - 1] == h;
        assert full[|log|] == more[0];
      }
    }
  }

  lemma CountersStayInStep(cfg: Config, v: Voice, loud: bool)
    requires CountersAgree(cfg, v)
    ensures var w := CountFrame(v, loud);
      && CountersAgree(cfg, w.(speaking := Speaking(cfg, w.history)))
      && (Activates(cfg, v, loud) <==> !v.speaking && Speaking(cfg, w.history))
      && (Activates(cfg, v, loud) ==> RunLength(w.history, true) >= AtLeastOne(cfg.vadWindow))
      && (Finishes(cfg, v, loud) <==> v.speaking && !Speaking(cfg, w.history))
      && (Finishes(cfg, v, loud) ==> RunLength(w.history, false) == AtLeastOne(cfg.silenceTimeout))
  {
    var h := v.history;
    var g := h + [loud];
    assert g[..|g| - 1] == h;
    if loud {
      LoudFrame(cfg, h);
    } else {
      QuietFrame(cfg, h);
      if v.speaking {
        QuietRunBelowTimeout(cfg, h);
      }
    }
  }

  lemma DetectVoiceKeepsVad(cfg: Config, s: State, now: real, loud: bool, mode: Mode)
    requires VadInv(cfg, s)
    ensures VadInv(cfg, DetectVoice(cfg, s, now, loud, mode))
  {
    var h := s.voice.history;
    var g := h + [loud];
    assert g[..|g| - 1] == h && g[..|g|] == g;
    CountersStayInStep(cfg, s.voice, loud);
    if Activates(cfg, s.voice, loud) {
      NextFrame(cfg, h, loud, s.log, [Activated(|g|)]);
      OtherEntries(cfg, g, s.log + [Activated(|g|)], [BargeIn]);
    } else if Finishes(cfg, s.voice, loud) {
      NextFrame(cfg, h, loud, s.log, [EndOfUtterance(|g|, s.frames.lastVoiceSeq, mode)]);
    } else {
      NextFrame(cfg, h, loud, s.log, []);
      assert s.log + [] == s.log;
    }
  }

  /** Transitions that do not look at a microphone frame leave the voice detector alone. */
  predicate SameVoice(s: State, t: State) {
    && t.voice == s.voice
    && |s.log| <= |t.log| && t.log[..|s.log|] == s.log
    && forall i :: |s.log| <= i < |t.log| ==> !IsVoice(t.log[i])
  }

  lemma SameVoiceKeepsVad(cfg: Config, s: State, t: State)
    requires VadInv(cfg, s) && SameVoice(s, t)
    ensures VadInv(cfg, t)
  {
    OtherEntries(cfg, s.voice.history, s.log, t.log[|s.log|..]);
    assert t.log == s.log + t.log[|s.log|..];
  }

  lemma {:induction false} StepKeepsVad(cfg: Config, s: State, e: Event)
    requires cfg.sampleRate > 0
    requires VadInv(cfg, s)
    ensures VadInv(cfg, Step(cfg, s, e))
  {
    hide CountersAgree, LogAgrees;
    if e.input.AudioFrame? {
      if s.open {
        var loud := e.input.rms > cfg.vadThreshold;
        var t := DetectVoice(cfg, s.(level := e.input.rms), e.now, loud, e.input.mode);
        DetectVoiceKeepsVad(cfg, s.(level := e.input.rms), e.now, loud, e.input.mode);
        SameVoiceKeepsVad(cfg, t, Step(cfg, s, e));
      }
    } else {
      NonAudioStep(cfg, s, e);
      SameVoiceKeepsVad(cfg, s, Step(cfg, s, e));
    }
  }

  lemma {:induction false} RunKeepsVad(cfg: Config, es: seq<Event>)
    requires cfg.sampleRate > 0
    ensures VadInv(cfg, Run(cfg, es))
  {
    if es == [] {
      assert !Speaking(cfg, []);
    } else {
      var k := |es| - 1;
      RunKeepsVad(cfg, es[..k]);
      StepKeepsVad(cfg, Run(cfg, es[..k]), es[k]);
    }
  }

  // ----- alternation -----

  lemma {:induction false} ChangeBetween(cfg: Config, h: seq<bool>, a: nat, b: nat) returns (m: nat)
    requires a < b <= |h| && Speaking(cfg, h[..a]) != Speaking(cfg, h[..b])
    ensures a < m <= b && Changes(cfg, h, m)
  {
    hide Speaking;
    if Changes(cfg, h, b) {
      m := b;
    } else {
      m := ChangeBetween(cfg, h, a, b - 1);
    }
  }

  /** A change between two frames is marked between their entries. */
  lemma MarkBetween(cfg: Config, h: seq<bool>, log: seq<Out>, i: int, j: nat, a: nat)
    requires LogAgrees(cfg, h, log) && -1 <= i < j < |log| && IsVoice(log[j])
    requires if i == -1 then a == 0 else IsVoice(log[i]) && FrameOf(log[i]) == a
    requires a <= FrameOf(log[j]) - 1 <= |h| && Speaking(cfg, h[..a]) != Speaking(cfg, h[..FrameOf(log[j]) - 1])
    ensures exists q :: i < q < j && IsVoice(log[q])
  {
    hide Speaking, Marks;
    var m := ChangeBetween(cfg, h, a, FrameOf(log[j]) - 1);
    assert Marked(log, m);
    var q :| 0 <= q < |log| && IsVoice(log[q]) && FrameOf(log[q]) == m;
    assert q < j && i < q;
  }

  lemma SilenceAtStart(cfg: Config)
    ensures !Speaking(cfg, [])
  {
  }

  /** Activations and ends alternate, and the first entry is an activation. */
  lemma VoiceEntriesAlternate(cfg: Config, es: seq<Event>, i: int, j: nat)
    requires cfg.sampleRate > 0 && -1 <= i < j < |Run(cfg, es).log|
    requires var log := Run(cfg, es).log;
      IsVoice(log[j]) && (i >= 0 ==> IsVoice(log[i])) && forall q :: i < q < j ==> !IsVoice(log[q])
    ensures var log := Run(cfg, es).log;
      if i == -1 then log[j].Activated? else log[i].Activated? != log[j].Activated?
  {
    hide Speaking, Run;
    RunKeepsVad(cfg, es);
    var h, log := Run(cfg, es).voice.history, Run(cfg, es).log;
    var a := if i == -1 then 0 else FrameOf(log[i]);
    var b := FrameOf(log[j]) - 1;
    assert Marks(cfg, h, log[j]) && (i >= 0 ==> Marks(cfg, h, log[i]));
    SilenceAtStart(cfg);
    assert h[..0] == [];
    assert a <= b;
    if Speaking(cfg, h[..a]) != Speaking(cfg, h[..b]) {
      MarkBetween(cfg, h, log, i, j, a);
    }
  }
}
