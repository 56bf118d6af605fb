/**
 The turn-taking voice client as a state machine: one transition per browser event.

 Everything the browser decides (the loudness of a frame, how much data is queued on the
 socket, the audio clock) is part of the event.  `log`, `plays` and `history` record what has
 happened so far; no transition branches on `log` or `history`.
 */
module DuplexModel {
  import opened Wrappers

  datatype Mode = Aircon | General

  /** The audio section of the client configuration. */
  datatype Config = Config(
    vadThreshold: real, vadWindow: nat, silenceTimeout: nat,
    preRollLimit: nat, maxBuffered: nat, sampleRate: nat)

  /** What the client did, in order. */
  datatype Out =
    | Activated(frame: nat)
    | FrameSent(number: nat, live: bool)
    | EndOfUtterance(frame: nat, last: Option<nat>, mode: Mode)
    | BargeIn
    | Closed
    | TurnEnded
    | Interrupted
    | ResponseEnded
    | Scheduled(source: nat)
    | TextShown(bubble: nat, content: string)

  /** A chunk handed to the audio device: it plays from `start` for `duration` unless stopped at `cut`. */
  datatype Play = Play(arrived: real, start: real, duration: real, cut: Option<real>) {
    function End(): real { start + duration }

    /** Whether the chunk is audible at time `t`. */
    predicate Sounds(t: real) {
      start <= t < End() && (cut.Some? ==> t < cut.value)
    }
  }

  /** The voice detector: `isUserSpeaking`, its two counters, and the loud/quiet history behind them. */
  datatype Voice = Voice(speaking: bool, loudRun: nat, quietRun: nat, history: seq<bool>)

  /** Outgoing frames, each known by its sequence number. */
  datatype Frames = Frames(preRoll: seq<nat>, nextSeq: nat, lastVoiceSeq: Option<nat>)

  /** `isAIProcessing` and `isAITurn`. */
  datatype Turn = Turn(processing: bool, ai: bool)

  /** Playback: sources are numbered in the order they were scheduled; `active` holds unfinished ones. */
  datatype Audio = Audio(nextStart: real, active: seq<nat>, plays: seq<Play>)

  /** The message bubble that the next token may extend. */
  datatype Chat = Chat(bubble: Option<nat>, firstToken: bool, bubbles: nat)

  datatype State = State(
    open: bool, level: real, voice: Voice, frames: Frames, turn: Turn, audio: Audio, chat: Chat, log: seq<Out>)

  const INIT := State(
    false, 0.0, Voice(false, 0, 0, []), Frames([], 0, None), Turn(false, false),
    Audio(0.0, [], []), Chat(None, true, 0), [])

  datatype Input =
    | AudioFrame(rms: real, backlogs: seq<nat>, backlog: nat, mode: Mode)
    | SocketOpened
    | SocketClosing
    | SocketClosed
    | InterruptMessage
    | TextMessage(content: string)
    | EndOfResponseMessage
    | OtherMessage
    | AudioChunk(bytes: nat)
    | SourceEnded(source: nat)

  datatype Event = Event(now: real, input: Input)

  // ----- stopping playback and giving the turn back -----

  function CutActive(plays: seq<Play>, active: seq<nat>, now: real): (r: seq<Play>)
    ensures |r| == |plays|
  {
    seq(|plays|, i requires 0 <= i < |plays| =>
      if i in active then plays[i].(cut := Some(now)) else plays[i])
  }

  function StopAllPlayback(a: Audio, now: real): Audio {
    Audio(0.0, [], CutActive(a.plays, a.active, now))
  }

  function ResetUi(c: Chat): Chat {
    c.(bubble := None, firstToken := true)
  }

  function HandleBargeIn(s: State, now: real): State {
    s.(turn := Turn(false, false), audio := StopAllPlayback(s.audio, now), chat := ResetUi(s.chat),
       log := s.log + [BargeIn])
  }

  // ----- microphone frames -----

  function Activate(s: State, voice: Voice, now: real): State {
    var t := s.(voice := voice.(speaking := true), frames := s.frames.(lastVoiceSeq := None),
                chat := ResetUi(s.chat), log := s.log + [Activated(|voice.history|)]);
    if t.turn.ai then HandleBargeIn(t, now) else t
  }

  function EndUtterance(s: State, voice: Voice, mode: Mode): State {
    s.(voice := voice.(speaking := false), frames := s.frames.(preRoll := []), turn := Turn(true, true),
       log := s.log + [EndOfUtterance(|voice.history|, s.frames.lastVoiceSeq, mode)])
  }

  predicate Activates(cfg: Config, v: Voice, loud: bool) {
    loud && v.loudRun + 1 >= cfg.vadWindow && !v.speaking
  }

  predicate Finishes(cfg: Config, v: Voice, loud: bool) {
    !loud && v.speaking && v.quietRun + 1 >= cfg.silenceTimeout
  }

  /** The counters after one more frame; silence is only counted while the user is speaking. */
  function CountFrame(v: Voice, loud: bool): Voice {
    if loud then Voice(v.speaking, v.loudRun + 1, 0, v.history + [true])
    else Voice(v.speaking, 0, if v.speaking then v.quietRun + 1 else v.quietRun, v.history + [false])
  }

  function DetectVoice(cfg: Config, s: State, now: real, loud: bool, mode: Mode): State {
    var voice := CountFrame(s.voice, loud);
    if Activates(cfg, s.voice, loud) then Activate(s, voice, now)
    else if Finishes(cfg, s.voice, loud) then EndUtterance(s, voice, mode)
    else s.(voice := voice)
  }

  /** How many of `n` buffered frames go out, from frame `k` on, before the socket is too full. */
  function FlushCount(max: nat, backlogs: seq<nat>, k: nat, n: nat): (c: nat)
    requires k <= n
    ensures k <= c <= n
    decreases n - k
  {
    if k == n || (k < |backlogs| && backlogs[k] > max) then k
    else FlushCount(max, backlogs, k + 1, n)
  }

  function PreRollFrames(numbers: seq<nat>): (r: seq<Out>)
    ensures |r| == |numbers|
  {
    seq(|numbers|, i requires 0 <= i < |numbers| => FrameSent(numbers[i], false))
  }

  function FlushPreRoll(cfg: Config, s: State, backlogs: seq<nat>): State {
    var q := s.frames.preRoll;
    var c := FlushCount(cfg.maxBuffered, backlogs, 0, |q|);
    s.(frames := s.frames.(preRoll := q[c..]), log := s.log + PreRollFrames(q[..c]))
  }

  function KeepForPreRoll(cfg: Config, preRoll: seq<nat>, number: nat): seq<nat> {
    var q := preRoll + [number];
    if |q| > cfg.preRollLimit then q[1..] else q
  }

  /** Numbers the frame and sends it, buffers it, or drops it. */
  function Transmit(cfg: Config, s: State, rms: real, backlog: nat): State {
    var Frames(preRoll, number, last) := s.frames;
    if s.voice.speaking && backlog < cfg.maxBuffered then
      s.(frames := Frames(preRoll, number + 1, Some(number)), log := s.log + [FrameSent(number, true)])
    else if !s.voice.speaking && rms > cfg.vadThreshold / 2.0 then
      s.(frames := Frames(KeepForPreRoll(cfg, preRoll, number), number + 1, last))
    else
      s.(frames := Frames(preRoll, number + 1, last))
  }

  function OnAudio(cfg: Config, s: State, now: real, rms: real,
                   backlogs: seq<nat>, backlog: nat, mode: Mode): State {
    if !s.open then s
    else
      var loud := rms > cfg.vadThreshold;
      var t := DetectVoice(cfg, s.(level := rms), now, loud, mode);
      var u := if Activates(cfg, s.voice, loud) then FlushPreRoll(cfg, t, backlogs) else t;
      Transmit(cfg, u, rms, backlog)
  }

  // ----- server messages -----

  function OnText(s: State, content: string): State {
    if content == "" || !s.turn.ai then s
    else if s.chat.firstToken || s.chat.bubble.None? then
      var b := s.chat.bubbles;
      s.(chat := Chat(Some(b), false, b + 1), log := s.log + [TextShown(b, content)])
    else
      s.(log := s.log + [TextShown(s.chat.bubble.value, content)])
  }

  function ChunkDuration(cfg: Config, bytes: nat): (d: real)
    requires cfg.sampleRate > 0
    ensures d >= 0.0
  {
    (bytes / 2) as real / cfg.sampleRate as real
  }

  /** An odd or empty chunk makes the browser's buffer constructors throw before anything is scheduled. */
  predicate Rejects(s: State, bytes: nat) {
    !s.turn.ai || (s.voice.speaking && s.level > 0.2) || bytes % 2 != 0 || bytes == 0
  }

  function Schedule(a: Audio, now: real, duration: real): Audio {
    var start := if a.nextStart < now then now + 0.05 else a.nextStart;
    Audio(start + duration, a.active + [|a.plays|], a.plays + [Play(now, start, duration, None)])
  }

  function OnChunk(cfg: Config, s: State, now: real, bytes: nat): State
    requires cfg.sampleRate > 0
  {
    if Rejects(s, bytes) then s
    else s.(audio := Schedule(s.audio, now, ChunkDuration(cfg, bytes)),
            log := s.log + [Scheduled(|s.audio.plays|)])
  }

  function Without(active: seq<nat>, source: nat): (r: seq<nat>)
    ensures forall i :: i in r <==> i in active && i != source
  {
    if active == [] then []
    else if active[0] == source then Without(active[1..], source)
    else [active[0]] + Without(active[1..], source)
  }

  function OnEnded(s: State, source: nat): State {
    var active := Without(s.audio.active, source);
    var t := s.(audio := s.audio.(active := active));
    if !s.turn.processing && active == [] then t.(turn := Turn(false, false), log := s.log + [TurnEnded])
    else t
  }

  function OnClose(s: State, now: real): State {
    s.(open := false, turn := Turn(false, false), audio := StopAllPlayback(s.audio, now),
       chat := ResetUi(s.chat), log := s.log + [Closed])
  }

  function OnInterrupt(s: State, now: real): State {
    s.(audio := StopAllPlayback(s.audio, now), chat := ResetUi(s.chat), log := s.log + [Interrupted])
  }

  function OnEndOfResponse(s: State): State {
    s.(turn := s.turn.(processing := false), chat := ResetUi(s.chat), log := s.log + [ResponseEnded])
  }

  function Step(cfg: Config, s: State, e: Event): State
    requires cfg.sampleRate > 0
  {
    match e.input
    case AudioFrame(rms, backlogs, backlog, mode) => OnAudio(cfg, s, e.now, rms, backlogs, backlog, mode)
    case SocketOpened => s.(open := true)
    case SocketClosing => s.(open := false)
    case SocketClosed => OnClose(s, e.now)
    case InterruptMessage => OnInterrupt(s, e.now)
    case TextMessage(content) => OnText(s, content)
    case EndOfResponseMessage => OnEndOfResponse(s)
    case OtherMessage => s
    case AudioChunk(bytes) => OnChunk(cfg, s, e.now, bytes)
    case SourceEnded(source) => OnEnded(s, source)
  }

  /** Only microphone frames touch the voice detector, the frame buffer, or what is said about them in the log. */
  lemma {:induction false} NonAudioStep(cfg: Config, s: State, e: Event)
    requires cfg.sampleRate > 0 && !e.input.AudioFrame?
    ensures var t := Step(cfg, s, e);
      && t.frames == s.frames && t.voice == s.voice
      && (t.log == s.log ||
          (|t.log| == |s.log| + 1 && t.log == s.log + [t.log[|s.log|]] &&
           var o := t.log[|s.log|]; !o.FrameSent? && !o.Activated? && !o.EndOfUtterance?))
  {
  }

  // ----- runs -----

  /** The state after the events `es`, from page load. */
  function Run(cfg: Config, es: seq<Event>): State
    requires cfg.sampleRate > 0
  {
    if es == [] then INIT else Step(cfg, Run(cfg, es[..|es| - 1]), es[|es| - 1])
  }

  function Clock(es: seq<Event>): real {
    if es == [] then 0.0 else es[|es| - 1].now
  }

  /** The audio device reports the end of a source only once it was stopped or has played out. */
  predicate Fires(s: State, e: Event) {
    e.input.SourceEnded? ==>
      && e.input.source < |s.audio.plays|
      && (s.audio.plays[e.input.source].cut.Some? || s.audio.plays[e.input.source].End() <= e.now)
  }

  /** Events arrive in any order; the clock never runs backwards. */
  ghost predicate Legal(cfg: Config, es: seq<Event>)
    requires cfg.sampleRate > 0
  {
    es == [] ||
    var k := |es| - 1;
    Legal(cfg, es[..k]) && Clock(es[..k]) <= es[k].now && Fires(Run(cfg, es[..k]), es[k])
  }
}
