/**
 The client as the browser runs it: variables changed in place by event handlers, grouped as in
 the state machine.  Each handler is one transition.
 */
module DuplexClient {
  import opened Wrappers
  import opened DuplexModel
  import opened DuplexPreRoll

  class Client {
    const cfg: Config
    var open: bool
    var rms: real
    var voice: Voice
    var frames: Frames
    var turn: Turn
    var audio: Audio
    var chat: Chat
    ghost var log: seq<Out>

    ghost function Abs(): State
      reads this
    {
      State(open, rms, voice, frames, turn, audio, chat, log)
    }

    constructor (cfg: Config)
      ensures Abs() == INIT && this.cfg == cfg
    {
      this.cfg := cfg;
      open, rms := false, 0.0;
      voice := Voice(false, 0, 0, []);
      frames := Frames([], 0, None);
      turn := Turn(false, false);
      audio := Audio(0.0, [], []);
      chat := Chat(None, true, 0);
      log := [];
    }

    method StopAllPlayback(now: real)
      modifies this`audio, this`chat
      ensures audio == DuplexModel.StopAllPlayback(old(audio), now)
      ensures chat == old(chat).(firstToken := true)
    {
      var plays := audio.plays;
      for k := 0 to |audio.active|
        invariant |plays| == |audio.plays|
        invariant forall i :: 0 <= i < |plays| ==>
          plays[i] == if i in audio.active[..k] then audio.plays[i].(cut := Some(now)) else audio.plays[i]
      {
        var source := audio.active[k];
        if source < |plays| {
          plays := plays[source := plays[source].(cut := Some(now))];
        }
      }
      assert audio.active[..|audio.active|] == audio.active;
      assert plays == CutActive(audio.plays, audio.active, now);
      audio := Audio(0.0, [], plays);
      chat := chat.(firstToken := true);
    }

    method ResetUIState()
      modifies this`chat
      ensures chat == ResetUi(old(chat))
    {
      chat := chat.(bubble := None);
      chat := chat.(firstToken := true);
    }

    method HandleUserBargeIn(now: real)
      requires turn.ai
      modifies this`turn, this`audio, this`chat, this`log
      ensures Abs() == HandleBargeIn(old(Abs()), now)
    {
      StopAllPlayback(now);
      turn := turn.(processing := false);
      turn := turn.(ai := false);
      ResetUIState();
      log := log + [BargeIn];
    }

    /** The voice detector, with the two control messages it may send. */
    method RunVad(now: real, mode: Mode) returns (justActivated: bool)
      modifies this`voice, this`frames, this`turn, this`audio, this`chat, this`log
      ensures justActivated == Activates(cfg, old(voice), rms > cfg.vadThreshold)
      ensures Abs() == DetectVoice(cfg, old(Abs()), now, rms > cfg.vadThreshold, mode)
    {
      justActivated := false;
      if rms > cfg.vadThreshold {
        voice := Voice(voice.speaking, voice.loudRun + 1, 0, voice.history + [true]);
        if voice.loudRun >= cfg.vadWindow && !voice.speaking {
          voice := voice.(speaking := true);
          justActivated := true;
          frames := frames.(lastVoiceSeq := None);
          ResetUIState();
          log := log + [Activated(|voice.history|)];
          if turn.ai {
            HandleUserBargeIn(now);
          }
        }
      } else {
        voice := Voice(voice.speaking, 0, voice.quietRun, voice.history + [false]);
        if voice.speaking {
          voice := voice.(quietRun := voice.quietRun + 1);
          if voice.quietRun >= cfg.silenceTimeout {
            voice := voice.(speaking := false);
            frames := frames.(preRoll := []);
            log := log + [EndOfUtterance(|voice.history|, frames.lastVoiceSeq, mode)];
            turn := Turn(true, true);
          }
        }
      }
    }

    /** Sends buffered frames, oldest first, up to the first for which the socket is too full. */
    method FlushBuffered(backlogs: seq<nat>) returns (ghost sent: seq<nat>)
      modifies this`frames, this`log
      ensures Abs() == FlushPreRoll(cfg, old(Abs()), backlogs)
      ensures IsFlush(cfg.maxBuffered, backlogs, old(frames.preRoll), sent)
      ensures frames == old(frames).(preRoll := old(frames.preRoll)[|sent|..]) && log == old(log) + FromBuffer(sent)
    {
      ghost var queue := frames.preRoll;
      var k := 0;
      while |frames.preRoll| > 0
        invariant 0 <= k <= |queue| && frames == old(frames).(preRoll := queue[k..])
        invariant log == old(log) + PreRollFrames(queue[..k])
        invariant forall j :: 0 <= j < k ==> HasRoom(cfg.maxBuffered, backlogs, j)
        invariant FlushCount(cfg.maxBuffered, backlogs, 0, |queue|) == FlushCount(cfg.maxBuffered, backlogs, k, |queue|)
        decreases |frames.preRoll|
      {
        if k < |backlogs| && backlogs[k] > cfg.maxBuffered {
          sent := queue[..k];
          assert FromBuffer(sent) == PreRollFrames(sent);
          return;
        }
        assert queue[..k + 1] == queue[..k] + [queue[k]];
        log := log + [FrameSent(frames.preRoll[0], false)];
        frames := frames.(preRoll := frames.preRoll[1..]);
        k := k + 1;
      }
      sent := queue;
      assert queue[..k] == queue && FromBuffer(sent) == PreRollFrames(sent);
    }

    /** Numbers the frame and sends, buffers or drops it. */
    method TransmitFrame(backlog: nat)
      modifies this`frames, this`log
      ensures Abs() == Transmit(cfg, old(Abs()), rms, backlog)
    {
      var number := frames.nextSeq;
      frames := frames.(nextSeq := number + 1);
      if voice.speaking {
        if backlog < cfg.maxBuffered {
          log := log + [FrameSent(number, true)];
          frames := frames.(lastVoiceSeq := Some(frames.nextSeq - 1));
        }
      } else if rms > cfg.vadThreshold / 2.0 {
        frames := frames.(preRoll := frames.preRoll + [number]);
        if |frames.preRoll| > cfg.preRollLimit {
          frames := frames.(preRoll := frames.preRoll[1..]);
        }
      }
    }

    method OnAudioProcess(now: real, level: real, backlogs: seq<nat>, backlog: nat, mode: Mode)
      modifies this
      ensures Abs() == OnAudio(cfg, old(Abs()), now, level, backlogs, backlog, mode)
    {
      if !open { return; }
      rms := level;
      var justActivated := RunVad(now, mode);
      if justActivated {
        ghost var _ := FlushBuffered(backlogs);
      }
      TransmitFrame(backlog);
    }

    method OnSocketClose(now: real)
      modifies this
      ensures Abs() == OnClose(old(Abs()), now)
    {
      open := false;
      turn := turn.(processing := false);
      turn := turn.(ai := false);
      StopAllPlayback(now);
      ResetUIState();
      log := log + [Closed];
    }

    method OnTextMessage(content: string)
      modifies this
      ensures Abs() == OnText(old(Abs()), content)
    {
      if content == "" || !turn.ai { return; }
      if chat.firstToken || chat.bubble.None? {
        chat := Chat(Some(chat.bubbles), false, chat.bubbles + 1);
      }
      log := log + [TextShown(chat.bubble.value, content)];
    }

    method OnInterruptMessage(now: real)
      modifies this
      ensures Abs() == OnInterrupt(old(Abs()), now)
    {
      StopAllPlayback(now);
      ResetUIState();
      log := log + [Interrupted];
    }

    method OnEndOfResponse()
      modifies this
      ensures Abs() == DuplexModel.OnEndOfResponse(old(Abs()))
    {
      turn := turn.(processing := false);
      ResetUIState();
      log := log + [ResponseEnded];
    }

    method PlayAudioChunk(now: real, bytes: nat)
      requires cfg.sampleRate > 0
      modifies this
      ensures Abs() == OnChunk(cfg, old(Abs()), now, bytes)
    {
      if !turn.ai { return; }
      if voice.speaking && rms > 0.2 { return; }
      if bytes % 2 != 0 || bytes == 0 { return; }
      var duration := ChunkDuration(cfg, bytes);
      if audio.nextStart < now {
        audio := audio.(nextStart := now + 0.05);
      }
      var source := |audio.plays|;
      audio := audio.(plays := audio.plays + [Play(now, audio.nextStart, duration, None)]);
      audio := audio.(nextStart := audio.nextStart + duration);
      audio := audio.(active := audio.active + [source]);
      log := log + [Scheduled(source)];
    }

    method OnSourceEnded(source: nat)
      modifies this
      ensures Abs() == OnEnded(old(Abs()), source)
    {
      var kept := [];
      for k := 0 to |audio.active|
        invariant Abs() == old(Abs())
        invariant kept + Without(audio.active[k..], source) == Without(audio.active, source)
      {
        assert audio.active[k..][1..] == audio.active[k + 1..];
        if audio.active[k] != source {
          assert kept + Without(audio.active[k..], source) ==
                 kept + [audio.active[k]] + Without(audio.active[k + 1..], source);
          kept := kept + [audio.active[k]];
        }
      }
      assert kept + [] == kept;
      audio := audio.(active := kept);
      if !turn.processing && |audio.active| == 0 {
        turn := turn.(ai := false);
        log := log + [TurnEnded];
      }
    }

    /** Whatever the browser delivers, the client takes the transition of the state machine. */
    method Handle(e: Event)
      requires cfg.sampleRate > 0
      modifies this
      ensures Abs() == Step(cfg, old(Abs()), e)
    {
      match e.input
      case AudioFrame(level, backlogs, backlog, mode) => OnAudioProcess(e.now, level, backlogs, backlog, mode);
      case SocketOpened => open := true;
      case SocketClosing => open := false;
      case SocketClosed => OnSocketClose(e.now);
      case InterruptMessage => OnInterruptMessage(e.now);
      case TextMessage(content) => OnTextMessage(content);
      case EndOfResponseMessage => OnEndOfResponse();
      case OtherMessage =>
      case AudioChunk(bytes) => PlayAudioChunk(e.now, bytes);
      case SourceEnded(source) => OnSourceEnded(source);
    }
  }

  /** A page that has handled `es` is in the state the runs are proved about. */
  method HandleAll(cfg: Config, es: seq<Event>) returns (c: Client)
    requires cfg.sampleRate > 0
    ensures fresh(c) && c.cfg == cfg && c.Abs() == Run(cfg, es)
  {
    c := new Client(cfg);
    for k := 0 to |es|
      invariant fresh(c) && c.cfg == cfg && c.Abs() == Run(cfg, es[..k])
    {
      assert es[..k + 1][..k] == es[..k];
      c.Handle(es[k]);
    }
    assert es[..|es|] == es;
  }
}
