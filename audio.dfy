/**
 * The audio worker: the loop that receives `PlayerMessage`s and drives at
 * most one output sink. Opening and decoding a file is replaced by the set
 * `playable` of paths that open and decode; the sink itself is reduced to
 * the track it plays, its volume and whether it is playing.
 */
module Audio {
  import opened Wrappers
  import opened Paths
  import opened Messages

  /** A sink with one track appended. */
  datatype Sink = Sink(path: Path, volume: int, playing: bool)

  /** The worker's state: its sink, `current_volume`, and whether it still receives. */
  datatype Engine = Engine(sink: Option<Sink>, volume: int, running: bool)

  const Idle: Engine := Engine(None, FullVolume, true)

  /** One turn of the worker loop. */
  function Step(e: Engine, cmd: Command, playable: set<Path>): (r: Engine)
    ensures cmd.Quit? <==> !r.running
    ensures !cmd.SetVolume? ==> r.volume == e.volume
    ensures !cmd.Play? && !cmd.Stop? && !cmd.SetVolume? ==> r.sink == e.sink
  {
    match cmd
    case Play(p) =>
      var installed := if p in playable then Some(Sink(p, e.volume, true)) else None;
      Engine(installed, e.volume, true)
    case SetVolume(v) =>
      var sink := match e.sink case None => None case Some(s) => Some(s.(volume := v));
      Engine(sink, v, true)
    case Stop =>
      var sink := match e.sink case None => None case Some(s) => Some(s.(playing := false));
      Engine(sink, e.volume, true)
    case Quit => e.(running := false)
    case _ => e.(running := true)
  }

  /**
   * The worker after it has received `msgs`, from the idle state; nothing
   * after `Quit` is seen, so it is still receiving exactly when no `Quit` came.
   */
  function Run(msgs: seq<Command>, playable: set<Path>): (r: Engine)
    ensures r.running <==> QuitFree(msgs)
    decreases |msgs|
  {
    if msgs == [] then Idle
    else
      assert forall i :: 0 <= i < |msgs| - 1 ==> msgs[..|msgs| - 1][i] == msgs[i];
      var e := Run(msgs[..|msgs| - 1], playable);
      if e.running then Step(e, msgs[|msgs| - 1], playable) else e
  }

  /**
   * The worker loop (the `while let Ok(msg) = rx.recv()` of `MusicPlayer::new`)
   * over the messages received before the channel closes.
   */
  method Worker(msgs: seq<Command>, playable: set<Path>) returns (e: Engine)
    ensures e == Run(msgs, playable)
  {
    var sink: Option<Sink> := None;
    var currentVolume := FullVolume;
    var i := 0;
    while i < |msgs|
      invariant i <= |msgs|
      invariant Run(msgs[..i], playable) == Engine(sink, currentVolume, true)
    {
      assert msgs[..i + 1][..i] == msgs[..i];
      match msgs[i] {
        case Play(p) =>
          sink := None;
          if p in playable {
            sink := Some(Sink(p, currentVolume, true));
          }
        case SetVolume(v) =>
          currentVolume := v;
          if sink.Some? {
            sink := Some(sink.value.(volume := v));
          }
        case Stop =>
          if sink.Some? {
            sink := Some(sink.value.(playing := false));
          }
        case Quit =>
          IgnoresAfterStop(msgs, i + 1, playable);
          return Engine(sink, currentVolume, false);
        case _ =>
      }
      i := i + 1;
    }
    assert msgs[..i] == msgs;
    return Engine(sink, currentVolume, true);
  }

  /** Once the worker has stopped receiving, later messages change nothing. */
  lemma {:induction false} IgnoresAfterStop(msgs: seq<Command>, k: nat, playable: set<Path>)
    requires k <= |msgs| && !Run(msgs[..k], playable).running
    ensures Run(msgs, playable) == Run(msgs[..k], playable)
    decreases |msgs| - k
  {
    if k < |msgs| {
      assert msgs[..k + 1][..k] == msgs[..k];
      IgnoresAfterStop(msgs, k + 1, playable);
    } else {
      assert msgs[..k] == msgs;
    }
  }

  /** `Quit` ends processing: whatever follows it is ignored. */
  lemma QuitEndsProcessing(before: seq<Command>, after: seq<Command>, playable: set<Path>)
    ensures !Run(before + [Quit] + after, playable).running
    ensures Run(before + [Quit] + after, playable) == Run(before + [Quit], playable)
  {
    var msgs := before + [Quit] + after;
    var k := |before| + 1;
    assert msgs[..k] == before + [Quit];
    assert (before + [Quit])[..|before|] == before;
    assert !Run(msgs[..k], playable).running;
    IgnoresAfterStop(msgs, k, playable);
  }

  /**
   * Before any `Quit` the worker's state is determined by the log: its volume
   * is the last `SetVolume`, and its sink plays the last `Play`ed path when
   * that path decodes, at that volume, until a later `Stop`.
   */
  lemma {:induction false} RunFollowsLog(msgs: seq<Command>, playable: set<Path>)
    requires QuitFree(msgs)
    ensures Run(msgs, playable).running
    ensures Run(msgs, playable).volume == LastVolume(msgs)
    ensures Run(msgs, playable).sink ==
      match LastPlay(msgs)
      case None => None
      case Some(p) => if p in playable then Some(Sink(p, LastVolume(msgs), Playing(msgs))) else None
    decreases |msgs|
  {
    if msgs != [] {
      var init := msgs[..|msgs| - 1];
      var c := msgs[|msgs| - 1];
      assert QuitFree(init);
      RunFollowsLog(init, playable);
      assert msgs == init + [c];
      AppendOne(init, c);
      if c.Stop? || c.SetVolume? {
        PlayingHasLastPlay(init);
      }
    }
  }

  /**
   * When every played path decodes, the worker is producing sound exactly when
   * the player last asked for it, and its volume is the player's last request.
   */
  lemma SoundMatchesRequests(msgs: seq<Command>, playable: set<Path>)
    requires QuitFree(msgs)
    requires forall p :: Play(p) in msgs ==> p in playable
    ensures var e := Run(msgs, playable);
      && (e.sink.Some? && e.sink.value.playing <==> Playing(msgs))
      && e.volume == LastVolume(msgs)
      && (e.sink.Some? ==> e.sink.value.volume == LastVolume(msgs))
  {
    RunFollowsLog(msgs, playable);
    PlayingHasLastPlay(msgs);
    LastPlayWasSent(msgs);
  }

  lemma {:induction false} LastPlayWasSent(msgs: seq<Command>)
    ensures LastPlay(msgs).Some? ==> Play(LastPlay(msgs).value) in msgs
    decreases |msgs|
  {
    if msgs != [] {
      LastPlayWasSent(msgs[..|msgs| - 1]);
      assert msgs == msgs[..|msgs| - 1] + [msgs[|msgs| - 1]];
    }
  }

  /**
   * `Play` discards the old sink: what follows depends only on the remembered
   * volume, and is a playing sink for `p` at that volume when `p` decodes,
   * or no sink at all when it does not.
   */
  lemma PlayDiscardsOldSink(e: Engine, e': Engine, p: Path, playable: set<Path>)
    requires e.volume == e'.volume
    ensures Step(e, Play(p), playable) == Step(e', Play(p), playable)
    ensures Step(e, Play(p), playable).sink.Some? <==> p in playable
    ensures Step(e, Play(p), playable).sink.Some? ==> Step(e, Play(p), playable).sink.value == Sink(p, e.volume, true)
  {
  }

  /** A volume set while nothing plays applies to the next sink. */
  lemma VolumeAppliesToNextSink(msgs: seq<Command>, v: int, p: Path, playable: set<Path>)
    requires QuitFree(msgs) && p in playable
    ensures Run(msgs + [SetVolume(v), Play(p)], playable).sink == Some(Sink(p, v, true))
  {
    var m1 := msgs + [SetVolume(v)];
    var m2 := m1 + [Play(p)];
    assert msgs + [SetVolume(v), Play(p)] == m2;
    assert m2[..|m1|] == m1 && m1[..|msgs|] == msgs;
  }

  /** Stopping twice is the same as stopping once; the sink is kept, paused. */
  lemma StopIsIdempotent(e: Engine, playable: set<Path>)
    requires e.running
    ensures Step(Step(e, Stop, playable), Stop, playable) == Step(e, Stop, playable)
    ensures Step(e, Stop, playable).sink.Some? <==> e.sink.Some?
    ensures Step(e, Stop, playable).sink.Some? ==> !Step(e, Stop, playable).sink.value.playing
  {
  }

  /** The messages the worker does not handle leave it as it was. */
  lemma OtherMessagesAreIgnored(e: Engine, cmd: Command, playable: set<Path>)
    requires e.running
    requires cmd.Next? || cmd.Previous? || cmd.AddDirectory? || cmd.RemoveDirectory? || cmd.Shuffle? || cmd.AddToQueue?
    ensures Step(e, cmd, playable) == e
  {
  }
}
