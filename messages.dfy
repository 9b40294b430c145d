/**
 * The messages the player sends to the audio worker (`PlayerMessage`), and
 * what a log of sent messages says about the playback the player asked for.
 * Volumes are in hundredths: `SetVolume(100)` is full volume.
 */
module Messages {
  import opened Wrappers
  import opened Paths

  datatype Command =
    | Play(path: Path)
    | Stop
    | Next
    | Previous
    | Quit
    | AddDirectory(dir: Path)
    | RemoveDirectory(index: nat)
    | SetVolume(volume: int)
    | Shuffle
    | AddToQueue(index: nat)

  /** The volume both sides start from (`1.0`). */
  const FullVolume: int := 100

  /** Whether the last `Play` or `Stop` of the log is a `Play`: the player asked for sound. */
  predicate Playing(log: seq<Command>)
    decreases |log|
  {
    if log == [] then false
    else
      match log[|log| - 1]
      case Play(_) => true
      case Stop => false
      case _ => Playing(log[..|log| - 1])
  }

  /** The volume of the last `SetVolume` in the log, or full volume when there is none. */
  function LastVolume(log: seq<Command>): int
    decreases |log|
  {
    if log == [] then FullVolume
    else
      match log[|log| - 1]
      case SetVolume(v) => v
      case _ => LastVolume(log[..|log| - 1])
  }

  /** The path of the last `Play` in the log. */
  function LastPlay(log: seq<Command>): Option<Path>
    decreases |log|
  {
    if log == [] then None
    else
      match log[|log| - 1]
      case Play(p) => Some(p)
      case _ => LastPlay(log[..|log| - 1])
  }

  /** The whole log was sent before any `Quit`. */
  predicate QuitFree(log: seq<Command>) {
    forall i :: 0 <= i < |log| ==> log[i] != Quit
  }

  /** Asking for sound needs a track: a log that is playing names a last `Play`. */
  lemma {:induction false} PlayingHasLastPlay(log: seq<Command>)
    ensures Playing(log) ==> LastPlay(log).Some?
    decreases |log|
  {
    if log != [] {
      PlayingHasLastPlay(log[..|log| - 1]);
    }
  }

  /** Appending a message changes `Playing` and `LastVolume` only as that message says. */
  lemma AppendOne(log: seq<Command>, c: Command)
    ensures Playing(log + [c]) == (if c.Play? then true else if c.Stop? then false else Playing(log))
    ensures LastVolume(log + [c]) == (if c.SetVolume? then c.volume else LastVolume(log))
    ensures LastPlay(log + [c]) == (if c.Play? then Some(c.path) else LastPlay(log))
  {
    assert (log + [c])[..|log|] == log;
  }
}
