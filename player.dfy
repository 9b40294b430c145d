/**
 * `MusicPlayer`: the track list, the playback cursor, the play queue, the
 * music directories and the volume, changed in place by the key handlers.
 * Every message the player puts on the channel to the audio worker is
 * appended to `sent`, in order.
 */
module Player {
  import opened Wrappers
  import opened Paths
  import opened Tracks
  import opened Library
  import opened Messages

  /** The cursor after `next` with an empty queue: one step on, wrapping to the front. */
  function NextIndex(i: nat, n: nat): (r: nat)
    requires n > 0
    ensures r < n
  {
    (i + 1) % n
  }

  /** The cursor after `previous`: one step back, wrapping from the front to the last track. */
  function PreviousIndex(i: nat, n: nat): (r: nat)
    requires i > 0 || n > 0
    ensures i > 0 ==> r + 1 == i
    ensures i == 0 ==> r + 1 == n
  {
    if i > 0 then i - 1 else n - 1
  }

  /** On a non-empty library, `previous` undoes `next`, including the wrap from the last track to the first. */
  lemma PreviousUndoesNext(i: nat, n: nat)
    requires i < n
    ensures PreviousIndex(NextIndex(i, n), n) == i
  {
    if i + 1 < n {
      ModBelow(i + 1, n);
    } else {
      assert i + 1 == n && n % n == 0;
    }
  }

  /** And `next` undoes `previous`. */
  lemma NextUndoesPrevious(i: nat, n: nat)
    requires i < n
    ensures NextIndex(PreviousIndex(i, n), n) == i
  {
    if i > 0 {
      assert PreviousIndex(i, n) + 1 == i;
    } else {
      assert PreviousIndex(i, n) + 1 == n;
    }
  }

  /** `volume.clamp(0.0, 1.0)`, in hundredths. */
  function Clamp(v: int): (r: int)
    ensures 0 <= r <= FullVolume
    ensures 0 <= v <= FullVolume ==> r == v
    ensures v < 0 ==> r == 0
    ensures v > FullVolume ==> r == FullVolume
  {
    if v < 0 then 0 else if v > FullVolume then FullVolume else v
  }

  /** `songs.retain(|song| !song.path.starts_with(dir))`. */
  function Outside(songs: seq<Song>, dir: Path): (r: seq<Song>)
    ensures |r| <= |songs|
  {
    if songs == [] then []
    else
      var n := |songs| - 1;
      var before := Outside(songs[..n], dir);
      if StartsWith(songs[n].path, dir) then before else before + [songs[n]]
  }

  /** Every song under `dir`, in order. */
  function Inside(songs: seq<Song>, dir: Path): seq<Song> {
    if songs == [] then []
    else
      var n := |songs| - 1;
      var before := Inside(songs[..n], dir);
      if StartsWith(songs[n].path, dir) then before + [songs[n]] else before
  }

  /** `retain` keeps exactly the songs outside `dir`. */
  lemma {:induction false} OutsideKeepsTheRest(songs: seq<Song>, dir: Path)
    ensures forall s :: s in Outside(songs, dir) <==> s in songs && !StartsWith(s.path, dir)
    decreases |songs|
  {
    if songs != [] {
      var n := |songs| - 1;
      OutsideKeepsTheRest(songs[..n], dir);
      assert songs == songs[..n] + [songs[n]];
    }
  }

  /** `retain` keeps the order: it works piece by piece. */
  lemma {:induction false} OutsideDistributes(a: seq<Song>, b: seq<Song>, dir: Path)
    ensures Outside(a + b, dir) == Outside(a, dir) + Outside(b, dir)
    decreases |b|
  {
    if b == [] {
      assert a + b == a;
    } else {
      var n := |b| - 1;
      var ab := a + b;
      assert ab[..|a| + n] == a + b[..n];
      assert ab[|a| + n] == b[n];
      OutsideDistributes(a, b[..n], dir);
      assert Outside(ab, dir) == Outside(a + b[..n], dir) + (if StartsWith(b[n].path, dir) then [] else [b[n]]);
      assert Outside(b, dir) == Outside(b[..n], dir) + (if StartsWith(b[n].path, dir) then [] else [b[n]]);
    }
  }

  /** Removing a directory drops exactly the songs under it: nothing is lost or duplicated. */
  lemma {:induction false} OutsideAndInsidePartition(songs: seq<Song>, dir: Path)
    ensures multiset(Outside(songs, dir)) + multiset(Inside(songs, dir)) == multiset(songs)
    decreases |songs|
  {
    if songs != [] {
      var n := |songs| - 1;
      OutsideAndInsidePartition(songs[..n], dir);
      assert songs == songs[..n] + [songs[n]];
    }
  }

  /**
   * Fisher–Yates as `SliceRandom::shuffle` performs it: for each position
   * from the last down to the second, swap it with a position drawn from the
   * ones not yet fixed. The random numbers are the input `draws`, each reduced
   * to the range it is drawn from; missing draws count as 0.
   */
  function ShuffleWith<T>(s: seq<T>, draws: seq<nat>): (r: seq<T>)
    ensures multiset(r) == multiset(s)
    ensures |r| == |s|
    decreases |s|
  {
    if |s| <= 1 then s
    else
      var i := |s| - 1;
      var j := Draw(draws, i + 1);
      var swapped := Swap(s, i, j);
      var rest := if draws == [] then [] else draws[1..];
      assert swapped == swapped[..i] + [swapped[i]];
      ShuffleWith(swapped[..i], rest) + [swapped[i]]
  }

  /** The next random position below `m`: the first draw reduced modulo `m`, or 0 when none is left. */
  function Draw(draws: seq<nat>, m: nat): (j: nat)
    requires m > 0
    ensures j < m
    ensures draws != [] && draws[0] < m ==> j == draws[0]
  {
    var d := if draws == [] then 0 else draws[0];
    if d < m then ModBelow(d, m); d else d % m
  }

  /** `s` with the elements at `i` and `j` exchanged. */
  function Swap<T>(s: seq<T>, i: nat, j: nat): (r: seq<T>)
    requires i < |s| && j < |s|
    ensures |r| == |s| && r[i] == s[j]
    ensures multiset(r) == multiset(s)
  {
    s[i := s[j]][j := s[i]]
  }

  /** Drawing `j` first puts `s[j]` last and shuffles the rest with the remaining draws. */
  lemma ShuffleStep<T>(s: seq<T>, j: nat, rest: seq<nat>)
    requires 1 < |s| && j < |s|
    ensures ShuffleWith(s, [j] + rest) == ShuffleWith(Swap(s, |s| - 1, j)[..|s| - 1], rest) + [s[j]]
  {
    var draws := [j] + rest;
    assert draws != [] && draws[0] == j && draws[1..] == rest;
  }

  lemma ModBelow(j: nat, m: nat)
    requires j < m
    ensures j % m == j
  {
  }

  /**
   * Every arrangement of a sequence comes out of some draws, which this lemma
   * constructs: the model leaves no order out.
   */
  lemma {:induction false} EveryOrderIsReachable<T>(s: seq<T>, target: seq<T>) returns (draws: seq<nat>)
    requires multiset(target) == multiset(s)
    ensures ShuffleWith(s, draws) == target
    decreases |s|, 1
  {
    if |s| <= 1 {
      SameShortSequence(s, target);
      draws := [];
    } else {
      draws := LongerOrderIsReachable(s, target);
    }
  }

  lemma {:induction false} LongerOrderIsReachable<T>(s: seq<T>, target: seq<T>) returns (draws: seq<nat>)
    requires multiset(target) == multiset(s) && |s| > 1
    ensures ShuffleWith(s, draws) == target
    decreases |s|, 0
  {
    var i := |s| - 1;
    var j := PickLast(s, target);
    var swapped := Swap(s, i, j);
    var rest := EveryOrderIsReachable(swapped[..i], target[..i]);
    draws := [j] + rest;
    ShuffleStep(s, j, rest);
    LastPlacedLast(ShuffleWith(s, draws), ShuffleWith(swapped[..i], rest), target, s[j]);
  }

  /** A sequence built as `target`'s prefix followed by `target`'s last element is `target`. */
  lemma LastPlacedLast<T>(built: seq<T>, init: seq<T>, target: seq<T>, x: T)
    requires target != [] && built == init + [x]
    requires init == target[..|target| - 1] && x == target[|target| - 1]
    ensures built == target
  {
    assert target == target[..|target| - 1] + [target[|target| - 1]];
  }

  lemma SameShortSequence<T>(s: seq<T>, target: seq<T>)
    requires multiset(target) == multiset(s) && |s| <= 1
    ensures target == s
  {
    assert |target| == |multiset(target)| == |s|;
    if |s| == 1 {
      assert target[0] in multiset(s);
    }
  }

  /** Where the last element of `target` sits in `s`, and what is left once it is swapped to the end. */
  lemma PickLast<T>(s: seq<T>, target: seq<T>) returns (j: nat)
    requires multiset(target) == multiset(s) && |s| > 1
    ensures j < |s| && |target| == |s| && s[j] == target[|s| - 1]
    ensures var i := |s| - 1;
      multiset(Swap(s, i, j)[..i]) == multiset(target[..i])
  {
    assert |target| == |multiset(target)| == |s|;
    var i := |s| - 1;
    assert target[i] in multiset(s);
    j :| 0 <= j < |s| && s[j] == target[i];
    var swapped := Swap(s, i, j);
    MultisetOfInit(swapped);
    MultisetOfInit(target);
    assert swapped[i] == target[i];
  }

  lemma MultisetOfInit<T>(s: seq<T>)
    requires s != []
    ensures multiset(s[..|s| - 1]) == multiset(s) - multiset{s[|s| - 1]}
  {
    assert s == s[..|s| - 1] + [s[|s| - 1]];
  }

  class MusicPlayer {
    var songs: seq<Song>
    var currentIndex: nat
    var isPlaying: bool
    var musicDirs: seq<Path>
    var volume: int
    var queue: seq<nat>
    var sent: seq<Command>

    /**
     * The player's view of playback agrees with what it has told the worker:
     * it believes it is playing exactly when its last `Play`/`Stop` message
     * was `Play`, and its volume is the last one it sent.
     */
    ghost predicate Valid()
      reads this
    {
      && 0 <= volume <= FullVolume
      && isPlaying == Playing(sent)
      && volume == LastVolume(sent)
      && QuitFree(sent)
    }

    /** The state `MusicPlayer::new` ends in, once the scan has produced `songs`. */
    constructor Create(dirs: seq<Path>, tracks: seq<Song>)
      ensures Valid()
      ensures songs == tracks && musicDirs == dirs
      ensures currentIndex == 0 && !isPlaying && volume == FullVolume && queue == [] && sent == []
    {
      songs := tracks;
      currentIndex := 0;
      isPlaying := false;
      musicDirs := dirs;
      volume := FullVolume;
      queue := [];
      sent := [];
    }

    /**
     * `MusicPlayer::new`: scan every directory (one walk per directory), then
     * start idle on the first track at full volume. A walk error fails the
     * construction.
     */
    static method New(dirs: seq<Path>, walks: seq<seq<Entry>>) returns (r: Result<MusicPlayer, Error>)
      requires |walks| == |dirs|
      ensures r.Failure? <==> ScanWalks(walks).failed
      ensures r.Failure? ==> r.error == WalkFailed
      ensures r.Success? ==> fresh(r.value) && r.value.Valid()
      ensures r.Success? ==> r.value.songs == ScanWalks(walks).songs && r.value.musicDirs == dirs
      ensures r.Success? ==> r.value.currentIndex == 0 && !r.value.isPlaying && r.value.queue == [] && r.value.sent == []
    {
      var scanned := ScanDirectories(walks);
      if scanned.Failure? {
        return Failure(scanned.error);
      }
      var p := new MusicPlayer.Create(dirs, scanned.value);
      return Success(p);
    }

    /** Sending a message other than `Quit` keeps the log free of `Quit`. */
    static lemma SendKeepsQuitFree(log: seq<Command>, c: Command)
      requires QuitFree(log) && c != Quit
      ensures QuitFree(log + [c])
    {
    }

    /** `play_current`: play the track under the cursor, or do nothing when the cursor is past the end. */
    method PlayCurrent()
      requires Valid()
      modifies this
      ensures Valid()
      ensures songs == old(songs) && currentIndex == old(currentIndex) && volume == old(volume)
      ensures queue == old(queue) && musicDirs == old(musicDirs)
      ensures currentIndex < |songs| ==> sent == old(sent) + [Play(songs[currentIndex].path)] && isPlaying
      ensures currentIndex >= |songs| ==> sent == old(sent) && isPlaying == old(isPlaying)
    {
      if currentIndex < |songs| {
        AppendOne(sent, Play(songs[currentIndex].path));
        SendKeepsQuitFree(sent, Play(songs[currentIndex].path));
        sent := sent + [Play(songs[currentIndex].path)];
        isPlaying := true;
      }
    }

    /** `stop`: always tell the worker to stop. */
    method Stop()
      requires Valid()
      modifies this
      ensures Valid()
      ensures sent == old(sent) + [Messages.Stop] && !isPlaying
      ensures songs == old(songs) && currentIndex == old(currentIndex) && volume == old(volume)
      ensures queue == old(queue) && musicDirs == old(musicDirs)
    {
      AppendOne(sent, Messages.Stop);
      SendKeepsQuitFree(sent, Messages.Stop);
      sent := sent + [Messages.Stop];
      isPlaying := false;
    }

    /** Stopping twice leaves the player as stopping once does, apart from the second message. */
    method StopTwice()
      requires Valid()
      modifies this
      ensures Valid() && !isPlaying
      ensures sent == old(sent) + [Messages.Stop, Messages.Stop]
      ensures songs == old(songs) && currentIndex == old(currentIndex) && volume == old(volume)
      ensures queue == old(queue) && musicDirs == old(musicDirs)
    {
      Stop();
      Stop();
    }

    /**
     * `next`: take the front of the queue if there is one, unchecked;
     * otherwise step on, wrapping. Playback is re-issued only while playing.
     * On an empty library with an empty queue the source divides by zero.
     */
    method Next()
      requires Valid() && (queue != [] || songs != [])
      modifies this
      ensures Valid()
      ensures songs == old(songs) && volume == old(volume) && musicDirs == old(musicDirs)
      ensures old(queue) != [] ==> currentIndex == old(queue)[0] && queue == old(queue)[1..]
      ensures old(queue) == [] ==> queue == [] && currentIndex == NextIndex(old(currentIndex), |songs|)
      ensures old(isPlaying) && currentIndex < |songs| ==> sent == old(sent) + [Play(songs[currentIndex].path)]
      ensures !(old(isPlaying) && currentIndex < |songs|) ==> sent == old(sent)
      ensures isPlaying == old(isPlaying)
    {
      if queue != [] {
        currentIndex := queue[0];
        queue := queue[1..];
      } else {
        currentIndex := NextIndex(currentIndex, |songs|);
      }
      if isPlaying {
        PlayCurrent();
      }
    }

    /**
     * `previous`: step back, wrapping from the first track to the last.
     * On an empty library at position 0 the source underflows.
     */
    method Previous()
      requires Valid() && (currentIndex > 0 || songs != [])
      modifies this
      ensures Valid()
      ensures songs == old(songs) && volume == old(volume) && queue == old(queue) && musicDirs == old(musicDirs)
      ensures currentIndex == PreviousIndex(old(currentIndex), |songs|)
      ensures old(isPlaying) && currentIndex < |songs| ==> sent == old(sent) + [Play(songs[currentIndex].path)]
      ensures !(old(isPlaying) && currentIndex < |songs|) ==> sent == old(sent)
      ensures isPlaying == old(isPlaying)
    {
      currentIndex := PreviousIndex(currentIndex, |songs|);
      if isPlaying {
        PlayCurrent();
      }
    }

    /** With nothing queued, `next` then `previous` puts the cursor back where it was. */
    method NextThenPrevious()
      requires Valid() && queue == [] && currentIndex < |songs|
      modifies this
      ensures Valid()
      ensures currentIndex == old(currentIndex) && queue == [] && songs == old(songs)
    {
      ghost var start := currentIndex;
      Next();
      Previous();
      PreviousUndoesNext(start, |songs|);
    }

    /**
     * `add_directory`: a directory that does not exist is refused; otherwise
     * its walk adds every audio file to the end of the track list. A walk
     * error stops the scan with the songs found so far kept, and the
     * directory is not recorded.
     */
    method AddDirectory(dir: Path, dirExists: bool, walk: seq<Entry>) returns (r: Result<(), Error>)
      requires Valid()
      modifies this
      ensures Valid()
      ensures !dirExists ==> r == Failure(DirectoryNotFound) && songs == old(songs)
      ensures dirExists ==> songs == old(songs) + ScanEntries(walk).songs
      ensures dirExists && ScanEntries(walk).failed ==> r == Failure(WalkFailed)
      ensures r.Success? <==> dirExists && !ScanEntries(walk).failed
      ensures musicDirs == if r.Success? then old(musicDirs) + [dir] else old(musicDirs)
      ensures currentIndex == old(currentIndex) && isPlaying == old(isPlaying) && volume == old(volume)
      ensures queue == old(queue) && sent == old(sent)
    {
      if !dirExists {
        return Failure(DirectoryNotFound);
      }
      // The loop pushes as it goes, so the songs found before a walk error stay.
      var found, failed := ScanWalk(walk);
      songs := songs + found;
      if failed {
        return Failure(WalkFailed);
      }
      musicDirs := musicDirs + [dir];
      return Success(());
    }

    /**
     * `remove_directory`: forget directory `k` and every song under it, and
     * pull the cursor back onto the last remaining track if it fell off the
     * end. Queued positions are left as they are.
     */
    method RemoveDirectory(k: nat) returns (r: Result<(), Error>)
      requires Valid()
      modifies this
      ensures Valid()
      ensures k >= |old(musicDirs)| ==>
        (r == Failure(InvalidDirectoryIndex) && songs == old(songs)
         && musicDirs == old(musicDirs) && currentIndex == old(currentIndex))
      ensures k < |old(musicDirs)| ==>
        (r == Success(())
         && songs == Outside(old(songs), old(musicDirs)[k])
         && musicDirs == old(musicDirs)[..k] + old(musicDirs)[k + 1..]
         && (currentIndex < |songs| || (songs == [] && currentIndex == 0))
         && (old(currentIndex) < |songs| ==> currentIndex == old(currentIndex))
         && (old(currentIndex) >= |songs| && songs != [] ==> currentIndex == |songs| - 1))
      ensures isPlaying == old(isPlaying) && volume == old(volume) && queue == old(queue) && sent == old(sent)
    {
      if k >= |musicDirs| {
        return Failure(InvalidDirectoryIndex);
      }
      songs := Outside(songs, musicDirs[k]);
      musicDirs := musicDirs[..k] + musicDirs[k + 1..];
      if currentIndex >= |songs| {
        currentIndex := if |songs| == 0 then 0 else |songs| - 1;
      }
      return Success(());
    }

    /** `set_volume`: move the volume by `delta`, held to [0, 100], and always tell the worker. */
    method SetVolume(delta: int)
      requires Valid()
      modifies this
      ensures Valid()
      ensures volume == Clamp(old(volume) + delta)
      ensures sent == old(sent) + [Messages.SetVolume(volume)]
      ensures songs == old(songs) && currentIndex == old(currentIndex) && isPlaying == old(isPlaying)
      ensures queue == old(queue) && musicDirs == old(musicDirs)
    {
      volume := Clamp(volume + delta);
      AppendOne(sent, Messages.SetVolume(volume));
      SendKeepsQuitFree(sent, Messages.SetVolume(volume));
      sent := sent + [Messages.SetVolume(volume)];
    }

    /**
     * `shuffle`: reorder the track list, go back to its first track, and
     * restart playback there if something was playing. Queued positions are
     * left as they are.
     */
    method Shuffle(draws: seq<nat>)
      requires Valid()
      modifies this
      ensures Valid()
      ensures songs == ShuffleWith(old(songs), draws)
      ensures multiset(songs) == multiset(old(songs)) && currentIndex == 0
      ensures old(isPlaying) && songs != [] ==> sent == old(sent) + [Play(songs[0].path)]
      ensures !(old(isPlaying) && songs != []) ==> sent == old(sent)
      ensures isPlaying == old(isPlaying)
      ensures volume == old(volume) && queue == old(queue) && musicDirs == old(musicDirs)
    {
      songs := ShuffleWith(songs, draws);
      currentIndex := 0;
      if isPlaying {
        PlayCurrent();
      }
    }

    /** `add_to_queue`: queue position `i` when it names a track; otherwise do nothing. */
    method AddToQueue(i: nat)
      requires Valid()
      modifies this
      ensures Valid()
      ensures i < |songs| ==> queue == old(queue) + [i]
      ensures i >= |songs| ==> queue == old(queue)
      ensures songs == old(songs) && currentIndex == old(currentIndex) && isPlaying == old(isPlaying)
      ensures volume == old(volume) && musicDirs == old(musicDirs) && sent == old(sent)
    {
      if i < |songs| {
        queue := queue + [i];
      }
    }
  }
}
