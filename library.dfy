/**
 * Building the track list from directory walks, as `MusicPlayer::new` and
 * `MusicPlayer::add_directory` do: every walk entry whose extension is
 * `mp3`, `ogg` or `flac` becomes a `Song`, in walk order; the first entry the
 * walk cannot read stops the scan with an error.
 *
 * The walk itself (recursive, following links) and the tag reader are not
 * modelled: a walk is given as the sequence of entries it yields, each with
 * the tag read for that path.
 */
module Library {
  import opened Wrappers
  import opened Paths
  import opened Tracks

  /** One item yielded by the directory walk. */
  datatype Entry =
    | Found(path: Path, tag: Option<Tag>)   // a readable entry and what the tag reader gives for it
    | WalkError                             // `entry?` fails here

  /** The songs collected so far, and whether a walk error stopped the scan. */
  datatype Scanned = Scanned(songs: seq<Song>, failed: bool)

  /** The song an entry contributes: one for an audio file, none otherwise. */
  function SongsOf(path: Path, tag: Option<Tag>): (r: seq<Song>)
    ensures |r| <= 1
    ensures r != [] <==> IsAudioFile(path)
    ensures r != [] ==> r[0] == NewSong(path, tag)
  {
    if IsAudioFile(path) then [NewSong(path, tag)] else []
  }

  /**
   * The scan of one walk, entry by entry, up to the first walk error: at most
   * one song per entry, and a failure exactly when the walk yields an error.
   */
  function ScanEntries(entries: seq<Entry>): (r: Scanned)
    ensures |r.songs| <= |entries|
    ensures r.failed <==> WalkError in entries
    decreases |entries|
  {
    if entries == [] then Scanned([], false)
    else
      var init := entries[..|entries| - 1];
      assert entries == init + [entries[|entries| - 1]];
      var before := ScanEntries(init);
      if before.failed then before
      else
        match entries[|entries| - 1]
        case WalkError => Scanned(before.songs, true)
        case Found(p, tag) => Scanned(before.songs + SongsOf(p, tag), false)
  }

  /**
   * The scan of several walks in order; an error in one abandons the rest,
   * so the scan fails exactly when some walk yields an error.
   */
  function ScanWalks(walks: seq<seq<Entry>>): (r: Scanned)
    ensures r.failed <==> exists d :: 0 <= d < |walks| && WalkError in walks[d]
    decreases |walks|
  {
    if walks == [] then Scanned([], false)
    else
      var init := walks[..|walks| - 1];
      assert forall d :: 0 <= d < |init| ==> init[d] == walks[d];
      var before := ScanWalks(init);
      if before.failed then before
      else
        var last := ScanEntries(walks[|walks| - 1]);
        Scanned(before.songs + last.songs, last.failed)
  }

  /**
   * Scanning is compositional: when the first part of a walk has no error,
   * scanning the whole walk appends the second part's songs to the first
   * part's, and fails exactly when the second part's scan does.
   */
  lemma {:induction false} ScanEntriesAppend(a: seq<Entry>, b: seq<Entry>)
    requires WalkError !in a
    ensures ScanEntries(a + b) == Scanned(ScanEntries(a).songs + ScanEntries(b).songs, ScanEntries(b).failed)
    decreases |b|
  {
    if b == [] {
      assert a + b == a;
    } else {
      var init := b[..|b| - 1];
      assert (a + b)[..|a + b| - 1] == a + init;
      assert (a + b)[|a + b| - 1] == b[|b| - 1];
      ScanEntriesAppend(a, init);
    }
  }

  /**
   * Every audio file the walk yields before its first error is collected,
   * built from its path and tag.
   */
  lemma AudioFilesBeforeAnErrorAreScanned(entries: seq<Entry>, k: nat)
    requires k < |entries| && entries[k].Found? && IsAudioFile(entries[k].path)
    requires WalkError !in entries[..k]
    ensures NewSong(entries[k].path, entries[k].tag) in ScanEntries(entries).songs
  {
    var e := entries[k];
    var before, tail := entries[..k], entries[k..];
    var song := NewSong(e.path, e.tag);
    assert entries == before + tail;
    assert tail == [e] + tail[1..];
    assert [e][..0] == [];
    assert ScanEntries([e]) == Scanned([song], false);
    ScanEntriesAppend([e], tail[1..]);
    assert song in ScanEntries(tail).songs;
    ScanEntriesAppend(before, tail);
  }

  /**
   * Every collected song is an audio file found by the walk, built from that
   * entry's path and tag, and lies under `root` when every entry does.
   */
  lemma {:induction false} ScannedSongsAreAudioFiles(entries: seq<Entry>, root: Path)
    ensures forall s :: s in ScanEntries(entries).songs ==>
      IsAudioFile(s.path) && (exists tag :: Found(s.path, tag) in entries && s == NewSong(s.path, tag))
    ensures (forall e :: e in entries && e.Found? ==> StartsWith(e.path, root)) ==>
      forall s :: s in ScanEntries(entries).songs ==> StartsWith(s.path, root)
    decreases |entries|
  {
    if entries != [] {
      var init := entries[..|entries| - 1];
      var last := entries[|entries| - 1];
      ScannedSongsAreAudioFiles(init, root);
      assert forall e :: e in init ==> e in entries;
      assert last in entries;
    }
  }

  /**
   * One directory's scanning loop: walk the entries in order, collecting a
   * song for every audio file, and stop at the first walk error with the
   * songs found so far.
   */
  method ScanWalk(walk: seq<Entry>) returns (found: seq<Song>, failed: bool)
    ensures Scanned(found, failed) == ScanEntries(walk)
  {
    found := [];
    for k := 0 to |walk|
      invariant ScanEntries(walk[..k]) == Scanned(found, false)
    {
      assert walk[..k + 1][..k] == walk[..k];
      match walk[k]
      case WalkError =>
        ScanStopsAtFailure(walk, k + 1);
        return found, true;
      case Found(p, tag) =>
        if IsAudioFile(p) {
          found := found + [NewSong(p, tag)];
        }
    }
    assert walk[..|walk|] == walk;
    return found, false;
  }

  /**
   * The scanning loops of `MusicPlayer::new`: walk each directory in turn,
   * pushing a song for every audio entry; the first walk error fails the
   * whole construction.
   */
  method ScanDirectories(walks: seq<seq<Entry>>) returns (r: Result<seq<Song>, Error>)
    ensures ScanWalks(walks).failed ==> r == Failure(WalkFailed)
    ensures !ScanWalks(walks).failed ==> r == Success(ScanWalks(walks).songs)
  {
    var songs: seq<Song> := [];
    for d := 0 to |walks|
      invariant ScanWalks(walks[..d]) == Scanned(songs, false)
    {
      assert walks[..d + 1][..d] == walks[..d];
      var found, failed := ScanWalk(walks[d]);
      songs := songs + found;
      if failed {
        StopsAtFailedWalk(walks, d + 1);
        return Failure(WalkFailed);
      }
    }
    assert walks[..|walks|] == walks;
    return Success(songs);
  }

  /** Once one walk's scan has failed, the entries after it change nothing. */
  lemma {:induction false} ScanStopsAtFailure(entries: seq<Entry>, k: nat)
    requires k <= |entries| && ScanEntries(entries[..k]).failed
    ensures ScanEntries(entries) == ScanEntries(entries[..k])
    decreases |entries| - k
  {
    if k < |entries| {
      assert entries[..k + 1][..k] == entries[..k];
      ScanStopsAtFailure(entries, k + 1);
    } else {
      assert entries[..k] == entries;
    }
  }

  /** Once a directory's scan has failed, the directories after it change nothing. */
  lemma {:induction false} StopsAtFailedWalk(walks: seq<seq<Entry>>, d: nat)
    requires d <= |walks| && ScanWalks(walks[..d]).failed
    ensures ScanWalks(walks) == ScanWalks(walks[..d])
    decreases |walks| - d
  {
    if d < |walks| {
      assert walks[..d + 1][..d] == walks[..d];
      StopsAtFailedWalk(walks, d + 1);
    } else {
      assert walks[..d] == walks;
    }
  }
}
