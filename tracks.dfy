/**
 * Tracks (`Song`) and how one is built from a file path and the optional
 * ID3 tag read from that file (`Song::new`).
 */
module Tracks {
  import opened Wrappers
  import opened Text
  import opened Paths

  /** An indexed audio file; never changed after it is built. */
  datatype Song = Song(path: Path, title: String, artist: String, album: String, genre: String)

  /**
   * What the tag reader returned for a file: each field may be missing.
   * `None` in place of a `Tag` means the tag could not be read at all.
   */
  datatype Tag = Tag(title: Option<String>, artist: Option<String>, album: Option<String>, genre: Option<String>)

  const UnknownArtist: String := "Unknown Artist"
  const UnknownAlbum: String := "Unknown Album"
  const UnknownGenre: String := "Unknown Genre"
  const Separator: String := " - "

  /** The extensions the library indexes, matched case-sensitively. */
  predicate IsAudioFile(p: Path): (b: bool)
    ensures b ==> FileStem(p).Some? && FileStem(p).value != []
  {
    Extension(p) == Some("mp3") || Extension(p) == Some("ogg") || Extension(p) == Some("flac")
  }

  /** Which files a walk indexes is decided by the extension alone, letter case included. */
  lemma AudioFileByExtension(dirs: seq<String>, stem: String, ext: String)
    requires stem != [] && ext != [] && '.' !in ext
    ensures IsAudioFile(Path(dirs + [stem + "." + ext])) <==> ext == "mp3" || ext == "ogg" || ext == "flac"
    ensures FileStem(Path(dirs + [stem + "." + ext])) == Some(stem)
  {
    var p := Path(dirs + [stem + "." + ext]);
    assert p.components[|p.components| - 1] == stem + "." + ext;
    assert |stem + "." + ext| > 2;
    SplitExtensionOfJoined(stem, ext);
  }

  /** An upper-case `.MP3` is not indexed. */
  lemma UpperCaseExtensionIsSkipped(dirs: seq<String>, stem: String)
    requires stem != []
    ensures !IsAudioFile(Path(dirs + [stem + ".MP3"]))
  {
    AudioFileByExtension(dirs, stem, "MP3");
    assert "MP3" != "mp3" && "MP3" != "ogg" && "MP3" != "flac";
  }

  /**
   * The artist clean-up applied to both file-name and tag artists: pad `&`,
   * `feat.` and `featuring` with spaces, replace each non-overlapping double
   * space by one space (a single pass), then trim.
   */
  function NormaliseArtist(raw: String): (r: String)
    ensures r != [] ==> !IsWhitespace(r[0]) && !IsWhitespace(r[|r| - 1])
  {
    var padded := Replace(Replace(Replace(raw, "&", " & "), "feat.", " feat. "), "featuring", " featuring ");
    Trim(Replace(padded, "  ", " "))
  }

  /** A present field wins over the default. */
  function OrDefault(field: Option<String>, default: String): String {
    match field
    case Some(v) => v
    case None => default
  }

  /** The file stem as `Song::new` reads it: empty when the path has no file name. */
  function StemOf(p: Path): String {
    OrDefault(FileStem(p), "")
  }

  /** `(artist, title)` guessed from the stem, split at the first `" - "`. */
  function FromFileName(stem: String): (r: (String, String))
    ensures |r.1| <= |stem| && r.1 == stem[|stem| - |r.1|..]
    ensures !Contains(stem, Separator) ==> r == (UnknownArtist, stem)
  {
    match SplitOnce(stem, Separator)
    case Some((left, right)) => (NormaliseArtist(left), right)
    case None => (UnknownArtist, stem)
  }

  /** `Song::new`: file-name guesses and defaults, each overridden by a tag field that is present. */
  function NewSong(path: Path, tag: Option<Tag>): (s: Song)
    ensures s.path == path
  {
    var (artist, title) := FromFileName(StemOf(path));
    match tag
    case None => Song(path, title, artist, UnknownAlbum, UnknownGenre)
    case Some(t) =>
      Song(path,
           OrDefault(t.title, title),
           match t.artist case Some(a) => NormaliseArtist(a) case None => artist,
           OrDefault(t.album, UnknownAlbum),
           OrDefault(t.genre, UnknownGenre))
  }

  /** The tag supplies neither title nor artist, so both come from the file name. */
  predicate NoTitleOrArtist(tag: Option<Tag>) {
    tag.None? || (tag.value.title.None? && tag.value.artist.None?)
  }

  /** Without a tag title and artist, both come from the file stem. */
  lemma FileNameGivesTitleAndArtist(path: Path, tag: Option<Tag>)
    requires NoTitleOrArtist(tag)
    ensures (NewSong(path, tag).artist, NewSong(path, tag).title) == FromFileName(StemOf(path))
  {
  }

  /**
   * A stem containing `" - "` is `raw + " - " + title`, where `raw` holds no
   * earlier separator and the artist is `raw` normalised; a stem without one
   * gives "Unknown Artist" and the whole stem as title.
   */
  lemma {:induction false} FromFileNameSplitsAtFirstSeparator(stem: String)
    ensures var (artist, title) := FromFileName(stem);
      if Contains(stem, Separator) then
        |title| + |Separator| <= |stem| &&
        var raw := stem[..|stem| - |title| - |Separator|];
        stem == raw + Separator + title &&
        (forall i: nat :: i < |raw| ==> !OccursAt(stem, Separator, i)) &&
        artist == NormaliseArtist(raw)
      else
        artist == UnknownArtist && title == stem
  {
    match SplitOnce(stem, Separator)
    case Some((left, right)) =>
      assert FromFileName(stem) == (NormaliseArtist(left), right);
      assert stem == left + Separator + right;
      assert |stem| - |right| - |Separator| == |left|;
      assert stem[..|left|] == left;
    case None =>
      assert FromFileName(stem) == (UnknownArtist, stem);
  }

  /** A tag that supplies every field decides the whole record, whatever the file is called. */
  lemma FullTagWins(path: Path, t: Tag)
    requires t.title.Some? && t.artist.Some? && t.album.Some? && t.genre.Some?
    ensures NewSong(path, Some(t)) ==
      Song(path, t.title.value, NormaliseArtist(t.artist.value), t.album.value, t.genre.value)
  {
  }

  /** Album and genre fall back to "Unknown Album" and "Unknown Genre" unless the tag has them. */
  lemma AlbumAndGenreDefaults(path: Path, tag: Option<Tag>)
    ensures NewSong(path, tag).album == if tag.Some? && tag.value.album.Some? then tag.value.album.value else UnknownAlbum
    ensures NewSong(path, tag).genre == if tag.Some? && tag.value.genre.Some? then tag.value.genre.value else UnknownGenre
  {
  }

  /**
   * Title and artist are overridden field by field: a tag title replaces the
   * file-name title and a tag artist, normalised, replaces the file-name
   * artist, each independently of the other.
   */
  lemma TitleAndArtistOverrides(path: Path, t: Tag)
    ensures NewSong(path, Some(t)).title == OrDefault(t.title, FromFileName(StemOf(path)).1)
    ensures NewSong(path, Some(t)).artist ==
      match t.artist case Some(a) => NormaliseArtist(a) case None => FromFileName(StemOf(path)).0
  {
  }

  /** An artist name with nothing to pad, no double space and no outer whitespace is left alone. */
  lemma {:induction false} NormaliseArtistFixesCleanNames(s: String)
    requires !Contains(s, "&") && !Contains(s, "feat.") && !Contains(s, "featuring") && !Contains(s, "  ")
    requires s != [] ==> !IsWhitespace(s[0]) && !IsWhitespace(s[|s| - 1])
    ensures NormaliseArtist(s) == s
  {
    ReplaceAbsent(s, "&", " & ");
    ReplaceAbsent(s, "feat.", " feat. ");
    ReplaceAbsent(s, "featuring", " featuring ");
    ReplaceAbsent(s, "  ", " ");
    TrimUnpadded(s);
  }

  /** A name part with no whitespace, no `&` and no `f` (so no `feat.` or `featuring`). */
  predicate PlainWord(w: String) {
    w != [] && forall i :: 0 <= i < |w| ==> !IsWhitespace(w[i]) && w[i] != '&' && w[i] != 'f'
  }

  /** Joined artists get spaced: `A&B` becomes `A & B`. */
  lemma NormaliseArtistPadsAmpersand(a: String, b: String)
    requires PlainWord(a) && PlainWord(b)
    ensures NormaliseArtist(a + "&" + b) == a + " & " + b
  {
    var padded := a + " & " + b;
    PadAmpersand(a, b);
    NoFeaturing(padded);
    SingleSpacesKept(a, b);
    TrimUnpadded(padded);
  }

  /**
   * The double-space pass is not a full collapse: a run of three spaces
   * between two words comes out as two.
   */
  lemma NormaliseArtistKeepsSomeDoubleSpaces(a: String, b: String)
    requires PlainWord(a) && PlainWord(b)
    ensures NormaliseArtist(a + "   " + b) == a + "  " + b
  {
    var s := a + "   " + b;
    NothingToPad(s);
    ThreeSpacesBecomeTwo(a, b);
    TrimUnpadded(a + "  " + b);
  }

  /** `AfeatB` becomes `A feat. B`, and the `featuring` pass leaves it alone. */
  lemma NormaliseArtistPadsFeat(a: String, b: String)
    requires PlainWord(a) && PlainWord(b)
    ensures NormaliseArtist(a + "feat." + b) == a + " feat. " + b
  {
    var s := a + "feat." + b;
    var padded := a + " feat. " + b;
    NoAmpersand(a, "feat.", b);
    PadFeat(a, b);
    FeatIsNotFeaturing(a, b);
    PaddedWordSettled(a, "feat.", " feat. ", b);
    NormaliseInSteps(s, s, padded, padded, padded);
  }

  /** `AfeaturingB` becomes `A featuring B`; the `feat.` pass does not match inside `featuring`. */
  lemma NormaliseArtistPadsFeaturing(a: String, b: String)
    requires PlainWord(a) && PlainWord(b)
    ensures NormaliseArtist(a + "featuring" + b) == a + " featuring " + b
  {
    var s := a + "featuring" + b;
    var padded := a + " featuring " + b;
    NoAmpersand(a, "featuring", b);
    FeaturingIsNotFeat(a, b);
    PadFeaturing(a, b);
    PaddedWordSettled(a, "featuring", " featuring ", b);
    NormaliseInSteps(s, s, s, padded, padded);
  }

  /** `NormaliseArtist` as its four replacement passes and the final trim. */
  lemma NormaliseInSteps(raw: String, r1: String, r2: String, r3: String, r4: String)
    requires Replace(raw, "&", " & ") == r1 && Replace(r1, "feat.", " feat. ") == r2
    requires Replace(r2, "featuring", " featuring ") == r3 && Replace(r3, "  ", " ") == r4
    ensures NormaliseArtist(raw) == Trim(r4)
  {
  }

  lemma PadFeat(a: String, b: String)
    requires PlainWord(a) && PlainWord(b)
    ensures Replace(a + "feat." + b, "feat.", " feat. ") == a + " feat. " + b
  {
    assert 'f' !in a && 'f' !in b;
    ReplaceAround(a, b, "feat.", " feat. ");
  }

  lemma PadFeaturing(a: String, b: String)
    requires PlainWord(a) && PlainWord(b)
    ensures Replace(a + "featuring" + b, "featuring", " featuring ") == a + " featuring " + b
  {
    assert 'f' !in a && 'f' !in b;
    ReplaceAround(a, b, "featuring", " featuring ");
  }

  /** Once a word is padded by single spaces, the double-space pass and the trim leave the name as it is. */
  lemma PaddedWordSettled(a: String, w: String, padded: String, b: String)
    requires PlainWord(a) && PlainWord(b) && w != [] && ' ' !in w && padded == " " + w + " "
    ensures Replace(a + padded + b, "  ", " ") == a + padded + b
    ensures Trim(a + padded + b) == a + padded + b
  {
    var n := a + padded + b;
    SpacedWordKept(a, w, b);
    RegroupMiddle(a, " ", w, " ", b);
    Ends(a, padded, b);
    TrimUnpadded(n);
  }

  lemma NoAmpersand(a: String, w: String, b: String)
    requires PlainWord(a) && PlainWord(b) && '&' !in w
    ensures Replace(a + w + b, "&", " & ") == a + w + b
  {
    ReplaceSkipsPrefix(a + w + b, [], "&", " & ");
    assert a + w + b + [] == a + w + b;
  }

  /** The `featuring` pass finds no match in `A feat. B`. */
  lemma FeatIsNotFeaturing(a: String, b: String)
    requires PlainWord(a) && PlainWord(b)
    ensures Replace(a + " feat. " + b, "featuring", " featuring ") == a + " feat. " + b
  {
    var prefix := a + " ";
    assert 'f' !in prefix;
    FeatTailKept(b);
    ReplaceSkipsPrefix(prefix, "feat. " + b, "featuring", " featuring ");
    RegroupSplit(a, " feat. ", " ", "feat. ", b);
  }

  lemma FeatTailKept(b: String)
    requires PlainWord(b)
    ensures Replace("feat. " + b, "featuring", " featuring ") == "feat. " + b
  {
    var tail := "eat. " + b;
    assert 'f' !in tail;
    ReplaceSkipsPrefix(tail, [], "featuring", " featuring ");
    assert tail + [] == tail;
    assert ("feat. " + b)[4] != "featuring"[4];
    ReplaceMissAtStart("feat. " + b, "featuring", " featuring ");
    assert ("feat. " + b)[1..] == tail;
  }

  /** The `feat.` pass finds no match in `AfeaturingB`. */
  lemma FeaturingIsNotFeat(a: String, b: String)
    requires PlainWord(a) && PlainWord(b)
    ensures Replace(a + "featuring" + b, "feat.", " feat. ") == a + "featuring" + b
  {
    assert 'f' !in a;
    FeaturingTailKept(b);
    ReplaceSkipsPrefix(a, "featuring" + b, "feat.", " feat. ");
    assert a + "featuring" + b == a + ("featuring" + b);
  }

  lemma FeaturingTailKept(b: String)
    requires PlainWord(b)
    ensures Replace("featuring" + b, "feat.", " feat. ") == "featuring" + b
  {
    var tail := "eaturing" + b;
    assert 'f' !in tail;
    ReplaceSkipsPrefix(tail, [], "feat.", " feat. ");
    assert tail + [] == tail;
    assert ("featuring" + b)[4] != "feat."[4];
    ReplaceMissAtStart("featuring" + b, "feat.", " feat. ");
    assert ("featuring" + b)[1..] == tail;
  }

  /** A text that does not start with the pattern keeps its first character. */
  lemma ReplaceMissAtStart(s: String, from: String, to: String)
    requires |from| > 0 && s != [] && !(from <= s)
    ensures Replace(s, from, to) == [s[0]] + Replace(s[1..], from, to)
  {
  }

  /** A word set off by single spaces is left alone by the double-space pass. */
  lemma SpacedWordKept(a: String, w: String, b: String)
    requires PlainWord(a) && PlainWord(b) && w != [] && ' ' !in w
    ensures Replace(a + " " + w + " " + b, "  ", " ") == a + " " + w + " " + b
  {
    var t := " " + w + " " + b;
    assert ' ' !in a;
    SpaceWordSpaceKept(w, b);
    ReplaceSkipsPrefix(a, t, "  ", " ");
    Regroup5(a, " ", w, " ", b);
  }

  lemma RegroupMiddle<T>(x: seq<T>, y: seq<T>, z: seq<T>, u: seq<T>, v: seq<T>)
    ensures x + (y + z + u) + v == x + y + z + u + v
  {
  }

  /** The first and last elements of `x + m + y` come from `x` and `y`. */
  lemma Ends<T>(x: seq<T>, m: seq<T>, y: seq<T>)
    requires x != [] && y != []
    ensures (x + m + y)[0] == x[0] && (x + m + y)[|x + m + y| - 1] == y[|y| - 1]
  {
  }

  lemma Regroup5<T>(x: seq<T>, y: seq<T>, z: seq<T>, u: seq<T>, v: seq<T>)
    ensures x + y + z + u + v == x + (y + z + u + v)
  {
  }

  /** `x + y + z` with `y` split in two, regrouped around the split. */
  lemma RegroupSplit<T>(x: seq<T>, y: seq<T>, y1: seq<T>, y2: seq<T>, z: seq<T>)
    requires y == y1 + y2
    ensures x + y + z == (x + y1) + (y2 + z)
  {
  }

  /** Concatenation regrouped to the right. */
  lemma Regroup<T>(x: seq<T>, y: seq<T>, z: seq<T>, u: seq<T>)
    ensures x + y + z + u == x + (y + (z + u))
  {
  }

  lemma SpaceWordSpaceKept(w: String, b: String)
    requires PlainWord(b) && w != [] && ' ' !in w
    ensures Replace(" " + w + " " + b, "  ", " ") == " " + w + " " + b
  {
    var t1 := " " + b;
    var t2 := w + t1;
    assert w[0] in w;
    SpaceThenWordKept(b);
    ReplaceSkipsPrefix(w, t1, "  ", " ");
    assert t2[0] == w[0];
    ReplaceCopiesChar(' ', t2, "  ", " ");
    Regroup(" ", w, " ", b);
  }

  lemma PadAmpersand(a: String, b: String)
    requires PlainWord(a) && PlainWord(b)
    ensures Replace(a + "&" + b, "&", " & ") == a + " & " + b
  {
    ReplaceAround(a, b, "&", " & ");
  }

  /** With no `&` and no `f` anywhere, the padding replacements change nothing. */
  lemma NothingToPad(s: String)
    requires '&' !in s && 'f' !in s
    ensures Replace(Replace(Replace(s, "&", " & "), "feat.", " feat. "), "featuring", " featuring ") == s
  {
    ReplaceSkipsPrefix(s, [], "&", " & ");
    assert s + [] == s;
    NoFeaturing(s);
  }

  /** With no `f` anywhere, neither `feat.` nor `featuring` is touched. */
  lemma NoFeaturing(s: String)
    requires 'f' !in s
    ensures Replace(s, "feat.", " feat. ") == s
    ensures Replace(s, "featuring", " featuring ") == s
  {
    ReplaceSkipsPrefix(s, [], "feat.", " feat. ");
    ReplaceSkipsPrefix(s, [], "featuring", " featuring ");
    assert s + [] == s;
  }

  lemma SingleSpacesKept(a: String, b: String)
    requires PlainWord(a) && PlainWord(b)
    ensures Replace(a + " & " + b, "  ", " ") == a + " & " + b
  {
    assert ' ' !in a && ' ' !in b;
    SingleSpacesKeptTail(b);
    ReplaceSkipsPrefix(a, " & " + b, "  ", " ");
    assert a + " & " + b == a + (" & " + b);
  }

  lemma SingleSpacesKeptTail(b: String)
    requires PlainWord(b)
    ensures Replace(" & " + b, "  ", " ") == " & " + b
  {
    var t1 := " " + b;
    var t2 := "&" + t1;
    SpaceThenWordKept(b);
    ReplaceSkipsPrefix("&", t1, "  ", " ");
    assert t2[0] == '&';
    ReplaceCopiesChar(' ', t2, "  ", " ");
    assert " & " + b == " " + t2;
  }

  lemma ThreeSpacesBecomeTwo(a: String, b: String)
    requires PlainWord(a) && PlainWord(b)
    ensures Replace(a + "   " + b, "  ", " ") == a + "  " + b
  {
    var t1 := " " + b;
    var t2 := "  " + t1;
    assert ' ' !in a;
    SpaceThenWordKept(b);
    ReplaceAtMatch(t1, "  ", " ");
    ReplaceSkipsPrefix(a, t2, "  ", " ");
    assert a + "   " + b == a + t2;
    assert a + "  " + b == a + (" " + t1);
  }

  lemma SpaceThenWordKept(b: String)
    requires PlainWord(b)
    ensures Replace(" " + b, "  ", " ") == " " + b
  {
    assert ' ' !in b && b[0] in b;
    ReplaceSkipsPrefix(b, [], "  ", " ");
    assert b + [] == b;
    ReplaceCopiesChar(' ', b, "  ", " ");
  }
}
