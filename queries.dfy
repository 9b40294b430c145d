/**
 * Read-only projections of the track list: `MusicPlayer::search`, the songs
 * of one artist, and the artist, album and genre lists of the library views
 * (each a `sort` then `dedup` of one column).
 */
module Queries {
  import opened Text
  import opened Tracks
  import opened Sorting

  /** A position in the track list together with the song there. */
  type Hit = (nat, Song)

  /**
   * `songs.iter().enumerate().filter(…).collect()`: the positions whose song
   * satisfies `keep`, in ascending order, each paired with its song.
   */
  function Select(songs: seq<Song>, keep: Song -> bool): (r: seq<Hit>)
    ensures |r| <= |songs|
    ensures forall k :: 0 <= k < |r| ==> r[k].0 < |songs| && r[k].1 == songs[r[k].0] && keep(r[k].1)
    ensures forall k, l :: 0 <= k < l < |r| ==> r[k].0 < r[l].0
    ensures forall i :: 0 <= i < |songs| && keep(songs[i]) ==> (i, songs[i]) in r
  {
    if songs == [] then []
    else
      var n := |songs| - 1;
      var before := Select(songs[..n], keep);
      assert forall k :: 0 <= k < |before| ==> songs[..n][before[k].0] == songs[before[k].0];
      if keep(songs[n]) then before + [(n, songs[n])] else before
  }

  /** A hit is in the selection exactly when its position holds that song and the song is kept. */
  lemma SelectMembership(songs: seq<Song>, keep: Song -> bool, i: nat, s: Song)
    ensures (i, s) in Select(songs, keep) <==> i < |songs| && s == songs[i] && keep(s)
  {
    var r := Select(songs, keep);
    if (i, s) in r {
      var k :| 0 <= k < |r| && r[k] == (i, s);
    }
  }

  /** The search predicate: the lower-cased title, artist or album contains the lower-cased query. */
  predicate Matches(song: Song, query: String) {
    var q := ToLower(query);
    Contains(ToLower(song.title), q) || Contains(ToLower(song.artist), q) || Contains(ToLower(song.album), q)
  }

  /** `MusicPlayer::search`: matching songs with their positions, in track-list order. */
  function Search(songs: seq<Song>, query: String): (r: seq<Hit>)
    ensures |r| <= |songs|
    ensures forall k :: 0 <= k < |r| ==> r[k].0 < |songs| && r[k].1 == songs[r[k].0] && Matches(r[k].1, query)
    ensures forall k, l :: 0 <= k < l < |r| ==> r[k].0 < r[l].0
  {
    Select(songs, song => Matches(song, query))
  }

  /**
   * The search hits are exactly the positions whose song matches, in
   * ascending order.
   */
  lemma SearchFindsExactlyTheMatches(songs: seq<Song>, query: String)
    ensures forall i: nat, s :: (i, s) in Search(songs, query) <==> i < |songs| && s == songs[i] && Matches(s, query)
    ensures forall k, l :: 0 <= k < l < |Search(songs, query)| ==> Search(songs, query)[k].0 < Search(songs, query)[l].0
  {
    forall i: nat, s ensures (i, s) in Search(songs, query) <==> i < |songs| && s == songs[i] && Matches(s, query) {
      SelectMembership(songs, song => Matches(song, query), i, s);
    }
  }

  /** Every song matches the empty query, so searching for "" lists the whole library. */
  lemma EmptySearchListsEverySong(songs: seq<Song>)
    ensures |Search(songs, "")| == |songs|
    ensures forall i :: 0 <= i < |songs| ==> Search(songs, "")[i] == (i, songs[i])
  {
    var r := Search(songs, "");
    forall i | 0 <= i < |songs| ensures Matches(songs[i], "") {
      assert OccursAt(ToLower(songs[i].title), "", 0);
    }
    AllKeptSelectsAll(songs, song => Matches(song, ""));
  }

  lemma {:induction false} AllKeptSelectsAll(songs: seq<Song>, keep: Song -> bool)
    requires forall i :: 0 <= i < |songs| ==> keep(songs[i])
    ensures |Select(songs, keep)| == |songs|
    ensures forall i :: 0 <= i < |songs| ==> Select(songs, keep)[i] == (i, songs[i])
    decreases |songs|
  {
    if songs != [] {
      var n := |songs| - 1;
      var before := Select(songs[..n], keep);
      AllKeptSelectsAll(songs[..n], keep);
      assert Select(songs, keep) == before + [(n, songs[n])];
      forall i | 0 <= i < n ensures Select(songs, keep)[i] == (i, songs[i]) {
        assert before[i] == (i, songs[..n][i]);
      }
    }
  }

  lemma {:induction false} ToLowerIdempotent(s: String)
    ensures ToLower(ToLower(s)) == ToLower(s)
  {
  }

  /** The case of the query does not matter. */
  lemma SearchIgnoresQueryCase(songs: seq<Song>, query: String)
    ensures Search(songs, ToLower(query)) == Search(songs, query)
  {
    ToLowerIdempotent(query);
    assert forall song :: Matches(song, ToLower(query)) == Matches(song, query);
    SelectSameFilter(songs, song => Matches(song, ToLower(query)), song => Matches(song, query));
  }

  lemma {:induction false} SelectSameFilter(songs: seq<Song>, keep: Song -> bool, keep': Song -> bool)
    requires forall song :: keep(song) == keep'(song)
    ensures Select(songs, keep) == Select(songs, keep')
    decreases |songs|
  {
    if songs != [] {
      SelectSameFilter(songs[..|songs| - 1], keep, keep');
    }
  }

  /** The artist view's song list: every song whose artist is exactly `artist`. */
  function SongsByArtist(songs: seq<Song>, artist: String): (r: seq<Hit>)
    ensures |r| <= |songs|
    ensures forall k :: 0 <= k < |r| ==> r[k].0 < |songs| && r[k].1 == songs[r[k].0] && r[k].1.artist == artist
    ensures forall k, l :: 0 <= k < l < |r| ==> r[k].0 < r[l].0
  {
    Select(songs, (song: Song) => song.artist == artist)
  }

  lemma SongsByArtistFindsExactlyThatArtist(songs: seq<Song>, artist: String)
    ensures forall i: nat, s :: (i, s) in SongsByArtist(songs, artist) <==> i < |songs| && s == songs[i] && s.artist == artist
  {
    forall i: nat, s ensures (i, s) in SongsByArtist(songs, artist) <==> i < |songs| && s == songs[i] && s.artist == artist {
      SelectMembership(songs, (song: Song) => song.artist == artist, i, s);
    }
  }

  /** Rust's order on `(&str, &str)`: by the first component, then by the second. */
  predicate PairLe(p: (String, String), q: (String, String)) {
    if p.0 != q.0 then StrLe(p.0, q.0) else StrLe(p.1, q.1)
  }

  lemma StrLeIsTotalOrder()
    ensures TotalOrder(StrLe)
  {
    forall a ensures StrLe(a, a) { StrLeReflexive(a); }
    forall a, b | StrLe(a, b) && StrLe(b, a) ensures a == b { StrLeAntisymmetric(a, b); }
    forall a, b, c | StrLe(a, b) && StrLe(b, c) ensures StrLe(a, c) { StrLeTransitive(a, b, c); }
    forall a, b ensures StrLe(a, b) || StrLe(b, a) { StrLeTotal(a, b); }
  }

  lemma PairLeIsTotalOrder()
    ensures TotalOrder(PairLe)
  {
    StrLeIsTotalOrder();
    forall p, q | PairLe(p, q) && PairLe(q, p) ensures p == q {
      if p.0 != q.0 { StrLeAntisymmetric(p.0, q.0); } else { StrLeAntisymmetric(p.1, q.1); }
    }
    forall p, q, r | PairLe(p, q) && PairLe(q, r) ensures PairLe(p, r) {
      if p.0 == q.0 && q.0 == r.0 {
        StrLeTransitive(p.1, q.1, r.1);
      } else if p.0 != r.0 {
        if p.0 == q.0 {
        } else if q.0 == r.0 {
        } else {
          StrLeTransitive(p.0, q.0, r.0);
        }
      } else {
        StrLeAntisymmetric(p.0, q.0);
      }
    }
  }

  /** The artist column, in track-list order. */
  function ArtistColumn(songs: seq<Song>): (r: seq<String>)
    ensures |r| == |songs| && forall i :: 0 <= i < |songs| ==> r[i] == songs[i].artist
  {
    seq(|songs|, i requires 0 <= i < |songs| => songs[i].artist)
  }

  /** The (album, artist) column, in track-list order. */
  function AlbumColumn(songs: seq<Song>): (r: seq<(String, String)>)
    ensures |r| == |songs| && forall i :: 0 <= i < |songs| ==> r[i] == (songs[i].album, songs[i].artist)
  {
    seq(|songs|, i requires 0 <= i < |songs| => (songs[i].album, songs[i].artist))
  }

  /** The genre column, in track-list order. */
  function GenreColumn(songs: seq<Song>): (r: seq<String>)
    ensures |r| == |songs| && forall i :: 0 <= i < |songs| ==> r[i] == songs[i].genre
  {
    seq(|songs|, i requires 0 <= i < |songs| => songs[i].genre)
  }

  /** The artists view: the artist column sorted and deduplicated. */
  function Artists(songs: seq<Song>): (r: seq<String>)
    ensures |r| <= |songs|
    ensures songs != [] <==> r != []
  {
    SortedDistinct(ArtistColumn(songs), StrLe)
  }

  /** The albums view: one entry per distinct (album, artist) pair. */
  function Albums(songs: seq<Song>): (r: seq<(String, String)>)
    ensures |r| <= |songs|
    ensures songs != [] <==> r != []
  {
    SortedDistinct(AlbumColumn(songs), PairLe)
  }

  /** The genres view. */
  function Genres(songs: seq<Song>): (r: seq<String>)
    ensures |r| <= |songs|
    ensures songs != [] <==> r != []
  {
    SortedDistinct(GenreColumn(songs), StrLe)
  }

  /** The artists view names every artist of the library once, in ascending order, and nothing else. */
  lemma ArtistsListsEachArtistOnce(songs: seq<Song>)
    ensures forall a :: a in Artists(songs) <==> exists i :: 0 <= i < |songs| && songs[i].artist == a
    ensures Sorted(Artists(songs), StrLe) && Distinct(Artists(songs))
  {
    StrLeIsTotalOrder();
    SortedDistinctLists(ArtistColumn(songs), StrLe);
    ColumnMembership(ArtistColumn(songs));
  }

  /**
   * The albums view holds one entry per (album, artist) pair that occurs, in
   * ascending order, so an album shared by two artists is listed twice.
   */
  lemma AlbumsListsEachPairOnce(songs: seq<Song>)
    ensures forall p :: p in Albums(songs) <==> exists i :: 0 <= i < |songs| && (songs[i].album, songs[i].artist) == p
    ensures Sorted(Albums(songs), PairLe) && Distinct(Albums(songs))
  {
    PairLeIsTotalOrder();
    SortedDistinctLists(AlbumColumn(songs), PairLe);
    ColumnMembership(AlbumColumn(songs));
  }

  /** The genres view names every genre of the library once, in ascending order, and nothing else. */
  lemma GenresListsEachGenreOnce(songs: seq<Song>)
    ensures forall g :: g in Genres(songs) <==> exists i :: 0 <= i < |songs| && songs[i].genre == g
    ensures Sorted(Genres(songs), StrLe) && Distinct(Genres(songs))
  {
    StrLeIsTotalOrder();
    SortedDistinctLists(GenreColumn(songs), StrLe);
    ColumnMembership(GenreColumn(songs));
  }

  lemma ColumnMembership<T>(column: seq<T>)
    ensures forall x :: x in column <==> exists i :: 0 <= i < |column| && column[i] == x
  {
  }
}
