# Terminal music player: playback controller model

This project is a Dafny model of the playback core of a small terminal music
player written in Rust. The model covers:

- Building the track list. Every `mp3`, `ogg` or `flac` file found by walking
  the music directories becomes a `Song`. Its artist and title come from the
  file stem (`Artist - Title`) and are overridden by ID3 tag fields when the
  tag has them.
- The `MusicPlayer` controller: the track list, the cursor, the play flag,
  the volume, the FIFO play queue and the directory list. Its key-handler
  methods change this state in place and send `PlayerMessage`s to the
  audio thread.
- The audio worker loop. It owns at most one output sink and interprets the
  messages in order.
- The read-only projections: search, the songs of one artist, and the
  sorted, deduplicated artist, album and genre lists.

Modules, in dependency order:

| file | module | contents |
|---|---|---|
| `wrappers.dfy` | `Wrappers` | `Option`, `Result`, the error kinds |
| `text.dfy` | `Text` | substring search, `splitn(2, sep)`, `replace`, `trim`, ASCII lower-casing, string order |
| `paths.dfy` | `Paths` | paths as component lists: file name, stem, extension, `starts_with` |
| `tracks.dfy` | `Tracks` | `Song`, the tag record, `Song::new`, the artist normaliser, the extension filter |
| `library.dfy` | `Library` | the directory scan of `MusicPlayer::new` and `add_directory` |
| `sorting.dfy` | `Sorting` | `sort` then `dedup`, generic over a total order |
| `queries.dfy` | `Queries` | `search`, the artist filter, the three grouping views |
| `messages.dfy` | `Messages` | `PlayerMessage` and what a log of sent messages asks for |
| `audio.dfy` | `Audio` | the worker loop and its step function |
| `player.dfy` | `Player` | the `MusicPlayer` class, cursor arithmetic, `retain`, shuffle |

Choices made in the model:

- The channel to the worker is the field `sent`, the ordered list of every
  message the player has sent.
- `MusicPlayer.Valid()` ties the controller to that list. `isPlaying` holds
  exactly when the last `Play`/`Stop` sent was a `Play`. `volume` is the last
  `SetVolume` sent, or the starting 100. No `Quit` has been sent.
- `Audio.RunFollowsLog` and `Audio.SoundMatchesRequests` connect this list
  to the worker's state.
- Volume is an integer in hundredths (0 to 100). The `+`/`-` keys move it by
  5.
- A directory walk is an input: the sequence of entries it yields. Each
  entry is either a path with the tag read for it, or a walk error.
- Whether a file opens and decodes is an input: the set `playable`.
- The random numbers of `shuffle` are an input: the sequence `draws`.
  `ShuffleWith` is a Fisher–Yates shuffle driven by the input draws.
  `EveryOrderIsReachable` shows that every permutation comes out of some
  draws.

Behaviour of the code that the model keeps as written:

- `search("")` returns every song, since every string contains the empty
  string. Only the search view hides results for an empty query
  (`src/main.rs:464-479`).
- The albums view lists every distinct (album, artist) pair. An album shared
  by two artists therefore appears twice, not once with one artist.
- On an empty library, `next` with an empty queue divides by zero, and
  `previous` at position 0 underflows. The model states both as
  preconditions instead of guarding them.
- `isPlaying` does not guarantee that the track under the cursor was sent.
  In some cases `next` sets the cursor from a stale queue entry that is past
  the end of the track list. `play_current` then sends nothing and
  `isPlaying` stays true. `remove_directory` and `shuffle` also leave
  queued positions pointing at other songs. The controller invariant proved
  is therefore the weaker one above: agreement with the last `Play`/`Stop`.

## Model

| member | source | states |
|---|---|---|
| Text.Contains | src/main.rs:302-304 | `str::contains`: true exactly when the needle occurs at some position of the haystack |
| Text.SplitOnce | src/main.rs:61 | `splitn(2, sep)`: no separator means no split; otherwise the parts rejoin around the first occurrence, and no earlier occurrence exists |
| Text.ReplaceAbsent | src/main.rs:66-72 | `replace` leaves a string unchanged when the pattern does not occur in it |
| Text.ReplaceNoLonger | src/main.rs:70 | replacing a pattern by a shorter one never lengthens the string |
| Text.ReplaceAtMatch | src/main.rs:66-72 | `replace` at an occurrence of the pattern emits the replacement and resumes after the whole occurrence |
| Text.ReplaceSkipsPrefix | src/main.rs:66-72 | text that cannot start an occurrence of the pattern is copied unchanged |
| Text.ReplaceAround | src/main.rs:66-72 | a single occurrence between two parts that cannot start the pattern is replaced and the parts are kept |
| Text.Trim | src/main.rs:71 | `trim`: empty exactly when the input is all whitespace; otherwise no whitespace at either end; the result is the slice that follows the leading whitespace, and everything after it is whitespace |
| Text.TrimIdempotent | src/main.rs:71 | trimming twice is trimming once |
| Text.ToLower | src/main.rs:302-304 | lower-casing keeps the length and maps each character with the ASCII case map |
| Text.StrLeTotal | src/main.rs:428 | the string order `sort` uses relates any two strings |
| Paths.FileName | src/main.rs:55 | the last component, or none when there is no component or it is `..` |
| Paths.SplitExtension | src/main.rs:55-58 | splits at the last dot, except that a name whose only dot is its first character has no extension; with an extension, the stem is non-empty, the extension has no dot, and stem, dot and extension rejoin to the name |
| Paths.FileStem | src/main.rs:55 | `file_stem()` exists exactly when the file name does, and is a prefix of it |
| Paths.Extension | src/main.rs:143 | `extension()`, when present, has no dot, and the non-empty stem, a dot and the extension rejoin to the file name |
| Paths.StartsWith | src/main.rs:268 | `starts_with` holds exactly when every component of the base matches the path's component at the same place |
| Paths.SplitExtensionOfJoined | src/main.rs:143 | splitting `stem.ext` gives back `stem` and `ext` when the stem is non-empty and the extension has no dot |
| Tracks.IsAudioFile | src/main.rs:143-144 | an indexed file has a non-empty file stem |
| Tracks.FromFileName | src/main.rs:61-76 | the title is a suffix of the stem; without `" - "` the artist is "Unknown Artist" and the title is the whole stem |
| Tracks.AudioFileByExtension | src/main.rs:143-144 | a file is indexed exactly when its extension is `mp3`, `ogg` or `flac`, compared letter for letter, and its stem is the name before the dot |
| Tracks.UpperCaseExtensionIsSkipped | src/main.rs:144 | a `.MP3` file is not indexed |
| Tracks.NormaliseArtist | src/main.rs:66-72 | the normalised artist has no whitespace at either end |
| Tracks.NormaliseArtistFixesCleanNames | src/main.rs:66-72 | a name with nothing to pad, no double space and no outer whitespace is returned unchanged |
| Tracks.NormaliseArtistPadsAmpersand | src/main.rs:67 | `A&B` becomes `A & B` |
| Tracks.NormaliseArtistPadsFeat | src/main.rs:68 | `AfeatB` becomes `A feat. B` |
| Tracks.NormaliseArtistPadsFeaturing | src/main.rs:69 | `AfeaturingB` becomes `A featuring B` |
| Tracks.NormaliseArtistKeepsSomeDoubleSpaces | src/main.rs:70 | the single double-space pass turns three spaces into two, so it is not a full collapse |
| Tracks.NewSong | src/main.rs:54-111 | a song keeps the path it was built from |
| Tracks.FromFileNameSplitsAtFirstSeparator | src/main.rs:61-76 | with `" - "` in the stem, the artist is the normalised text before its first occurrence and the title is everything after it, further separators included; without one, the artist is "Unknown Artist" and the title is the whole stem |
| Tracks.FileNameGivesTitleAndArtist | src/main.rs:63-76 | without a tag title and artist, both come from the file stem |
| Tracks.TitleAndArtistOverrides | src/main.rs:82-95 | each tag field overrides separately: the tag title, else the file-name title; the normalised tag artist, else the file-name artist |
| Tracks.FullTagWins | src/main.rs:82-101 | a tag with every field decides title, the normalised artist, album and genre |
| Tracks.AlbumAndGenreDefaults | src/main.rs:78-79 | album and genre are the tag's when present, else "Unknown Album" and "Unknown Genre" |
| Library.SongsOf | src/main.rs:143-146 | an entry adds one song, built from its path and tag, exactly when it is an audio file |
| Library.ScanEntries | src/main.rs:140-148 | a walk's scan adds at most one song per entry, and fails exactly when the walk yields an error |
| Library.ScanWalks | src/main.rs:139-148 | scanning several walks fails exactly when some walk yields an error |
| Library.ScanEntriesAppend | src/main.rs:140-148 | when the first part of a walk has no error, the whole walk's songs are the first part's followed by the second part's, and it fails exactly when the second part's scan does |
| Library.AudioFilesBeforeAnErrorAreScanned | src/main.rs:140-146 | every audio file the walk yields before its first error is collected, built from its path and tag |
| Library.ScannedSongsAreAudioFiles | src/main.rs:140-148 | every scanned song is an audio file built from an entry of the walk, and lies under the root when every entry does |
| Library.ScanWalk | src/main.rs:140-148 | the loop over one walk collects exactly the scan's songs and reports its failure |
| Library.ScanDirectories | src/main.rs:138-149 | scanning all directories fails when a walk fails, and otherwise returns the songs of all walks in order |
| Library.ScanStopsAtFailure | src/main.rs:141 | entries after a walk error change nothing |
| Library.StopsAtFailedWalk | src/main.rs:139-141 | directories after a failed walk are not scanned |
| Sorting.Sort | src/main.rs:428 | sorting keeps the multiset of elements |
| Sorting.SortIsSorted | src/main.rs:428 | under a total order, the sorted result is ascending |
| Sorting.SortedArrangementIsUnique | src/main.rs:428 | two ascending arrangements of the same multiset are equal, so any sort gives this result |
| Sorting.Dedup | src/main.rs:429 | `dedup` keeps the same set of elements and the first element, leaves no equal neighbours, and changes nothing when there are none |
| Sorting.DedupKeepsSorted | src/main.rs:428-429 | deduplicating an ascending sequence keeps it ascending |
| Sorting.SortedWithoutAdjacentDuplicatesIsDistinct | src/main.rs:428-429 | an ascending sequence without equal neighbours has no repeats |
| Sorting.SortedDistinctLists | src/main.rs:428-429 | sort then dedup lists every element once, ascending, and nothing else |
| Sorting.SortedDistinctIsUnique | src/main.rs:428-429 | only one ascending repeat-free sequence holds a given set of elements |
| Queries.Select | src/main.rs:300-306 | enumerate-filter-collect gives ascending positions, each paired with its song and satisfying the filter, and includes every position that satisfies it |
| Queries.SelectMembership | src/main.rs:300-306 | a pair is selected exactly when its position holds that song and the song passes the filter |
| Queries.Search | src/main.rs:299-307 | every hit is a position in range paired with its song, which matches the query; positions ascend |
| Queries.SearchFindsExactlyTheMatches | src/main.rs:299-307 | the hits are exactly the pairs whose lower-cased title, artist or album contains the lower-cased query, in ascending order |
| Queries.EmptySearchListsEverySong | src/main.rs:299-307 | searching for the empty string returns every song with its position |
| Queries.SearchIgnoresQueryCase | src/main.rs:302-304 | lower-casing the query does not change the hits |
| Queries.SongsByArtist | src/main.rs:412-413 | every entry is a position in range paired with its song, whose artist is the chosen one; positions ascend |
| Queries.SongsByArtistFindsExactlyThatArtist | src/main.rs:412-413 | the artist view's list holds exactly the songs whose artist equals the chosen one, case-sensitively |
| Queries.StrLeIsTotalOrder | src/main.rs:428 | the string order is a total order |
| Queries.PairLeIsTotalOrder | src/main.rs:439 | the order on (album, artist) pairs is a total order |
| Queries.Artists | src/main.rs:425-429 | the artists view is no longer than the library, and empty exactly when the library is |
| Queries.Albums | src/main.rs:436-440 | the albums view is no longer than the library, and empty exactly when the library is |
| Queries.Genres | src/main.rs:448-452 | the genres view is no longer than the library, and empty exactly when the library is |
| Queries.ArtistsListsEachArtistOnce | src/main.rs:425-429 | the artists view names each artist of the library once, in ascending order, and nothing else |
| Queries.AlbumsListsEachPairOnce | src/main.rs:436-440 | the albums view holds each (album, artist) pair of the library once, in ascending order |
| Queries.GenresListsEachGenreOnce | src/main.rs:448-452 | the genres view names each genre once, in ascending order, and nothing else |
| Messages.PlayingHasLastPlay | src/main.rs:206-218 | a log whose last `Play`/`Stop` is a `Play` names a last played path |
| Messages.AppendOne | src/main.rs:206-218 | sending one message changes the requested play state, volume and last played path only as that message says |
| Audio.Step | src/main.rs:161-189 | only `Quit` stops the worker; only `SetVolume` changes the remembered volume; only `Play`, `Stop` and `SetVolume` touch the sink |
| Audio.Run | src/main.rs:160-189 | the worker is still receiving exactly when no `Quit` has arrived |
| Audio.Worker | src/main.rs:160-189 | the receive loop ends in the state the step function gives for the received messages |
| Audio.IgnoresAfterStop | src/main.rs:187 | once the worker has left its loop, later messages change nothing |
| Audio.QuitEndsProcessing | src/main.rs:187 | after `Quit` the worker has stopped and nothing that follows has any effect |
| Audio.RunFollowsLog | src/main.rs:160-189 | before any `Quit`, the remembered volume is the last `SetVolume`; the sink plays the last `Play`ed path if it decodes, at that volume, and is stopped exactly when a `Stop` came after that `Play` |
| Audio.SoundMatchesRequests | src/main.rs:160-189 | when every played path decodes, a playing sink exists exactly when the last `Play`/`Stop` was `Play`, and its volume is the last one sent |
| Audio.PlayDiscardsOldSink | src/main.rs:162-175 | after `Play` the state does not depend on the old sink; there is a playing sink for the path at the remembered volume exactly when the path decodes |
| Audio.VolumeAppliesToNextSink | src/main.rs:162-181 | a `SetVolume` followed by `Play` of a decodable path gives a sink at that volume |
| Audio.StopIsIdempotent | src/main.rs:182-186 | stopping twice is stopping once; the sink is kept but no longer plays |
| Audio.OtherMessagesAreIgnored | src/main.rs:188 | `Next`, `Previous`, `AddDirectory`, `RemoveDirectory`, `Shuffle` and `AddToQueue` leave the worker unchanged |
| Player.NextIndex | src/main.rs:224 | the wrapped successor is a valid position |
| Player.PreviousIndex | src/main.rs:232-236 | one step back from a non-zero position, or the last position from 0 |
| Player.PreviousUndoesNext | src/main.rs:220-240 | on a valid position, `previous` after `next` returns to it, including the wrap from the last track to the first |
| Player.NextUndoesPrevious | src/main.rs:220-240 | on a valid position, `next` after `previous` returns to it, including the wrap from the first track to the last |
| Player.Clamp | src/main.rs:280 | the volume is held to [0, 100]: unchanged inside, 0 below, 100 above |
| Player.Outside | src/main.rs:269 | `retain` never lengthens the list |
| Player.OutsideKeepsTheRest | src/main.rs:269 | `retain` keeps exactly the songs whose path does not start with the removed directory |
| Player.OutsideDistributes | src/main.rs:269 | `retain` works piece by piece, so it keeps the order |
| Player.OutsideAndInsidePartition | src/main.rs:269 | the kept songs and the songs under the directory together make up the old list exactly |
| Player.ShuffleWith | src/main.rs:285-286 | shuffling keeps the length and the multiset of songs |
| Player.EveryOrderIsReachable | src/main.rs:285-286 | every permutation of the list is the result of some draws |
| Player.MusicPlayer.New | src/main.rs:137-204 | construction fails exactly when a walk fails; otherwise the player holds the scanned songs, idle at position 0, full volume, empty queue, nothing sent |
| Player.MusicPlayer.Create | src/main.rs:193-203 | the starting state: given songs and directories, position 0, not playing, full volume, empty queue |
| Player.MusicPlayer.PlayCurrent | src/main.rs:206-213 | with the cursor on a track, sends exactly `Play` of its path and sets the play flag; past the end, changes nothing |
| Player.MusicPlayer.Stop | src/main.rs:215-218 | always sends `Stop` and clears the play flag |
| Player.MusicPlayer.StopTwice | src/main.rs:215-218 | a second stop leaves the same state as the first |
| Player.MusicPlayer.Next | src/main.rs:220-229 | with a queue, the front entry becomes the cursor unchecked and is removed; otherwise the cursor moves on, wrapping; `Play` is re-sent only while playing and on a valid position |
| Player.MusicPlayer.Previous | src/main.rs:231-240 | the cursor steps back, wrapping to the last track; `Play` is re-sent only while playing and on a valid position |
| Player.MusicPlayer.NextThenPrevious | src/main.rs:220-240 | with an empty queue, `next` then `previous` restores the cursor |
| Player.MusicPlayer.AddDirectory | src/main.rs:242-260 | a missing directory is refused; otherwise the walk's audio files are appended; on a walk error the songs found so far stay and the directory is not recorded |
| Player.MusicPlayer.RemoveDirectory | src/main.rs:262-277 | an index out of range is refused with nothing changed; otherwise the songs under the directory and the directory entry are removed, and the cursor is on a track or is 0 on an empty list; a cursor still in range is kept, and one past the new end moves to the last track |
| Player.MusicPlayer.SetVolume | src/main.rs:279-282 | the volume becomes the clamped sum and is always sent |
| Player.MusicPlayer.Shuffle | src/main.rs:284-291 | the list is permuted, the cursor is 0, and `Play` of the new first track is sent exactly when playing on a non-empty list |
| Player.MusicPlayer.AddToQueue | src/main.rs:293-297 | a valid position is appended to the queue; any other is ignored; nothing else changes |

## Left out

- The terminal UI, key polling, rendering and view-mode switching are not
  modelled. This covers `src/main.rs:310-723`, apart from the grouping and
  filter logic at lines 409-456. The `view_mode` and `search_query` fields
  belong to the UI and are not modelled. Sending `Quit` from the UI at line
  605 is not a controller method; `Audio.QuitEndsProcessing` states what it
  does to the worker.
- Threads and the `mpsc` channel are not modelled, since they involve
  concurrency. Messages are an ordered list (`sent`) that the worker reads
  in order.
- Dropping the sender, which ends the worker loop, is modelled only as the
  end of that list.
- rodio's output device, `Decoder` and `Sink` are foreign library code.
  Decoding is the input `playable`, and a sink is a record of path, volume
  and play state.
- `WalkDir`, `Path::exists` and following links are I/O. The walk is an
  input sequence of entries, and whether the directory exists is an input
  flag.
- `id3::Tag::read_from_path` is foreign library code. Its result is an
  optional input record per entry.
- `to_string_lossy` on the file stem is not modelled: names are already
  character sequences.
- The distribution of `rand::thread_rng` is not modelled. Only the draws it
  produces are an input.
- Player.MusicPlayer.SetVolume: does not model f32 rounding. Volume is exact
  hundredths.
- Text.ToLower: lower-casing is ASCII only, because Unicode case mapping
  is not modelled.
- `.unwrap()` panics on a closed channel and on `Sink::try_new` are not
  modelled. `OutputStream::try_default` is not modelled either.
- `usize` overflow of `current_index + 1` is not modelled, because indices
  are unbounded.
- The queue view (`src/main.rs:457-462`) and the queue panel
  (`src/main.rs:528-531`) index `songs` with raw queue entries. They panic on
  a stale entry. This is rendering and is not modelled, but
  `Player.MusicPlayer.Next` and `RemoveDirectory` state that queued
  positions are never re-checked.
