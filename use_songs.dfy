/**
 * The songs hook of the front end (src/features/songs/hooks/useSongs.ts):
 * the song list filtered by category and search text, the selected song,
 * and the arguments of the create and update calls, whose slides come
 * from the lyrics parser.
 *
 * The organisation's songs, as the live query last delivered them, are a
 * parameter (`None` while loading); the backend calls themselves belong to
 * convex/songs.ts, which is not part of this model.
 */
module UseSongs {
  import opened Wrappers
  import opened Text
  import opened Types
  import opened Lyrics
  import opened Sequences

  // ---------------------------------------------------------------- filtering

  /** Line 112: a category filter applies only for a non-empty id. */
  predicate InCategory(s: Song, category: Option<string>) {
    category.None? || category.value == "" || s.categoryId == category
  }

  /** Lines 117-123: a search applies only for a non-blank query, matched in lower case. */
  predicate MatchesQuery(s: Song, query: string) {
    var q := Trim(Lower(query));
    Trim(query) == "" || Contains(Lower(s.title), q) || Contains(Lower(s.lyrics), q)
  }

  predicate Kept(s: Song, category: Option<string>, query: string) {
    InCategory(s, category) && MatchesQuery(s, query)
  }

  /** The callback given to `filter`. */
  function Keeps(category: Option<string>, query: string): Song -> bool {
    s => Kept(s, category, query)
  }

  /** Lines 106-127: `filteredSongs`, the loaded songs that pass both filters, in their order. */
  function FilteredSongs(songs: Option<seq<Song>>, category: Option<string>, query: string): (r: seq<Song>)
    ensures songs.None? ==> r == []
    ensures songs.Some? ==> forall s :: s in r <==> s in songs.value && Kept(s, category, query)
    ensures songs.Some? ==> SubsequenceOf(r, songs.value)
  {
    if songs.None? then []
    else
      FilterIsSubsequence(songs.value, Keeps(category, query));
      Filter(songs.value, Keeps(category, query))
  }

  /** No category and a blank query leave the list as loaded. */
  lemma NoFilterKeepsAll(songs: seq<Song>, query: string)
    requires Trim(query) == ""
    ensures FilteredSongs(Some(songs), None, query) == songs
  {
    FilterAll(songs, Keeps(None, query));
  }

  // ---------------------------------------------------------------- selection


  /** Lines 101-104: `selectedSong` */
  function SelectedSong(songs: Option<seq<Song>>, selected: Option<string>): (r: Option<Song>)
    ensures r.Some? ==> songs.Some? && selected.Some? && r.value in songs.value && r.value.id == selected.value
    ensures songs.Some? && selected.Some? && selected.value != "" && (exists s | s in songs.value :: s.id == selected.value) ==> r.Some?
  {
    if selected.None? || selected.value == "" || songs.None? then None
    else
      var i := FindSong(songs.value, selected.value);
      if i < |songs.value| then Some(songs.value[i]) else None
  }

  // ---------------------------------------------------------------- calls

  /** The arguments of `songs.create`. */
  datatype NewSong = NewSong(orgId: string, title: string, lyrics: string, slides: seq<SlideDraft>, categoryId: Option<string>)

  /** The arguments of `songs.update`. */
  datatype SongUpdate = SongUpdate(songId: string, title: string, lyrics: string, slides: seq<SlideDraft>)

  /**
   * Lines 129-144: the song `createNewSong` asks for: none without an
   * organisation or with a blank title; otherwise the trimmed title, the
   * lyrics as typed and the slides parsed from them.
   */
  function CreateNewSong(orgId: Option<string>, title: string, lyrics: string, categoryId: Option<string>): (r: Option<NewSong>)
    ensures r.None? <==> orgId.None? || orgId.value == "" || Trim(title) == ""
    ensures r.Some? ==> r.value.title == Trim(title) && IsTrimmed(r.value.title) && r.value.title != ""
    ensures r.Some? ==> r.value.lyrics == lyrics && r.value.categoryId == categoryId && r.value.orgId == orgId.value
    ensures r.Some? ==> forall k | 0 <= k < |r.value.slides| :: IsSlide(r.value.slides[k])
  {
    if orgId.None? || orgId.value == "" || Trim(title) == "" then None
    else
      ParseLyricsSlides(lyrics);
      Some(NewSong(orgId.value, Trim(title), lyrics, ParseLyrics(lyrics), categoryId))
  }

  /** Lines 146-153: `updateExistingSong` sends the title as typed and re-parses the slides. */
  function UpdateExistingSong(songId: string, title: string, lyrics: string): (r: SongUpdate)
    ensures r.songId == songId && r.title == title && r.lyrics == lyrics
    ensures forall k | 0 <= k < |r.slides| :: IsSlide(r.slides[k])
  {
    ParseLyricsSlides(lyrics);
    SongUpdate(songId, title, lyrics, ParseLyrics(lyrics))
  }

  // ---------------------------------------------------------------- state

  class SongsHook {
    var selectedSongId: Option<string>
    var selectedCategoryId: Option<string>
    var searchQuery: string

    /** Lines 61-67 */
    constructor()
      ensures selectedSongId == None && selectedCategoryId == None && searchQuery == ""
    {
      selectedSongId := None;
      selectedCategoryId := None;
      searchQuery := "";
    }

    /** Lines 91-99: a selected id missing from the loaded songs is cleared. */
    method ValidateSelection(songs: Option<seq<Song>>)
      modifies this
      ensures selectedCategoryId == old(selectedCategoryId) && searchQuery == old(searchQuery)
      ensures (songs.Some? && old(selectedSongId).Some? && old(selectedSongId).value != "" &&
               forall s | s in songs.value :: s.id != old(selectedSongId).value) ==>
        selectedSongId == None
      ensures !(songs.Some? && old(selectedSongId).Some? && old(selectedSongId).value != "" &&
                forall s | s in songs.value :: s.id != old(selectedSongId).value) ==>
        selectedSongId == old(selectedSongId)
      ensures SelectedSong(songs, selectedSongId).Some? <==>
              songs.Some? && selectedSongId.Some? && selectedSongId.value != ""
    {
      if songs.Some? && selectedSongId.Some? && selectedSongId.value != "" {
        if FindSong(songs.value, selectedSongId.value) == |songs.value| {
          selectedSongId := None;
        }
      }
    }

    /**
     * Lines 155-160: `deleteSong`; `removed` says whether the backend call
     * returned. Deleting the selected song clears the selection.
     */
    method DeleteSong(songId: string, removed: bool)
      modifies this
      ensures selectedCategoryId == old(selectedCategoryId) && searchQuery == old(searchQuery)
      ensures removed && old(selectedSongId) == Some(songId) ==> selectedSongId == None
      ensures !(removed && old(selectedSongId) == Some(songId)) ==> selectedSongId == old(selectedSongId)
    {
      if removed && selectedSongId == Some(songId) {
        selectedSongId := None;
      }
    }
  }
}
