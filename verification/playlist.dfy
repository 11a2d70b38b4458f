/**
 * The list mutations of the playlist page: deleting by id after confirmation,
 * overwriting a record in place, the submit handler's validate-then-add-or-
 * update logic, and the normalisation of stored records on page load. The
 * clock (`Date.now()`), the confirmation dialog (`confirm`) and link parsing
 * are parameters.
 */
module Playlist {
  import opened Wrappers
  import opened Seqs
  import opened Strings
  import opened Songs
  import opened YouTube

  function OtherId(id: int): Song -> bool {
    (song: Song) => song.id != id
  }

  /**
   * `deleteSong(id)`: once confirmed, exactly the songs carrying `id` are
   * dropped; otherwise the list is left as it is.
   */
  function DeleteSong(songs: seq<Song>, id: int, confirmed: bool): (r: seq<Song>)
    ensures !confirmed ==> r == songs
    ensures confirmed ==> forall x :: multiset(r)[x] == if x.id == id then 0 else multiset(songs)[x]
    ensures confirmed ==> forall k :: 0 <= k < |r| ==> r[k].id != id
  {
    if confirmed then
      FilterMultiset(songs, OtherId(id));
      var r := Filter(songs, OtherId(id));
      assert forall k :: 0 <= k < |r| ==> r[k] in multiset(r);
      r
    else songs
  }

  /** The songs that survive a deletion keep their relative order. */
  lemma DeleteKeepsOrder(songs: seq<Song>, id: int)
    ensures Subseq(DeleteSong(songs, id, true), songs)
  {
    FilterIsSubseq(songs, OtherId(id));
  }

  /** Deleting an id no song carries changes nothing. */
  lemma DeleteAbsent(songs: seq<Song>, id: int)
    requires forall k :: 0 <= k < |songs| ==> songs[k].id != id
    ensures DeleteSong(songs, id, true) == songs
  {
    FilterAll(songs, OtherId(id));
  }

  /** Deleting the same id twice is deleting it once. */
  lemma DeleteIdempotent(songs: seq<Song>, id: int)
    ensures DeleteSong(DeleteSong(songs, id, true), id, true) == DeleteSong(songs, id, true)
  {
    FilterIdempotent(songs, OtherId(id));
  }

  /**
   * `updateSong(id, title, url, rating, videoId)`: the first song carrying
   * `id` gets the four new fields and keeps its id and date; every other
   * song, and the length of the list, stay as they are. An absent id
   * changes nothing.
   */
  function UpdateSong(songs: seq<Song>, id: int, title: string, url: string,
                      rating: Option<int>, videoId: Option<string>): (r: seq<Song>)
    ensures |r| == |songs|
    ensures FindIndex(songs, id).None? ==> r == songs
    ensures FindIndex(songs, id).Some? ==>
      var i := FindIndex(songs, id).value;
      && r[i].id == songs[i].id == id
      && r[i].dateAdded == songs[i].dateAdded
      && r[i].title == title && r[i].url == url
      && r[i].rating == rating && r[i].videoId == videoId
      && forall k :: 0 <= k < |songs| && k != i ==> r[k] == songs[k]
  {
    match FindIndex(songs, id)
    case None => songs
    case Some(i) =>
      songs[i := songs[i].(title := title, url := url, rating := rating, videoId := videoId)]
  }

  /** Updating never changes which ids are in the list, nor where. */
  lemma UpdateKeepsIds(songs: seq<Song>, id: int, title: string, url: string,
                       rating: Option<int>, videoId: Option<string>)
    ensures var r := UpdateSong(songs, id, title, url, rating, videoId);
      forall k :: 0 <= k < |songs| ==> r[k].id == songs[k].id && r[k].dateAdded == songs[k].dateAdded
  {
  }

  /** Applying the same update twice is applying it once. */
  lemma UpdateIdempotent(songs: seq<Song>, id: int, title: string, url: string,
                         rating: Option<int>, videoId: Option<string>)
    ensures var once := UpdateSong(songs, id, title, url, rating, videoId);
      UpdateSong(once, id, title, url, rating, videoId) == once
  {
    var once := UpdateSong(songs, id, title, url, rating, videoId);
    var twice := UpdateSong(once, id, title, url, rating, videoId);
    if FindIndex(songs, id).Some? {
      var i := FindIndex(songs, id).value;
      assert FindIndex(once, id) == Some(i) by {
        assert forall k :: 0 <= k < i ==> once[k] == songs[k];
      }
      assert twice == once;
    }
  }

  /**
   * The song form as the submit handler reads it: raw title and link text,
   * the checked rating button's value (`None` when none is checked), and the
   * hidden id field (`None` when empty; it only ever holds an id written
   * there by `editSong`).
   */
  datatype SongForm = SongForm(title: string, url: string, rating: Option<int>, editId: Option<int>)

  /**
   * `!title || !url || !rating` fails: both texts hold a character other than
   * whitespace, and a non-zero rating is chosen.
   */
  function Accepts(form: SongForm): (b: bool)
    ensures b <==>
      && (exists k :: 0 <= k < |form.title| && !IsWhiteSpace(form.title[k]))
      && (exists k :: 0 <= k < |form.url| && !IsWhiteSpace(form.url[k]))
      && form.rating.Some? && form.rating.value != 0
  {
    TrimEmptyIff(form.title);
    TrimEmptyIff(form.url);
    && Trim(form.title) != ""
    && Trim(form.url) != ""
    && form.rating.Some? && form.rating.value != 0
  }

  /**
   * The song a new submission adds. The handler reads the clock twice, so the
   * id and the date are two readings, `idNow` and `dateNow`.
   */
  function NewSong(form: SongForm, idNow: int, dateNow: int, parse: UrlParser): (r: Song)
    ensures r.id == idNow && r.dateAdded == dateNow
    ensures exists i :: Trimmed(form.title, r.title, i)
    ensures exists i :: Trimmed(form.url, r.url, i)
    ensures |r.title| > 0 ==> !IsWhiteSpace(r.title[0]) && !IsWhiteSpace(r.title[|r.title| - 1])
    ensures |r.url| > 0 ==> !IsWhiteSpace(r.url[0]) && !IsWhiteSpace(r.url[|r.url| - 1])
    ensures r.rating == form.rating
    ensures r.videoId == ExtractYouTubeId(r.url, parse)
    ensures Accepts(form) ==> r.title != "" && r.url != "" && RatingKey(r) != 0
  {
    var url := Trim(form.url);
    Song(idNow, Trim(form.title), url, form.rating, ExtractYouTubeId(url, parse), dateNow)
  }

  /**
   * The submit handler: a rejected form changes nothing; an accepted one
   * updates the song named by the hidden id field, or appends one new song.
   */
  function Submit(songs: seq<Song>, form: SongForm, idNow: int, dateNow: int, parse: UrlParser): (r: seq<Song>)
    ensures Trim(form.title) == "" ==> r == songs
    ensures Trim(form.url) == "" ==> r == songs
    ensures form.rating.None? || form.rating == Some(0) ==> r == songs
    ensures Accepts(form) && form.editId.None? ==>
      && |r| == |songs| + 1
      && r[..|songs|] == songs
      && r[|songs|].id == idNow
      && r[|songs|].dateAdded == dateNow
      && r[|songs|].title == Trim(form.title)
      && r[|songs|].url == Trim(form.url)
      && r[|songs|].rating == form.rating
      && r[|songs|].videoId == ExtractYouTubeId(Trim(form.url), parse)
    ensures Accepts(form) && form.editId.Some? ==>
      r == UpdateSong(songs, form.editId.value, Trim(form.title), Trim(form.url),
                      form.rating, ExtractYouTubeId(Trim(form.url), parse))
  {
    if !Accepts(form) then songs
    else
      var title := Trim(form.title);
      var url := Trim(form.url);
      match form.editId
      case Some(id) => UpdateSong(songs, id, title, url, form.rating, ExtractYouTubeId(url, parse))
      case None => songs + [NewSong(form, idNow, dateNow, parse)]
  }

  /** A song just added is removed again, and only it, by deleting its id. */
  lemma AddThenDelete(songs: seq<Song>, form: SongForm, idNow: int, dateNow: int, parse: UrlParser)
    requires Accepts(form) && form.editId.None?
    requires forall k :: 0 <= k < |songs| ==> songs[k].id != idNow
    ensures DeleteSong(Submit(songs, form, idNow, dateNow, parse), idNow, true) == songs
  {
    var added := NewSong(form, idNow, dateNow, parse);
    FilterConcat(songs, [added], OtherId(idNow));
    FilterAll(songs, OtherId(idNow));
    FilterSingleton(added, OtherId(idNow));
  }

  /**
   * The on-load fix-up of one stored record: a falsy rating becomes `null`,
   * a missing or empty video id is re-extracted from the link, and a missing
   * date becomes `now`.
   */
  function NormalizeSong(s: Song, now: int, parse: UrlParser): (r: Song)
    ensures r.id == s.id && r.title == s.title && r.url == s.url
    ensures RatingKey(r) == RatingKey(s)
    ensures r.rating != Some(0)
    ensures r.videoId == VideoIdOf(s, parse)
    ensures s.dateAdded != 0 ==> r.dateAdded == s.dateAdded
    ensures s.dateAdded == 0 ==> r.dateAdded == now
  {
    s.(rating := if s.rating == Some(0) then None else s.rating,
       videoId := VideoIdOf(s, parse),
       dateAdded := if s.dateAdded != 0 then s.dateAdded else now)
  }

  /**
   * `songs.map(...)` over the stored list. Each record without a date reads
   * the clock afresh; `clock(k)` is the reading taken for record `k`.
   */
  function Normalize(songs: seq<Song>, clock: nat -> int, parse: UrlParser): (r: seq<Song>)
    ensures |r| == |songs|
    ensures forall k :: 0 <= k < |songs| ==> r[k] == NormalizeSong(songs[k], clock(k), parse)
    ensures forall k :: 0 <= k < |r| ==> r[k].rating != Some(0)
  {
    seq(|songs|, k requires 0 <= k < |songs| => NormalizeSong(songs[k], clock(k), parse))
  }

  /**
   * Normalising a normalised list changes nothing, whatever the second load's
   * clock reads, provided the first load's readings were not 0 (the epoch).
   */
  lemma NormalizeIdempotent(songs: seq<Song>, first: nat -> int, second: nat -> int, parse: UrlParser)
    requires forall k :: 0 <= k < |songs| ==> first(k) != 0
    ensures Normalize(Normalize(songs, first, parse), second, parse) == Normalize(songs, first, parse)
  {
  }

  /** Normalisation never changes the thumbnail a song shows. */
  lemma NormalizeKeepsThumbnail(s: Song, now: int, parse: UrlParser)
    ensures ThumbnailUrl(NormalizeSong(s, now, parse), parse) == ThumbnailUrl(s, parse)
  {
    var n := NormalizeSong(s, now, parse);
    assert VideoIdOf(n, parse) == VideoIdOf(s, parse);
  }
}
