/** The song record of the playlist page and lookups on a list of songs. */
module Songs {
  import opened Wrappers

  /**
   * One playlist entry. `id` and `dateAdded` are millisecond clock readings;
   * `rating` and `videoId` are `null` in stored records that lack them. A
   * stored record without `dateAdded` is represented with `dateAdded == 0`,
   * which JavaScript treats as falsy in the same way.
   */
  datatype Song = Song(
    id: int,
    title: string,
    url: string,
    rating: Option<int>,
    videoId: Option<string>,
    dateAdded: int)

  /** `Number(song.rating || 0)`: the rating the sort compares, an absent rating counting as 0. */
  function RatingKey(s: Song): (r: int)
    ensures s.rating.None? ==> r == 0
    ensures s.rating.Some? ==> r == s.rating.value
  {
    s.rating.GetOr(0)
  }

  /** JavaScript truthiness of a string-or-null: present and non-empty. */
  predicate Truthy(o: Option<string>) {
    o.Some? && o.value != ""
  }

  /** `songs.findIndex(song => song.id === id)`, with `None` for -1. */
  function FindIndex(songs: seq<Song>, id: int): (r: Option<nat>)
    ensures r.None? <==> forall k :: 0 <= k < |songs| ==> songs[k].id != id
    ensures r.Some? ==> r.value < |songs| && songs[r.value].id == id
    ensures r.Some? ==> forall k :: 0 <= k < r.value ==> songs[k].id != id
    decreases |songs|
  {
    if |songs| == 0 then None
    else if songs[0].id == id then Some(0)
    else match FindIndex(songs[1..], id)
      case None => None
      case Some(k) => Some(k + 1)
  }
}
