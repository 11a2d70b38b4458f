# Song list and skin switcher, modelled in Dafny

This project models the logic of two browser scripts.

The playlist page (`index.js`) keeps a list of songs. Each song has an id, a
title, a link, an optional rating, an optional YouTube video id and the date it
was added. The page does the following:

- It shows a filtered and sorted view of the list. A song is shown when its
  title contains the search text, ignoring case. The view is sorted by name,
  by rating (newest first among equal ratings), or newest first.
- It adds a song from the form, or overwrites the song being edited. The title,
  link and rating must first pass validation.
- After confirmation, it deletes every song with a given id.
- On load, it repairs stored records that have no rating, video id or date.
- It pulls the video id out of a YouTube link, and builds the thumbnail
  address from that id.

The skin switcher (`01_HW/skins/script.js`) cycles the page through three
style sheets.

Everything is pure functions over immutable values. The song list is a
`seq<Song>`, and every operation returns a new list. So the view that
`getVisibleSongs` computes cannot change the list it reads. Some of the
original code calls into the platform. Those calls become parameters:

- Each `Date.now()` call becomes its own clock-reading argument. Adding a song reads the clock twice, once for the id and once for the date. Loading reads it once per repaired record.
- `confirm(...)` becomes the `confirmed` flag.
- `new URL(url)` becomes a `parse: string -> Option<ParsedUrl>` argument. It
  yields the host name, the path and the first `v` query parameter, or `None`
  where the constructor throws.

Modules, one per concern:

| module | file | models |
|---|---|---|
| `Wrappers` | wrappers.dfy | `Option`, standing for `null` / `undefined` |
| `Seqs` | seqs.dfy | `Array.prototype.filter` as `Filter`, and the subsequence relation |
| `Strings` | strings.dfy | `toLowerCase` (ASCII), `includes`, `startsWith`, `trim`, `split`/`join`, and `localeCompare` as a lexicographic order |
| `Songs` | songs.dfy | the `Song` record, the rating sort key, `findIndex` |
| `YouTube` | youtube.dfy | `extractYouTubeId`, `getThumbnailUrl` |
| `Listing` | listing.dfy | `getVisibleSongs`: the search filter and the three stable sorts |
| `Playlist` | playlist.dfy | `deleteSong`, `updateSong`, the submit handler, the on-load normalisation |
| `Skins` | skins.dfy | `changeSkin` and its index cycle |

`Array.prototype.sort` is a stable sort (ECMA-262, 2019 edition onward), so
the model sorts with a stable insertion sort under the page's own comparators.
`Listing.SortStable` proves the stability: for every sort key, the songs that
share that key come out in their input order.

The repository also contains a larger "Final project" playlist manager. It has
local and remote songs, a play queue and server sync. That code is not part of
this model. It is also sorted differently.
`Final project/client/js/playlists.js:159-165` re-sorts only for `name` or
`rating`, so its default view keeps insertion order. `index.js` sorts newest
first by default (index.js:81-84).

## Model

| member | source | states |
|---|---|---|
| `Seqs.FilterMultiset` | index.js:67-69 | filter keeps each element as often as it occurs when it passes the predicate, and drops it entirely otherwise |
| `Seqs.FilterIsSubseq` | index.js:237 | the songs that survive a filter keep their relative order |
| `Strings.LowerChar` | index.js:68 | ASCII capitals become the matching small letter; every other character is unchanged; the result is never an ASCII capital |
| `Strings.LowerIdempotent` | index.js:68 | lower-casing an already lower-cased string changes nothing |
| `Strings.ContainsIffOccurs` | index.js:68 | `includes` holds exactly when the search string occurs at some index of the title |
| `Strings.TrimEmptyIff` | index.js:205-211 | a field trims to the empty string exactly when it is all whitespace, which is when the submit guard rejects it |
| `Strings.Trim` | index.js:205-206 | the result is a contiguous middle part of the input; everything cut before and after it is whitespace, and the result neither starts nor ends with whitespace |
| `Strings.TrimIdempotent` | index.js:205-206 | trimming twice is trimming once |
| `Strings.TrimUnique` | index.js:205-206 | any middle part of the input whose cut-off ends are whitespace and whose own first and last characters are not is exactly the trimmed text |
| `Strings.JoinSplit` | index.js:28 | splitting a path on `/` loses nothing: joining the pieces gives the path back |
| `Strings.SplitJoin` | index.js:28 | pieces free of `/` come back unchanged from splitting their join |
| `Strings.LexLeTotal` | index.js:73 | any two titles are comparable under the name order |
| `Strings.LexLeTrans` | index.js:73 | the name order is transitive |
| `Strings.LexLeAntisym` | index.js:73 | titles that each sort no later than the other are equal |
| `Strings.LexCompare` | index.js:73 | the comparison is 0 exactly for equal titles and negative exactly when the first title sorts before the second |
| `Songs.RatingKey` | index.js:76-77 | a song without a rating sorts as rating 0, otherwise by its rating value |
| `Songs.FindIndex` | index.js:262-263 | returns the first index holding the id, or none exactly when no song holds it |
| `YouTube.ExtractYouTubeId` | index.js:18-35 | a link the URL constructor rejects yields no id |
| `YouTube.ExtractFromParsed` | index.js:18-35 | an id taken from the `v` parameter or an embed path is never empty |
| `YouTube.ExtractShortLink` | index.js:21-23 | on a host containing `youtu.be`, the path after its leading `/` is the id, whatever the query string holds |
| `YouTube.ExtractWatchParam` | index.js:24-26 | on any other host, a non-empty `v` parameter is the id |
| `YouTube.ExtractEmbed` | index.js:27-30 | otherwise `/embed/<seg>` or `/embed/<seg>/...` yields `<seg>`, and yields none when `<seg>` is empty |
| `YouTube.EmbedPieces` | index.js:27-29 | the third `/`-separated piece of such a path is exactly `<seg>` |
| `YouTube.ExtractOther` | index.js:31-34 | any other parsable link yields no id |
| `YouTube.VideoIdOf` | index.js:38 | a non-empty stored id wins, otherwise the id extracted from the link; the result is non-empty exactly when one of the two is |
| `YouTube.ThumbnailUrl` | index.js:37-41 | the address is empty exactly when there is neither a non-empty stored id nor a non-empty extracted id; otherwise it is the thumbnail prefix, that id, and the suffix |
| `Listing.ModeOf` | index.js:72-84 | `name` selects the name sort, `rating` the rating sort, and every other choice the newest-first sort |
| `Listing.Compare` | index.js:72-84 | `name`: negative exactly when the first title is strictly smaller, 0 exactly for equal titles. `rating`: negative exactly when the first song has the higher rating key, or the same key and a later date. Newest first: negative exactly when the first date is later. In each mode, 0 exactly on a tie |
| `Listing.LeByName` | index.js:73 | under `name`, one song may precede another exactly when its title is lexicographically no larger |
| `Listing.LeTotal` | index.js:72-84 | every comparator orders any two songs one way or the other |
| `Listing.LeTrans` | index.js:72-84 | every comparator is transitive, so it is a consistent comparator for `sort` |
| `Listing.Insert` | index.js:72-84 | inserting into a sorted list keeps it sorted and adds exactly that one song |
| `Listing.SortSongs` | index.js:72-84 | the sorted view is ordered by the comparator and is a permutation of its input |
| `Listing.SortStable` | index.js:72-84 | songs that compare equal keep their input order |
| `Listing.Matches` | index.js:68 | a title matches exactly when the lower-cased search occurs at some position of the lower-cased title |
| `Listing.FilterSongs` | index.js:67-69 | a song is kept, with its multiplicity, exactly when its lower-cased title contains the lower-cased search, and the kept songs stay in list order (a subsequence) |
| `Listing.VisibleSongs` | index.js:65-87 | the visible list is a permutation of the matching songs and is sorted by the chosen comparator |
| `Listing.VisibleIff` | index.js:67-69 | a song is visible exactly when it is in the list and its title matches the search |
| `Listing.EmptySearchKeepsAll` | index.js:67-69 | an empty search keeps every song, in list order |
| `Listing.SearchIgnoresCase` | index.js:68 | lower-casing the search text does not change which songs match |
| `Listing.NameOrder` | index.js:72-73 | under `name`, the visible titles never decrease |
| `Listing.RatingOrder` | index.js:74-80 | under `rating`, ratings never increase (missing counts as 0), and equal ratings put the later `dateAdded` first |
| `Listing.NewestOrder` | index.js:81-84 | under any other choice, `dateAdded` never increases |
| `Listing.VisibleStable` | index.js:65-86 | within the visible list, songs that tie under the comparator appear in list order |
| `Playlist.DeleteSong` | index.js:235-240 | when confirmed, exactly the songs with that id disappear and every other song keeps its multiplicity; when not confirmed, nothing changes |
| `Playlist.DeleteKeepsOrder` | index.js:237 | the remaining songs keep their original order |
| `Playlist.DeleteAbsent` | index.js:237 | deleting an id no song has changes nothing |
| `Playlist.DeleteIdempotent` | index.js:237 | deleting the same id twice is deleting it once |
| `Playlist.UpdateSong` | index.js:261-269 | an absent id changes nothing; otherwise only the first song with the id changes, and only its title, url, rating and video id; its id and date are kept, and the length is unchanged |
| `Playlist.UpdateKeepsIds` | index.js:261-269 | every position keeps its id and its date |
| `Playlist.UpdateIdempotent` | index.js:261-269 | applying the same update twice is applying it once |
| `Playlist.Accepts` | index.js:211 | a form passes exactly when its title and link each hold a character other than whitespace and a non-zero rating is chosen |
| `Playlist.NewSong` | index.js:220-227 | the new song's id is the first clock reading and its date the second; its title and link are middle parts of the inputs with only whitespace cut off and no whitespace left at either end, which by `Strings.TrimUnique` makes them the trimmed inputs; its rating is as chosen; its video id is extracted from the trimmed link; for an accepted form, the title and link are non-empty and the rating key is non-zero |
| `Playlist.Submit` | index.js:205-229 | a blank title, a blank link or no rating leaves the list unchanged. Otherwise, with no edit id, exactly one song is appended: its id is the first clock reading, its date the second, and its fields are the trimmed inputs. With an edit id, the result is that song's update |
| `Playlist.AddThenDelete` | index.js:219-237 | deleting the id of a song just added restores the previous list, provided no song already had that id (otherwise the delete also removes the earlier songs with it) |
| `Playlist.NormalizeSong` | index.js:311-316 | the id, title and url are kept; a zero rating becomes null and the rating sort key is unchanged; the video id becomes the stored id or the extracted one; a missing date becomes the clock reading taken for it |
| `Playlist.Normalize` | index.js:311-316 | each record is repaired on its own with its own clock reading; the length is kept, and no repaired record has rating 0 |
| `Playlist.NormalizeIdempotent` | index.js:309-316 | normalising an already normalised list changes nothing, whatever the clock reads the second time, provided the first load's readings were not 0 (the epoch) |
| `Playlist.NormalizeKeepsThumbnail` | index.js:311-316 | normalisation never changes the thumbnail a song shows |
| `Skins.ChangeSkin` | 01_HW/skins/script.js:4-12 | the index stays in range, moves one step and wraps to 0 after the last sheet; the link names the sheet in use; the sheet list is unchanged |
| `Skins.NextIndex` | 01_HW/skins/script.js:7 | `(c + 1) % length` is `c + 1`, or 0 from the last index |
| `Skins.AdvanceStraight` | 01_HW/skins/script.js:7 | before the end of the list, `k` clicks move the index `k` places |
| `Skins.WrapAround` | 01_HW/skins/script.js:7 | clicking until the end of the list brings the index back to 0 |
| `Skins.FullCycle` | 01_HW/skins/script.js:7 | as many clicks as there are sheets bring back the starting state |
| `Skins.AdvanceFromStart` | 01_HW/skins/script.js:2-7 | from the start, `n` clicks select sheet `n mod 3`, and the list stays the same |
| `Skins.ClicksFromStart` | 01_HW/skins/script.js:1-9 | the first three clicks show `dark.css`, `modern.css`, then `basic.css` |

## Left out

- Rendering is not modelled: `renderSongs`, `resetForm`, the form filling in `editSong`, the table/cards toggle and the search and sort listeners. They only write to the DOM.
- Persistence is not modelled: `saveToStorage` and the initial `localStorage` load. The song list is a parameter instead.
- `openPlayer` and `playSong` are not modelled. They open a browser window, and the window position uses floating-point division.
- `Date.now()`, `confirm()` and `new URL()` are parameters, so the model does not depend on clocks, dialogs or URL parsing.
- `Strings.LexCompare`: `localeCompare` is modelled as lexicographic order on Unicode scalar values, not locale-aware collation. Collation tables belong to the platform. The name sort is only stated against this order.
- `Strings`: strings are sequences of Unicode scalar values (Dafny's `char`), not UTF-16 code units as in JavaScript. Lone surrogates cannot be represented. A character outside the Basic Multilingual Plane counts as one element, where `slice`, `includes`, `split` and `trim` see two code units. Ordering differs from code-unit order once such characters are involved.
- `Strings.LowerChar`: `toLowerCase` is modelled for ASCII letters only. Full Unicode case mapping is platform data.
- `Strings.IsWhiteSpace` lists the ECMAScript WhiteSpace and LineTerminator code points. `trim` removes exactly these.
- `Songs.Song`: JavaScript numbers are modelled as unbounded integers. Clock readings and ratings are small enough that doubles hold them exactly, so the comparators' subtractions are exact.
- `Songs.Song` cannot hold records that are missing a title or a link. The page never writes such records. A missing date is held as 0, which JavaScript treats as falsy in the same way.
- `Playlist.SongForm`: the hidden id field is `Option<int>`, not a string passed through `Number(...)`. The field only ever holds an id that `editSong` wrote there.
- `Playlist.Accepts` does not model a rating button whose value is not a number (`NaN`). The page's buttons carry numbers.
- `Skins.ChangeSkin` requires the index to be in range. The script starts at 0, and only this function changes the index. `console.log` and the DOM lookup of the theme link are left out; the new link address is returned instead.
- The other scripts are not part of this model:
  - `04_HtmlElements/index.js` is floating-point arithmetic and a print-only demo.
  - `06_Client_Server/index.js` is Express routing.
  - `01_HW/Class_Work_1/script.js` is DOM navigation.
  - The "Final project" playlist manager, with its play queue and server sync, is also outside the model.
