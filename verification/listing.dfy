/**
 * `getVisibleSongs`: the songs whose title contains the search text, ignoring
 * case, sorted by the chosen mode. `Array.prototype.sort` is stable, so the
 * sort is modelled as a stable insertion sort under the page's comparators.
 */
module Listing {
  import opened Seqs
  import opened Strings
  import opened Songs

  /** The three sort choices; any choice other than "name" and "rating" sorts newest first. */
  datatype SortMode = Newest | ByName | ByRating

  function ModeOf(choice: string): (m: SortMode)
    ensures m == ByName <==> choice == "name"
    ensures m == ByRating <==> choice == "rating"
  {
    if choice == "name" then ByName
    else if choice == "rating" then ByRating
    else Newest
  }

  /** The comparator handed to `sort`: negative puts `a` first, positive puts `b` first. */
  function Compare(m: SortMode, a: Song, b: Song): (r: int)
    ensures m == ByName ==>
      && (r < 0 <==> a.title != b.title && LexLe(a.title, b.title))
      && (r == 0 <==> a.title == b.title)
    ensures m == ByRating ==>
      && (r < 0 <==> RatingKey(a) > RatingKey(b) || (RatingKey(a) == RatingKey(b) && a.dateAdded > b.dateAdded))
      && (r == 0 <==> RatingKey(a) == RatingKey(b) && a.dateAdded == b.dateAdded)
    ensures m == Newest ==>
      && (r < 0 <==> a.dateAdded > b.dateAdded)
      && (r == 0 <==> a.dateAdded == b.dateAdded)
  {
    match m
    case ByName => LexCompare(a.title, b.title)
    case ByRating =>
      if RatingKey(b) != RatingKey(a) then RatingKey(b) - RatingKey(a)
      else b.dateAdded - a.dateAdded
    case Newest => b.dateAdded - a.dateAdded
  }

  /** `a` may stand before `b` in the sorted list. */
  predicate Le(m: SortMode, a: Song, b: Song) {
    Compare(m, a, b) <= 0
  }

  /** `a` and `b` compare equal: the stable sort keeps them in their input order. */
  predicate SameKeyAs(m: SortMode, a: Song, b: Song) {
    Le(m, a, b) && Le(m, b, a)
  }

  /** The songs that compare equal to `x`, as a filter predicate. */
  function SameKey(m: SortMode, x: Song): Song -> bool {
    (y: Song) => SameKeyAs(m, y, x)
  }

  /** Under `name` a song may precede another exactly when its title is lexicographically no larger. */
  lemma LeByName(a: Song, b: Song)
    ensures Le(ByName, a, b) <==> LexLe(a.title, b.title)
  {
    LexLeRefl(a.title);
  }

  lemma LeTotal(m: SortMode, a: Song, b: Song)
    ensures Le(m, a, b) || Le(m, b, a)
  {
    if m == ByName {
      LeByName(a, b);
      LeByName(b, a);
      LexLeTotal(a.title, b.title);
    }
  }

  lemma LeTrans(m: SortMode, a: Song, b: Song, c: Song)
    requires Le(m, a, b) && Le(m, b, c)
    ensures Le(m, a, c)
  {
    if m == ByName {
      LeByName(a, b);
      LeByName(b, c);
      LeByName(a, c);
      LexLeTrans(a.title, b.title, c.title);
    }
  }

  ghost predicate Sorted(m: SortMode, s: seq<Song>) {
    forall i, j :: 0 <= i < j < |s| ==> Le(m, s[i], s[j])
  }

  lemma PrependSorted(m: SortMode, h: Song, s: seq<Song>)
    requires Sorted(m, s)
    requires forall k :: 0 <= k < |s| ==> Le(m, h, s[k])
    ensures Sorted(m, [h] + s)
  {
    var r := [h] + s;
    forall i, j | 0 <= i < j < |r|
      ensures Le(m, r[i], r[j])
    {
      if i > 0 {
        assert r[i] == s[i - 1] && r[j] == s[j - 1];
      }
    }
  }

  lemma SortedTail(m: SortMode, t: seq<Song>)
    requires Sorted(m, t) && |t| > 0
    ensures Sorted(m, t[1..])
  {
    var t' := t[1..];
    forall i, j | 0 <= i < j < |t'|
      ensures Le(m, t'[i], t'[j])
    {
      assert t'[i] == t[i + 1] && t'[j] == t[j + 1];
    }
  }

  lemma InsertFront(m: SortMode, x: Song, t: seq<Song>)
    requires Sorted(m, t)
    requires |t| > 0 && Le(m, x, t[0])
    ensures Sorted(m, [x] + t)
  {
    forall k | 0 <= k < |t|
      ensures Le(m, x, t[k])
    {
      if k > 0 {
        LeTrans(m, x, t[0], t[k]);
      }
    }
    PrependSorted(m, x, t);
  }

  /** Every element of a permutation of `t + [x]` is `x` or an element of `t`. */
  lemma FromInsert(m: SortMode, h: Song, x: Song, t: seq<Song>, r: seq<Song>)
    requires Sorted(m, [h] + t)
    requires Le(m, h, x)
    requires multiset(r) == multiset(t) + multiset{x}
    ensures forall k :: 0 <= k < |r| ==> Le(m, h, r[k])
  {
    var ht := [h] + t;
    forall k | 0 <= k < |r|
      ensures Le(m, h, r[k])
    {
      assert r[k] in multiset(r);
      if r[k] != x {
        assert r[k] in multiset(t);
        var j :| 0 <= j < |t| && t[j] == r[k];
        assert ht[0] == h && ht[j + 1] == t[j];
      }
    }
  }

  /** Insert `x` into the sorted `t` in front of the first element it may precede. */
  function Insert(m: SortMode, x: Song, t: seq<Song>): (r: seq<Song>)
    requires Sorted(m, t)
    ensures multiset(r) == multiset(t) + multiset{x}
    ensures Sorted(m, r)
    decreases |t|
  {
    if |t| == 0 then [x]
    else if Le(m, x, t[0]) then
      InsertFront(m, x, t);
      [x] + t
    else
      assert t == [t[0]] + t[1..];
      var rest := Insert(m, x, t[1..]);
      LeTotal(m, x, t[0]);
      FromInsert(m, t[0], x, t[1..], rest);
      PrependSorted(m, t[0], rest);
      [t[0]] + rest
  }

  /** Stable insertion sort: sorted, and a permutation of its input. */
  function SortSongs(m: SortMode, s: seq<Song>): (r: seq<Song>)
    ensures Sorted(m, r)
    ensures multiset(r) == multiset(s)
    decreases |s|
  {
    if |s| == 0 then []
    else
      assert s == [s[0]] + s[1..];
      Insert(m, s[0], SortSongs(m, s[1..]))
  }

  /** Two neighbours of which at most one passes `p` filter the same in either order. */
  lemma SwapFiltered(a: Song, b: Song, rest: seq<Song>, p: Song -> bool)
    requires !(p(a) && p(b))
    ensures Filter([a] + ([b] + rest), p) == Filter([b] + ([a] + rest), p)
  {
    FilterConcat([a], [b] + rest, p);
    FilterConcat([b], rest, p);
    FilterConcat([b], [a] + rest, p);
    FilterConcat([a], rest, p);
    FilterSingleton(a, p);
    FilterSingleton(b, p);
    var fa, fb, fr := Filter([a], p), Filter([b], p), Filter(rest, p);
    calc {
      Filter([a] + ([b] + rest), p);
      fa + (fb + fr);
      { assert fa == [] || fb == []; }
      fb + (fa + fr);
      Filter([b] + ([a] + rest), p);
    }
  }

  /** Songs in strict order never both tie with the same song. */
  lemma NotBothTies(m: SortMode, a: Song, b: Song, x: Song)
    requires !Le(m, a, b)
    ensures !(SameKey(m, x)(a) && SameKey(m, x)(b))
  {
    if SameKeyAs(m, a, x) && SameKeyAs(m, b, x) {
      LeTrans(m, a, x, b);
    }
  }

  /** Inserting `y` keeps, for every key, the order of the songs with that key. */
  lemma {:induction false} InsertKeepsTies(m: SortMode, y: Song, t: seq<Song>, x: Song)
    requires Sorted(m, t)
    ensures Filter(Insert(m, y, t), SameKey(m, x)) == Filter([y] + t, SameKey(m, x))
    decreases |t|
  {
    var p := SameKey(m, x);
    if |t| > 0 && !Le(m, y, t[0]) {
      var t' := t[1..];
      SortedTail(m, t);
      var ins := Insert(m, y, t');
      InsertKeepsTies(m, y, t', x);
      FilterConcat([t[0]], ins, p);
      FilterConcat([t[0]], [y] + t', p);
      NotBothTies(m, y, t[0], x);
      SwapFiltered(t[0], y, t', p);
      assert t == [t[0]] + t';
      calc {
        Filter(Insert(m, y, t), p);
        Filter([t[0]] + ins, p);
        Filter([t[0]], p) + Filter(ins, p);
        Filter([t[0]], p) + Filter([y] + t', p);
        Filter([t[0]] + ([y] + t'), p);
        Filter([y] + ([t[0]] + t'), p);
        Filter([y] + t, p);
      }
    } else {
      assert Insert(m, y, t) == [y] + t;
    }
  }

  /** The sort is stable: for every key, the songs with that key keep their input order. */
  lemma {:induction false} SortStable(m: SortMode, s: seq<Song>, x: Song)
    ensures Filter(SortSongs(m, s), SameKey(m, x)) == Filter(s, SameKey(m, x))
    decreases |s|
  {
    if |s| > 0 {
      var p := SameKey(m, x);
      var sorted := SortSongs(m, s[1..]);
      assert SortSongs(m, s) == Insert(m, s[0], sorted);
      SortStable(m, s[1..], x);
      InsertKeepsTies(m, s[0], sorted, x);
      FilterConcat([s[0]], sorted, p);
      FilterConcat([s[0]], s[1..], p);
      assert s == [s[0]] + s[1..];
    }
  }

  /** `song.title.toLowerCase().includes(search.toLowerCase())`. */
  function Matches(song: Song, search: string): (b: bool)
    ensures b <==> exists i :: OccursAt(Lower(song.title), Lower(search), i)
  {
    ContainsIffOccurs(Lower(song.title), Lower(search));
    Contains(Lower(song.title), Lower(search))
  }

  function MatchesSearch(search: string): Song -> bool {
    (song: Song) => Matches(song, search)
  }

  /** The filter step: the matching songs, in list order. */
  function FilterSongs(songs: seq<Song>, search: string): (r: seq<Song>)
    ensures forall x :: multiset(r)[x] == if Matches(x, search) then multiset(songs)[x] else 0
    ensures Subseq(r, songs)
  {
    FilterMultiset(songs, MatchesSearch(search));
    FilterIsSubseq(songs, MatchesSearch(search));
    Filter(songs, MatchesSearch(search))
  }

  /** `getVisibleSongs()` for the current search text and sort choice. */
  function VisibleSongs(songs: seq<Song>, search: string, sortChoice: string): (r: seq<Song>)
    ensures multiset(r) == multiset(FilterSongs(songs, search))
    ensures Sorted(ModeOf(sortChoice), r)
  {
    SortSongs(ModeOf(sortChoice), FilterSongs(songs, search))
  }

  /** A song is visible exactly when it is in the list and its title matches the search. */
  lemma VisibleIff(songs: seq<Song>, search: string, sortChoice: string, x: Song)
    ensures x in VisibleSongs(songs, search, sortChoice) <==> x in songs && Matches(x, search)
  {
    var r := VisibleSongs(songs, search, sortChoice);
    assert x in r <==> x in multiset(r);
    assert x in songs <==> x in multiset(songs);
  }

  /** An empty search keeps every song, in list order, before sorting. */
  lemma EmptySearchKeepsAll(songs: seq<Song>)
    ensures FilterSongs(songs, "") == songs
  {
    forall k | 0 <= k < |songs|
      ensures MatchesSearch("")(songs[k])
    {
      ContainsEmpty(Lower(songs[k].title));
    }
    FilterAll(songs, MatchesSearch(""));
  }

  /** The search is case-insensitive: lower-casing the search text changes nothing. */
  lemma SearchIgnoresCase(songs: seq<Song>, search: string)
    ensures FilterSongs(songs, Lower(search)) == FilterSongs(songs, search)
  {
    LowerIdempotent(search);
    FilterExt(songs, MatchesSearch(Lower(search)), MatchesSearch(search));
  }

  /** Under "name" the visible titles never decrease. */
  lemma NameOrder(songs: seq<Song>, search: string)
    ensures var r := VisibleSongs(songs, search, "name");
      forall i, j :: 0 <= i < j < |r| ==> LexLe(r[i].title, r[j].title)
  {
    var r := VisibleSongs(songs, search, "name");
    forall i, j | 0 <= i < j < |r|
      ensures LexLe(r[i].title, r[j].title)
    {
      LeByName(r[i], r[j]);
    }
  }

  /** Under "rating" ratings never increase, and equal ratings put the newer song first. */
  lemma RatingOrder(songs: seq<Song>, search: string)
    ensures var r := VisibleSongs(songs, search, "rating");
      forall i, j :: 0 <= i < j < |r| ==>
        && RatingKey(r[i]) >= RatingKey(r[j])
        && (RatingKey(r[i]) == RatingKey(r[j]) ==> r[i].dateAdded >= r[j].dateAdded)
  {
  }

  /** Under any other choice the newest song comes first. */
  lemma NewestOrder(songs: seq<Song>, search: string, sortChoice: string)
    requires sortChoice != "name" && sortChoice != "rating"
    ensures var r := VisibleSongs(songs, search, sortChoice);
      forall i, j :: 0 <= i < j < |r| ==> r[i].dateAdded >= r[j].dateAdded
  {
  }

  /** Songs that tie under the chosen comparator appear in the order they have in the list. */
  lemma VisibleStable(songs: seq<Song>, search: string, sortChoice: string, x: Song)
    ensures var m := ModeOf(sortChoice);
      Filter(VisibleSongs(songs, search, sortChoice), SameKey(m, x))
        == Filter(FilterSongs(songs, search), SameKey(m, x))
  {
    SortStable(ModeOf(sortChoice), FilterSongs(songs, search), x);
  }
}
