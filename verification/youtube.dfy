/**
 * YouTube video ids: pulling one out of a pasted link (`extractYouTubeId`)
 * and turning the id of a song into a thumbnail address (`getThumbnailUrl`).
 * Parsing the link itself (`new URL(url)`) is the platform's job: it is a
 * parameter here that yields the host name, the path and the first `v`
 * query parameter, or `None` where the constructor throws.
 */
module YouTube {
  import opened Wrappers
  import opened Strings
  import opened Songs

  /** What the code reads from a `URL` object. */
  datatype ParsedUrl = ParsedUrl(hostname: string, pathname: string, v: Option<string>)

  /** `new URL(url)`: `None` when the constructor throws. */
  type UrlParser = string -> Option<ParsedUrl>

  const ShortLinkHost: string := "youtu.be"
  const EmbedPrefix: string := "/embed/"
  const ThumbnailPrefix: string := "https://img.youtube.com/vi/"
  const ThumbnailSuffix: string := "/hqdefault.jpg"

  /** `s.slice(n)` for a non-negative `n`. */
  function SliceFrom(s: string, n: nat): (r: string)
    ensures n <= |s| ==> s == s[..n] + r
    ensures n >= |s| ==> r == ""
  {
    if n <= |s| then s[n..] else ""
  }

  /**
   * The id a parsed link names: a short-link host gives the path after its
   * first character; otherwise a non-empty `v` parameter; otherwise, for an
   * `/embed/` path, the third `/`-separated piece when it is non-empty.
   */
  function ExtractFromParsed(u: Option<ParsedUrl>): (r: Option<string>)
    ensures r.Some? ==> u.Some?
    ensures r.Some? && !Contains(u.value.hostname, ShortLinkHost) ==> r.value != ""
  {
    match u
    case None => None
    case Some(p) =>
      if Contains(p.hostname, ShortLinkHost) then Some(SliceFrom(p.pathname, 1))
      else if Truthy(p.v) then p.v
      else if StartsWith(p.pathname, EmbedPrefix) then
        var parts := Split(p.pathname, '/');
        // `parts[2] || null`: a missing or empty third piece gives null
        if |parts| > 2 && parts[2] != "" then Some(parts[2]) else None
      else None
  }

  /** `extractYouTubeId(url)`; an unparsable link gives `None`. */
  function ExtractYouTubeId(url: string, parse: UrlParser): (r: Option<string>)
    ensures parse(url).None? ==> r.None?
  {
    ExtractFromParsed(parse(url))
  }

  /** A short link `https://youtu.be/<id>` gives `<id>`, whatever its query string says. */
  lemma ExtractShortLink(p: ParsedUrl, id: string)
    requires Contains(p.hostname, ShortLinkHost)
    requires p.pathname == "/" + id
    ensures ExtractFromParsed(Some(p)) == Some(id)
  {
  }

  /** On any other host a non-empty `v` parameter wins over the path. */
  lemma ExtractWatchParam(p: ParsedUrl)
    requires !Contains(p.hostname, ShortLinkHost)
    requires p.v.Some? && p.v.value != ""
    ensures ExtractFromParsed(Some(p)) == p.v
  {
  }

  /** A path starting `/embed/` splits into an empty piece, `embed`, and the pieces of the rest. */
  lemma EmbedSplit(rest: string)
    ensures Split(EmbedPrefix + rest, '/') == ["", "embed"] + Split(rest, '/')
  {
    var afterSlash := "embed" + ['/'] + rest;
    assert EmbedPrefix + rest == "" + ['/'] + afterSlash;
    SplitAfterSeparator("", afterSlash, '/');
    SplitAfterSeparator("embed", rest, '/');
  }

  /** The first piece of `<seg>` or `<seg>/...` is `<seg>`. */
  lemma SplitFirstPiece(seg: string, tail: string, sep: char)
    requires sep !in seg
    requires tail == "" || tail[0] == sep
    ensures Split(seg + tail, sep)[0] == seg
  {
    if tail == "" {
      assert seg + tail == seg;
      SplitNoSeparator(seg, sep);
    } else {
      assert seg + tail == seg + [sep] + tail[1..];
      SplitAfterSeparator(seg, tail[1..], sep);
    }
  }

  /** The third `/`-separated piece of `/embed/<seg>` or `/embed/<seg>/...` is `<seg>`. */
  lemma EmbedPieces(path: string, seg: string, tail: string)
    requires path == EmbedPrefix + seg + tail
    requires '/' !in seg
    requires tail == "" || tail[0] == '/'
    ensures StartsWith(path, EmbedPrefix)
    ensures |Split(path, '/')| > 2 && Split(path, '/')[2] == seg
  {
    assert path == EmbedPrefix + (seg + tail);
    EmbedSplit(seg + tail);
    SplitFirstPiece(seg, tail, '/');
  }

  /**
   * Without a short-link host or a `v` parameter, a path `/embed/<seg>` or
   * `/embed/<seg>/...` gives `<seg>`, or `None` when `<seg>` is empty.
   */
  lemma ExtractEmbed(p: ParsedUrl, seg: string, tail: string)
    requires !Contains(p.hostname, ShortLinkHost)
    requires !Truthy(p.v)
    requires p.pathname == EmbedPrefix + seg + tail
    requires '/' !in seg
    requires tail == "" || tail[0] == '/'
    ensures ExtractFromParsed(Some(p)) == if seg == "" then None else Some(seg)
  {
    EmbedPieces(p.pathname, seg, tail);
  }

  /** Any other parsable link names no video. */
  lemma ExtractOther(p: ParsedUrl)
    requires !Contains(p.hostname, ShortLinkHost)
    requires !Truthy(p.v)
    requires !StartsWith(p.pathname, EmbedPrefix)
    ensures ExtractFromParsed(Some(p)) == None
  {
  }

  /** `song.videoId || extractYouTubeId(song.url)`. */
  function VideoIdOf(song: Song, parse: UrlParser): (r: Option<string>)
    ensures Truthy(song.videoId) ==> r == song.videoId
    ensures !Truthy(song.videoId) ==> r == ExtractYouTubeId(song.url, parse)
    ensures Truthy(r) <==> Truthy(song.videoId) || Truthy(ExtractYouTubeId(song.url, parse))
  {
    if Truthy(song.videoId) then song.videoId else ExtractYouTubeId(song.url, parse)
  }

  /**
   * `getThumbnailUrl(song)`: empty exactly when the song has no usable id;
   * otherwise the id, framed by the thumbnail host prefix and suffix.
   */
  function ThumbnailUrl(song: Song, parse: UrlParser): (r: string)
    ensures r == "" <==> !Truthy(song.videoId) && !Truthy(ExtractYouTubeId(song.url, parse))
    ensures r != "" ==>
      && |r| >= |ThumbnailPrefix| + |ThumbnailSuffix|
      && r[..|ThumbnailPrefix|] == ThumbnailPrefix
      && r[|r| - |ThumbnailSuffix|..] == ThumbnailSuffix
      && Some(r[|ThumbnailPrefix|..|r| - |ThumbnailSuffix|]) == VideoIdOf(song, parse)
  {
    var id := VideoIdOf(song, parse);
    if !Truthy(id) then ""
    else
      var r := ThumbnailPrefix + id.value + ThumbnailSuffix;
      assert r[..|ThumbnailPrefix|] == ThumbnailPrefix;
      assert r[|r| - |ThumbnailSuffix|..] == ThumbnailSuffix;
      assert r[|ThumbnailPrefix|..|r| - |ThumbnailSuffix|] == id.value;
      r
  }
}
