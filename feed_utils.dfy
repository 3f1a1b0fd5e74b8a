/** Feed entries to post records (src/utils/feed_utils.py `parse_feed`, repeated verbatim
    as `parse_feed` in src/utils.py): one dictionary per entry with a publication date taken
    from `published_parsed`, else `updated_parsed`, and an image taken from the first media
    item, else from the first `<img>` of the first content block. */
module FeedUtils {
  import opened Base
  import opened Feedparser
  import Html

  /** The dictionary's 'image_url' key: absent, present with None, or a URL. */
  datatype ImageSlot = Unset | Null | Url(url: string)

  datatype PostDict = PostDict(
    title: string,
    description: string,
    summary: string,
    link: string,
    publishedDate: Option<Timestamp>,
    image: ImageSlot)

  /** The publication date: the published time when present and non-empty, else the
      updated time, else None; `mktime` and `fromtimestamp` are the `localTime` parameter. */
  function PublishedDate(e: Entry, localTime: LocalTime): (r: Option<Timestamp>)
    ensures r.None? <==> !TimeTruthy(e.publishedParsed) && !TimeTruthy(e.updatedParsed)
    ensures TimeTruthy(e.publishedParsed) ==> r == Some(localTime(e.publishedParsed.value))
    ensures !TimeTruthy(e.publishedParsed) && TimeTruthy(e.updatedParsed) ==> r == Some(localTime(e.updatedParsed.value))
  {
    if TimeTruthy(e.publishedParsed) then Some(localTime(e.publishedParsed.value))
    else if TimeTruthy(e.updatedParsed) then Some(localTime(e.updatedParsed.value))
    else None
  }

  /** The image slot, or None where `entry.media_content[0]` raises on an empty list. */
  function ImageOf(e: Entry, firstImg: Html.FirstImg): (r: Option<ImageSlot>)
    ensures r.None? <==> e.mediaContent == Some([])
    ensures r == Some(Null) <==> e.mediaContent.None? && (e.content.None? || e.content.value == [])
    ensures e.mediaContent.Some? && r.Some? ==>
            (r.value.Url? <==> "url" in e.mediaContent.value[0])
    ensures e.mediaContent.None? && r.Some? && r.value.Url? ==> r.value.url != []
    ensures e.mediaContent.Some? && e.mediaContent.value != [] ==>
            var media := e.mediaContent.value[0];
            r == if "url" in media then Some(Url(media["url"])) else Some(Unset)
    ensures e.mediaContent.None? && e.content.Some? && e.content.value != [] ==>
            var img := firstImg(e.content.value[0]);
            && (r.value.Url? <==> img.Some? && "src" in img.value && img.value["src"] != [])
            && (r.value.Url? ==> r.value.url == img.value["src"])
            && (!r.value.Url? ==> r.value == Unset)
  {
    if e.mediaContent.Some? then
      var mc := e.mediaContent.value;
      if mc == [] then None
      else if "url" in mc[0] then Some(Url(mc[0]["url"]))
      else Some(Unset)
    else if e.content.Some? && e.content.value != [] then
      match firstImg(e.content.value[0])
      case Some(img) =>
        if "src" in img && img["src"] != [] then Some(Url(img["src"])) else Some(Unset)
      case None => Some(Unset)
    else Some(Null)
  }

  /** Media wins over content: with a media item, the content of the entry plays no part. */
  lemma ImageOfMediaWins(e: Entry, firstImg: Html.FirstImg, other: Entry)
    requires e.mediaContent.Some? && e.mediaContent.value != [] && other.mediaContent == e.mediaContent
    ensures ImageOf(other, firstImg) == ImageOf(e, firstImg)
  {
  }

  /** The dictionary built for one entry, or None where building it raises. Title,
      description, summary and link each default to '' on their own. */
  function EntryToPost(e: Entry, localTime: LocalTime, firstImg: Html.FirstImg): (r: Option<PostDict>)
    ensures r.None? <==> ImageOf(e, firstImg).None?
    ensures r.Some? ==> r.value.image == ImageOf(e, firstImg).value
    ensures r.Some? ==> r.value.publishedDate == PublishedDate(e, localTime)
  {
    match ImageOf(e, firstImg)
    case None => None
    case Some(image) =>
      Some(PostDict(OrEmpty(e.title), OrEmpty(e.description), OrEmpty(e.summary), OrEmpty(e.link),
                    PublishedDate(e, localTime), image))
  }

  /** There is no fallback between description and summary: a missing description is '',
      whatever the summary holds. */
  lemma NoDescriptionFallback(e: Entry, localTime: LocalTime, firstImg: Html.FirstImg)
    requires EntryToPost(e, localTime, firstImg).Some?
    requires e.description.None? && e.summary.Some?
    ensures EntryToPost(e, localTime, firstImg).value.description == ""
    ensures EntryToPost(e, localTime, firstImg).value.summary == e.summary.value
  {
  }

  /** The records of all entries, or None as soon as one entry raises. */
  function AllPosts(entries: seq<Entry>, localTime: LocalTime, firstImg: Html.FirstImg): (r: Option<seq<PostDict>>)
    ensures r.Some? ==> |r.value| == |entries|
    ensures r.Some? ==> forall k :: 0 <= k < |entries| ==> Some(r.value[k]) == EntryToPost(entries[k], localTime, firstImg)
    decreases |entries|
  {
    if entries == [] then Some([])
    else
      var n := |entries| - 1;
      match AllPosts(entries[..n], localTime, firstImg)
      case None => None
      case Some(ps) =>
        match EntryToPost(entries[n], localTime, firstImg)
        case None => None
        case Some(p) => Some(ps + [p])
  }

  /** An entry that raises makes the whole list raise. */
  lemma {:induction false} AllPostsFails(entries: seq<Entry>, localTime: LocalTime, firstImg: Html.FirstImg, k: nat)
    requires k < |entries| && EntryToPost(entries[k], localTime, firstImg).None?
    ensures AllPosts(entries, localTime, firstImg).None?
    decreases |entries|
  {
    var n := |entries| - 1;
    if k < n {
      AllPostsFails(entries[..n], localTime, firstImg, k);
    }
  }

  /** What `parse_feed` returns for a parse result. */
  function ParsedPosts(parsed: Parsed, localTime: LocalTime, firstImg: Html.FirstImg): seq<PostDict> {
    if parsed.None? then []
    else
      match AllPosts(parsed.value, localTime, firstImg)
      case None => []
      case Some(ps) => ps
  }

  /** `feedparser.parse`, `mktime` and the HTML parser that `parse_feed` relies on. */
  datatype FeedEnv = FeedEnv(parse: string -> Parsed, localTime: LocalTime, firstImg: Html.FirstImg)

  /** `parse_feed`: the loop over `feed.entries`, from scratch on every call. A parse
      failure yields []; so does an entry that raises, which discards the records already
      built. */
  method ParseFeed(parsed: Parsed, localTime: LocalTime, firstImg: Html.FirstImg) returns (posts: seq<PostDict>)
    ensures parsed.None? ==> posts == []
    ensures parsed.Some? && (exists k :: 0 <= k < |parsed.value| && EntryToPost(parsed.value[k], localTime, firstImg).None?)
            ==> posts == []
    ensures parsed.Some? && (forall k :: 0 <= k < |parsed.value| ==> EntryToPost(parsed.value[k], localTime, firstImg).Some?)
            ==> |posts| == |parsed.value|
                && forall k :: 0 <= k < |posts| ==> Some(posts[k]) == EntryToPost(parsed.value[k], localTime, firstImg)
    ensures posts == ParsedPosts(parsed, localTime, firstImg)
  {
    if parsed.None? {
      return [];
    }
    var entries := parsed.value;
    posts := [];
    var i := 0;
    while i < |entries|
      invariant 0 <= i <= |entries| && |posts| == i
      invariant forall k :: 0 <= k < i ==> Some(posts[k]) == EntryToPost(entries[k], localTime, firstImg)
      invariant AllPosts(entries[..i], localTime, firstImg) == Some(posts)
    {
      var post := EntryToPost(entries[i], localTime, firstImg);
      if post.None? {
        AllPostsFails(entries, localTime, firstImg, i);
        return [];
      }
      assert entries[..i + 1][..i] == entries[..i];
      posts := posts + [post.value];
      i := i + 1;
    }
    assert entries[..i] == entries;
  }
}
