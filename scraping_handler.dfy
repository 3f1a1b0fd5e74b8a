/** The scraping dialog (src/handlers/scraping_handler.py): for every URL it finds a feed
    (the URL itself when it already looks like one, else by searching the page), records the
    pair in the links table, scrapes the feed's entries into articles and saves each into the
    articles table. */
module ScrapingHandler {
  import opened Base
  import opened Html
  import opened Feedparser
  import ArticleModel
  import LinkModel

  // ---- feed discovery -----------------------------------------------------------------

  const FeedMimes: seq<string> := ["application/rss+xml", "application/atom+xml", "application/feed+xml"]

  /** `link.get('type') in [...]`: the type is exactly one of the three feed MIME types. */
  predicate IsFeedLink(t: Tag) {
    Get(t, "type").Some? && Get(t, "type").value in FeedMimes
  }

  /** `'feed' in href or 'rss' in href or 'atom' in href`, case-sensitive. */
  predicate IsFeedAnchor(t: Tag) {
    var href := GetOr(t, "href", "");
    Contains(href, "feed") || Contains(href, "rss") || Contains(href, "atom")
  }

  /** `find_feed_urls(url)` as a value: the first matching `<link>`, else the first matching
      `<a>`, resolved against the page URL; a request that raises gives None. The HTTP
      status is not checked. */
  function FeedUrlOf(url: string, resp: Response, join: UrlJoin): (r: Option<string>)
    ensures resp.RequestFailed? ==> r.None?
  {
    if resp.RequestFailed? then None
    else
      var links := FindAll(resp.page, "link");
      var anchors := FindAll(resp.page, "a");
      match FirstWhere(links, IsFeedLink)
      case Some(i) => Some(join(url, GetOr(links[i], "href", "")))
      case None =>
        match FirstWhere(anchors, IsFeedAnchor)
        case Some(j) => Some(join(url, GetOr(anchors[j], "href", "")))
        case None => None
  }

  /** Link tags take precedence: any feed `<link>` decides the result, whatever the anchors
      say; and a result from an anchor means that no `<link>` matched. */
  lemma FeedUrlPrecedence(url: string, resp: Response, join: UrlJoin)
    requires resp.Response?
    ensures var links := FindAll(resp.page, "link");
            (exists i :: 0 <= i < |links| && IsFeedLink(links[i])) ==>
            exists i :: 0 <= i < |links| && IsFeedLink(links[i])
                        && (forall j :: 0 <= j < i ==> !IsFeedLink(links[j]))
                        && FeedUrlOf(url, resp, join) == Some(join(url, GetOr(links[i], "href", "")))
    ensures var links := FindAll(resp.page, "link");
            var anchors := FindAll(resp.page, "a");
            FeedUrlOf(url, resp, join).None? <==>
            (forall i :: 0 <= i < |links| ==> !IsFeedLink(links[i]))
            && (forall j :: 0 <= j < |anchors| ==> !IsFeedAnchor(anchors[j]))
  {
    var links := FindAll(resp.page, "link");
    var anchors := FindAll(resp.page, "a");
    match FirstWhere(links, IsFeedLink)
    case Some(i) =>
    case None =>
      match FirstWhere(anchors, IsFeedAnchor)
      case Some(j) =>
      case None =>
  }

  /** `find_feed_urls`: two loops with an early return. */
  method FindFeedUrls(url: string, resp: Response, join: UrlJoin) returns (feedUrl: Option<string>)
    ensures feedUrl == FeedUrlOf(url, resp, join)
  {
    if resp.RequestFailed? {
      return None;
    }
    var links := FindAll(resp.page, "link");
    var i := 0;
    while i < |links|
      invariant 0 <= i <= |links|
      invariant forall k :: 0 <= k < i ==> !IsFeedLink(links[k])
    {
      var t := Get(links[i], "type");
      if t.Some? && t.value in FeedMimes {
        FirstWhereAt(links, IsFeedLink, i);
        return Some(join(url, GetOr(links[i], "href", "")));
      }
      i := i + 1;
    }
    var anchors := FindAll(resp.page, "a");
    var j := 0;
    while j < |anchors|
      invariant 0 <= j <= |anchors|
      invariant forall k :: 0 <= k < j ==> !IsFeedAnchor(anchors[k])
    {
      var href := GetOr(anchors[j], "href", "");
      if Contains(href, "feed") || Contains(href, "rss") || Contains(href, "atom") {
        FirstWhereAt(anchors, IsFeedAnchor, j);
        return Some(join(url, href));
      }
      j := j + 1;
    }
    return None;
  }

  /** The first element satisfying `p` is the one `FirstWhere` finds. */
  lemma FirstWhereAt(s: seq<Tag>, p: Tag -> bool, i: nat)
    requires i < |s| && p(s[i]) && forall k :: 0 <= k < i ==> !p(s[k])
    ensures FirstWhere(s, p) == Some(i)
  {
  }

  /** The already-a-feed test of `handle_scraping`: 'rss', 'atom' or 'feed' in the URL. */
  predicate AlreadyFeed(url: string) {
    Contains(url, "rss") || Contains(url, "atom") || Contains(url, "feed")
  }

  /** `url.split('/')[2]`, or None where the indexing raises. */
  function Host(url: string): (r: Option<string>)
    ensures r.Some? ==> '/' !in r.value
  {
    var parts := Split(url, '/');
    if |parts| > 2 then Some(parts[2]) else None
  }

  /** For a URL of the form `scheme://host/path` the label is the host. */
  lemma HostOfUrl(scheme: string, host: string, path: string)
    requires '/' !in scheme && '/' !in host
    ensures Host(scheme + "//" + host + "/" + path) == Some(host)
    ensures Host(scheme + "//" + host) == Some(host)
  {
    var tail := host + "/" + path;
    assert scheme + "//" + host + "/" + path == scheme + "/" + ("/" + tail);
    SplitPiece(host, path, '/');
    SplitAfterHost(scheme, tail, host);
    assert scheme + "//" + host == scheme + "/" + ("/" + host);
    SplitLone(host, '/');
    SplitAfterHost(scheme, host, host);
  }

  /** `scheme//rest` splits into the scheme, the empty piece, and the pieces of `rest`. */
  lemma SplitAfterHost(scheme: string, rest: string, host: string)
    requires '/' !in scheme && '/' !in host
    requires Split(rest, '/')[0] == host
    ensures var parts := Split(scheme + "/" + ("/" + rest), '/');
            |parts| > 2 && parts[2] == host
  {
    SplitPiece(scheme, "/" + rest, '/');
    assert "/" + rest == [] + ['/'] + rest;
    SplitPiece([], rest, '/');
  }

  /** A URL without two '/' has no label; `handle_scraping` skips it. */
  lemma HostMissing(url: string)
    requires '/' !in url
    ensures Host(url).None?
  {
    SplitJoin([url], '/');
  }

  // ---- entries to articles ------------------------------------------------------------

  /** One scraped article as a dictionary: title, description, link and picture list. Feed
      entries always fill every key; the page scraper may leave any of them None. */
  datatype Article = Article(
    title: Option<string>,
    description: Option<string>,
    link: Option<string>,
    pictureLinks: Option<seq<string>>)

  /** `extract_picture_links`: the first media item's 'url' when `media_content` is present
      (None where an empty list makes the indexing raise), else the 'src' of the first
      `<img>` in the description, else []. */
  function ExtractPictureLinks(e: Entry, firstImg: FirstImg): (r: Option<seq<string>>)
    ensures r.Some? ==> |r.value| <= 1
    ensures r.None? <==> e.mediaContent == Some([])
    ensures e.mediaContent.Some? && r.Some? ==> |r.value| == 1
    ensures e.mediaContent.None? ==> r.Some? && (r.value == [] <==> firstImg(OrEmpty(e.description)).None?)
    ensures e.mediaContent.Some? && e.mediaContent.value != [] ==>
            var media := e.mediaContent.value[0];
            r == Some([if "url" in media then media["url"] else ""])
    ensures e.mediaContent.None? && firstImg(OrEmpty(e.description)).Some? ==>
            var img := firstImg(OrEmpty(e.description)).value;
            r == Some([if "src" in img then img["src"] else ""])
  {
    if e.mediaContent.Some? then
      var mc := e.mediaContent.value;
      if mc == [] then None
      else Some([if "url" in mc[0] then mc[0]["url"] else ""])
    else
      match firstImg(OrEmpty(e.description))
      case None => Some([])
      case Some(img) => Some([if "src" in img then img["src"] else ""])
  }

  /** With media present, the description is never looked at. */
  lemma PictureLinksIgnoreDescription(e: Entry, d: Option<string>, firstImg: FirstImg, firstImg': FirstImg)
    requires e.mediaContent.Some?
    ensures ExtractPictureLinks(e.(description := d), firstImg') == ExtractPictureLinks(e, firstImg)
  {
  }

  /** The dictionary built for one entry in the feed branch of `scrape_single_url`. The
      description falls back to the summary only when the description key is absent. */
  function FeedArticle(e: Entry, pictures: seq<string>): (a: Article)
    ensures a.title == Some(OrEmpty(e.title)) && a.link == Some(OrEmpty(e.link))
    ensures a.pictureLinks == Some(pictures)
    ensures e.description.Some? ==> a.description == e.description
    ensures e.description.None? ==> a.description == Some(OrEmpty(e.summary))
  {
    Article(Some(OrEmpty(e.title)),
      Some(if e.description.Some? then e.description.value else OrEmpty(e.summary)),
      Some(OrEmpty(e.link)), Some(pictures))
  }

  /** The feed branch as a value: one article per entry, in order, or nothing at all when
      any entry's picture extraction raises (the whole branch is inside one `try`). */
  function FeedArticles(entries: seq<Entry>, firstImg: FirstImg): (r: Option<seq<Article>>)
    ensures r.Some? <==> forall k :: 0 <= k < |entries| ==> ExtractPictureLinks(entries[k], firstImg).Some?
    ensures r.Some? ==> |r.value| == |entries| && forall k :: 0 <= k < |entries| ==>
            r.value[k] == FeedArticle(entries[k], ExtractPictureLinks(entries[k], firstImg).value)
    decreases |entries|
  {
    if entries == [] then Some([])
    else
      var n := |entries| - 1;
      match FeedArticles(entries[..n], firstImg)
      case None => None
      case Some(init) =>
        match ExtractPictureLinks(entries[n], firstImg)
        case None => None
        case Some(pics) => Some(init + [FeedArticle(entries[n], pics)])
  }

  /** `scrape_single_url(url, source, is_feed=True)` as a value: empty for a feed that cannot
      be parsed, that has no entries, or whose entries make extraction raise. */
  function ScrapeFeed(parsed: Parsed, firstImg: FirstImg): (r: seq<Article>)
    ensures parsed.None? ==> r == []
    ensures parsed.Some? ==> |r| == 0 || |r| == |parsed.value|
    ensures parsed.Some? && FeedArticles(parsed.value, firstImg).Some? ==> r == FeedArticles(parsed.value, firstImg).value
    ensures parsed.Some? && FeedArticles(parsed.value, firstImg).None? ==> r == []
  {
    if parsed.None? || parsed.value == [] then []
    else match FeedArticles(parsed.value, firstImg)
      case None => []
      case Some(articles) => articles
  }

  /** The feed branch of `scrape_single_url`: a loop appending one article per entry. */
  method ScrapeFeedEntries(parsed: Parsed, firstImg: FirstImg) returns (articles: seq<Article>)
    ensures articles == ScrapeFeed(parsed, firstImg)
  {
    if parsed.None? || parsed.value == [] {
      return [];
    }
    var entries := parsed.value;
    articles := [];
    var i := 0;
    while i < |entries|
      invariant 0 <= i <= |entries|
      invariant FeedArticles(entries[..i], firstImg) == Some(articles)
    {
      var pics := ExtractPictureLinks(entries[i], firstImg);
      assert entries[..i + 1][..i] == entries[..i];
      if pics.None? {
        NoneStaysNone(entries, firstImg, i + 1);
        return [];
      }
      articles := articles + [FeedArticle(entries[i], pics.value)];
      i := i + 1;
    }
    assert entries[..i] == entries;
  }

  /** Once a prefix fails, every longer prefix fails. */
  lemma {:induction false} NoneStaysNone(entries: seq<Entry>, firstImg: FirstImg, i: nat)
    requires i <= |entries| && FeedArticles(entries[..i], firstImg).None?
    ensures FeedArticles(entries, firstImg).None?
    decreases |entries| - i
  {
    if i < |entries| {
      assert entries[..i + 1][..i] == entries[..i];
      NoneStaysNone(entries, firstImg, i + 1);
    } else {
      assert entries[..i] == entries;
    }
  }

  /** `save_scraped_article`: the row to insert. */
  function SaveScrapedArticle(a: Article, source: string): ArticleModel.Submission {
    ArticleModel.Submission(
      if a.title.Some? && a.title.value != [] then Strip(Split(a.title.value, '\n')[0]) else [],
      if a.description.Some? && a.description.value != [] then a.description else a.title,
      a.link,
      if a.pictureLinks.Some? && a.pictureLinks.value != [] then Some(Join(a.pictureLinks.value, ',')) else None,
      Some(source))
  }

  /** The saved title is the title's first line, stripped ('' for a missing or empty
      title): it holds no line break and no whitespace at either end. */
  lemma SavedTitle(a: Article, source: string)
    ensures var title := SaveScrapedArticle(a, source).title;
            && (a.title.Some? && a.title.value != [] ==> title == Strip(Split(a.title.value, '\n')[0]))
            && (a.title.None? || a.title.value == [] ==> title == [])
            && '\n' !in title
            && (title == [] || (!IsSpace(title[0]) && !IsSpace(title[|title| - 1])))
            && (a.title.Some? ==> Contains(a.title.value, title))
  {
    if a.title.Some? && a.title.value != [] {
      FirstLineTitle(a.title.value);
    } else if a.title.Some? {
      assert OccursAt(a.title.value, [], 0);
    }
  }

  /** The title text comes from the first line: the part of the title before its first
      '\n' (all of it when it has none), stripped. */
  lemma FirstLineTitle(title: string)
    ensures var line := Split(title, '\n')[0];
            && StartsWith(title, line) && (|line| == |title| || title[|line|] == '\n')
            && '\n' !in Strip(line) && Contains(title, Strip(line))
  {
    var parts := Split(title, '\n');
    assert '\n' !in parts[0];
    StrippedLine(title, parts[0]);
  }

  lemma StrippedLine(title: string, line: string)
    requires StartsWith(title, line) && '\n' !in line
    ensures '\n' !in Strip(line) && Contains(title, Strip(line))
  {
    var t := Strip(line);
    var i :| 0 <= i <= |line| && OccursAt(line, t, i);
    InfixOfLine(title, line, t, i);
  }

  lemma InfixOfLine(title: string, line: string, t: string, i: int)
    requires StartsWith(title, line) && '\n' !in line && OccursAt(line, t, i)
    ensures '\n' !in t && OccursAt(title, t, i)
  {
    forall k | 0 <= k < |t| ensures t[k] != '\n' {
      assert t[k] == line[i + k];
    }
    assert title[i..i + |t|] == line[i..i + |t|];
  }

  /** The saved description is the article's own when non-empty, otherwise its original
      (untruncated) title; the link and source pass through. */
  lemma SavedDescription(a: Article, source: string)
    ensures var s := SaveScrapedArticle(a, source);
            && (a.description.Some? && a.description.value != [] ==> s.description == a.description)
            && (!(a.description.Some? && a.description.value != []) ==> s.description == a.title)
            && s.url == a.link && s.source == Some(source)
  {
  }

  /** The picture list comes back out of the articles table exactly: comma-free URLs whose
      join is non-empty round-trip through the stored comma-joined string. */
  lemma SavedPicturesRoundTrip(a: Article, source: string)
    requires a.pictureLinks.Some?
    requires forall k :: 0 <= k < |a.pictureLinks.value| ==> ',' !in a.pictureLinks.value[k]
    requires Join(a.pictureLinks.value, ',') != []
    ensures var s := SaveScrapedArticle(a, source);
            s.imageUrls.Some? && ArticleModel.ConvertImageUrls(s.imageUrls.value) == a.pictureLinks.value
  {
    ArticleModel.ImageUrlsRoundTrip(a.pictureLinks.value);
  }

  /** An article without pictures is saved with a NULL image list. */
  lemma SavedNoPictures(a: Article, source: string)
    requires a.pictureLinks.None? || a.pictureLinks.value == []
    ensures SaveScrapedArticle(a, source).imageUrls.None?
  {
  }

  // ---- the scraping loop --------------------------------------------------------------

  /** Everything `handle_scraping` receives from outside: the page fetch, the feed parser,
      the page scraper (None when it raises or returns no 'articles'), `urljoin`, and the
      first-`<img>` lookup. */
  datatype Web = Web(
    fetch: string -> Response,
    parse: string -> Parsed,
    scrape: string -> Option<seq<Article>>,
    join: UrlJoin,
    firstImg: FirstImg)

  /** Python truthiness of the found feed URL. */
  predicate Truthy(s: Option<string>) {
    s.Some? && s.value != []
  }

  /** The feed URL `handle_scraping` settles on for one URL. */
  function RssFor(url: string, web: Web): (r: Option<string>)
    ensures AlreadyFeed(url) ==> r == Some(url)
  {
    if AlreadyFeed(url) then Some(url) else FeedUrlOf(url, web.fetch(url), web.join)
  }

  /** The articles `scrape_single_url` yields for one URL. */
  function ArticlesFor(url: string, rss: Option<string>, web: Web): seq<Article> {
    if Truthy(rss) then ScrapeFeed(web.parse(rss.value), web.firstImg)
    else match web.scrape(url)
      case None => []
      case Some(articles) => articles
  }

  /** Saving a list of articles one after another. */
  function SaveAll(t: ArticleModel.ArticleTable, articles: seq<Article>, source: string, now: Timestamp): ArticleModel.ArticleTable
    decreases |articles|
  {
    if articles == [] then t
    else
      var n := |articles| - 1;
      ArticleModel.InsertOrIgnore(SaveAll(t, articles[..n], source, now), SaveScrapedArticle(articles[n], source), now)
  }

  /** The links table after `handle_scraping(urls)`: one `save_link` per URL. */
  function LinksAfter(t: LinkModel.LinkTable, urls: seq<string>, web: Web): LinkModel.LinkTable
    decreases |urls|
  {
    if urls == [] then t
    else
      var n := |urls| - 1;
      LinkModel.SaveLink(LinksAfter(t, urls[..n], web), urls[n], RssFor(urls[n], web))
  }

  /** The articles table after `handle_scraping(urls)`: a URL without a host label raises
      before scraping and contributes nothing. */
  function ArticlesAfter(t: ArticleModel.ArticleTable, urls: seq<string>, web: Web, now: Timestamp): ArticleModel.ArticleTable
    decreases |urls|
  {
    if urls == [] then t
    else
      var n := |urls| - 1;
      var before := ArticlesAfter(t, urls[..n], web, now);
      match Host(urls[n])
      case None => before
      case Some(source) => SaveAll(before, ArticlesFor(urls[n], RssFor(urls[n], web), web), source, now)
  }

  /** Saving only ever adds rows: the earlier rows stay as they were, in place, the table
      stays valid, and each article adds at most one row. */
  lemma {:induction false} SaveAllAdds(t: ArticleModel.ArticleTable, articles: seq<Article>, source: string, now: Timestamp)
    requires ArticleModel.Valid(t)
    ensures var t' := SaveAll(t, articles, source, now);
            ArticleModel.Valid(t') && |t.rows| <= |t'.rows| <= |t.rows| + |articles| && t'.rows[..|t.rows|] == t.rows
    decreases |articles|
  {
    if articles != [] {
      var n := |articles| - 1;
      SaveAllAdds(t, articles[..n], source, now);
      var mid := SaveAll(t, articles[..n], source, now);
      ArticleModel.InsertOrIgnoreValid(mid, SaveScrapedArticle(articles[n], source), now);
      var t' := SaveAll(t, articles, source, now);
      assert t'.rows[..|mid.rows|] == mid.rows;
      assert t'.rows[..|t.rows|] == mid.rows[..|t.rows|];
    }
  }

  /** A failure on one URL never undoes another: across the whole run both tables only
      grow, keep their earlier rows, and stay valid; the links table gains at most one row
      per URL. */
  lemma HandleScrapingAdds(links: LinkModel.LinkTable, articles: ArticleModel.ArticleTable,
                            urls: seq<string>, web: Web, now: Timestamp)
    requires LinkModel.Valid(links) && ArticleModel.Valid(articles)
    ensures var l := LinksAfter(links, urls, web);
            LinkModel.Valid(l) && |links.rows| <= |l.rows| <= |links.rows| + |urls| && l.rows[..|links.rows|] == links.rows
    ensures var a := ArticlesAfter(articles, urls, web, now);
            ArticleModel.Valid(a) && |articles.rows| <= |a.rows| && a.rows[..|articles.rows|] == articles.rows
  {
    LinksAfterAdds(links, urls, web);
    ArticlesAfterAdds(articles, urls, web, now);
  }

  lemma {:induction false} LinksAfterAdds(links: LinkModel.LinkTable, urls: seq<string>, web: Web)
    requires LinkModel.Valid(links)
    ensures var l := LinksAfter(links, urls, web);
            LinkModel.Valid(l) && |links.rows| <= |l.rows| <= |links.rows| + |urls| && l.rows[..|links.rows|] == links.rows
    decreases |urls|
  {
    if urls != [] {
      var n := |urls| - 1;
      LinksAfterAdds(links, urls[..n], web);
      var l := LinksAfter(links, urls[..n], web);
      LinkModel.SaveLinkProperties(l, urls[n], RssFor(urls[n], web));
      var l' := LinksAfter(links, urls, web);
      assert l'.rows[..|l.rows|] == l.rows;
      assert l'.rows[..|links.rows|] == l.rows[..|links.rows|];
    }
  }

  lemma {:induction false} ArticlesAfterAdds(articles: ArticleModel.ArticleTable, urls: seq<string>, web: Web, now: Timestamp)
    requires ArticleModel.Valid(articles)
    ensures var a := ArticlesAfter(articles, urls, web, now);
            ArticleModel.Valid(a) && |articles.rows| <= |a.rows| && a.rows[..|articles.rows|] == articles.rows
    decreases |urls|
  {
    if urls != [] {
      var n := |urls| - 1;
      ArticlesAfterAdds(articles, urls[..n], web, now);
      var a := ArticlesAfter(articles, urls[..n], web, now);
      match Host(urls[n])
      case None =>
      case Some(source) =>
        var arts := ArticlesFor(urls[n], RssFor(urls[n], web), web);
        SaveAllAdds(a, arts, source, now);
        var a' := ArticlesAfter(articles, urls, web, now);
        assert a'.rows[..|articles.rows|] == a.rows[..|articles.rows|];
    }
  }

  /** `save_scraped_article` for each article of one URL, in order. */
  method SaveArticles(articles: seq<Article>, source: string, model: ArticleModel.Articles, now: Timestamp)
    requires ArticleModel.Valid(model.Table())
    modifies model
    ensures model.Table() == SaveAll(old(model.Table()), articles, source, now)
    ensures ArticleModel.Valid(model.Table())
  {
    var i := 0;
    while i < |articles|
      invariant 0 <= i <= |articles|
      invariant model.Table() == SaveAll(old(model.Table()), articles[..i], source, now)
      invariant ArticleModel.Valid(model.Table())
    {
      assert articles[..i + 1][..i] == articles[..i];
      model.SaveArticle(SaveScrapedArticle(articles[i], source), now);
      i := i + 1;
    }
    assert articles[..i] == articles;
  }

  /** One iteration of `handle_scraping`: find the feed, save the link, then (inside the
      `try`) derive the source label, scrape and save. */
  method ScrapeOne(url: string, links: LinkModel.Links, articles: ArticleModel.Articles, web: Web, now: Timestamp)
    requires LinkModel.Valid(links.Table()) && ArticleModel.Valid(articles.Table())
    modifies links, articles
    ensures links.Table() == LinkModel.SaveLink(old(links.Table()), url, RssFor(url, web))
    ensures articles.Table() == match Host(url)
      case None => old(articles.Table())
      case Some(source) => SaveAll(old(articles.Table()), ArticlesFor(url, RssFor(url, web), web), source, now)
    ensures LinkModel.Valid(links.Table()) && ArticleModel.Valid(articles.Table())
  {
    var rss: Option<string>;
    if AlreadyFeed(url) {
      rss := Some(url);
    } else {
      rss := FindFeedUrls(url, web.fetch(url), web.join);
    }
    links.SaveLinkRow(url, rss);
    var source := Host(url);
    if source.Some? {
      var records: seq<Article>;
      if Truthy(rss) {
        records := ScrapeFeedEntries(web.parse(rss.value), web.firstImg);
      } else {
        records := match web.scrape(url) case None => [] case Some(a) => a;
      }
      SaveArticles(records, source.value, articles, now);
    }
  }

  /** `handle_scraping`: the loop over URLs, each step caught on its own. */
  method HandleScraping(urls: seq<string>, links: LinkModel.Links, articles: ArticleModel.Articles, web: Web, now: Timestamp)
    requires LinkModel.Valid(links.Table()) && ArticleModel.Valid(articles.Table())
    modifies links, articles
    ensures links.Table() == LinksAfter(old(links.Table()), urls, web)
    ensures articles.Table() == ArticlesAfter(old(articles.Table()), urls, web, now)
    ensures LinkModel.Valid(links.Table()) && ArticleModel.Valid(articles.Table())
  {
    var i := 0;
    while i < |urls|
      invariant 0 <= i <= |urls|
      invariant links.Table() == LinksAfter(old(links.Table()), urls[..i], web)
      invariant articles.Table() == ArticlesAfter(old(articles.Table()), urls[..i], web, now)
      invariant LinkModel.Valid(links.Table()) && ArticleModel.Valid(articles.Table())
    {
      assert urls[..i + 1][..i] == urls[..i];
      ScrapeOne(urls[i], links, articles, web, now);
      i := i + 1;
    }
    assert urls[..i] == urls;
  }
}
