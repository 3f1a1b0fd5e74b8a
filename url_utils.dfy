/** Feed discovery for the sources page (src/utils/url_utils.py, and the identical
    `find_feed_url` in src/utils.py): the first `<link>` whose type mentions rss or atom,
    else the first `<a>` with an href whose text mentions rss or feed; absolute hrefs are
    kept and relative ones resolved against the page URL. */
module UrlUtils {
  import opened Base
  import opened Html
  import ScrapingView = ScrapingHandler

  /** `type=lambda t: t and ('rss' in t or 'atom' in t)`. */
  predicate HasFeedType(t: Tag) {
    var ty := Get(t, "type");
    ty.Some? && ty.value != [] && (Contains(ty.value, "rss") || Contains(ty.value, "atom"))
  }

  /** `href=True, text=lambda t: t and ('rss' in t.lower() or 'feed' in t.lower())`. */
  predicate IsFeedTextAnchor(t: Tag) {
    && "href" in t.attrs
    && t.str.Some? && t.str.value != []
    && (Contains(Lower(t.str.value), "rss") || Contains(Lower(t.str.value), "feed"))
  }

  /** Keep an `http://` or `https://` href, resolve any other against the page. */
  function Absolutize(url: string, href: string, join: UrlJoin): (r: string)
    ensures IsAbsoluteHttp(href) ==> r == href
    ensures !IsAbsoluteHttp(href) ==> r == join(url, href)
  {
    if IsAbsoluteHttp(href) then href else join(url, href)
  }

  /** `find_feed_url(url)`. */
  function FindFeedUrl(url: string, resp: Response, join: UrlJoin): (r: Option<string>)
    ensures resp.RequestFailed? || (resp.Response? && IsHttpError(resp.status)) ==> r.None?
  {
    if resp.RequestFailed? || IsHttpError(resp.status) then None
    else
      var links := Filter(FindAll(resp.page, "link"), HasFeedType);
      if links != [] then Some(Absolutize(url, GetOr(links[0], "href", ""), join))
      else
        var anchors := Filter(FindAll(resp.page, "a"), IsFeedTextAnchor);
        if anchors != [] then Some(Absolutize(url, anchors[0].attrs["href"], join))
        else None
  }

  /** On a successful response the result is None exactly when no `<link>` and no anchor
      qualifies. */
  lemma FindFeedUrlNone(url: string, resp: Response, join: UrlJoin)
    requires resp.Response? && !IsHttpError(resp.status)
    ensures var links := FindAll(resp.page, "link");
            var anchors := FindAll(resp.page, "a");
            FindFeedUrl(url, resp, join).None? <==>
              NoneMatch(links, HasFeedType) && NoneMatch(anchors, IsFeedTextAnchor)
  {
  }

  /** The first qualifying `<link>` decides the result, whatever the anchors say. */
  lemma FindFeedUrlLinkFirst(url: string, resp: Response, join: UrlJoin)
    requires resp.Response? && !IsHttpError(resp.status)
    requires !NoneMatch(FindAll(resp.page, "link"), HasFeedType)
    ensures var links := FindAll(resp.page, "link");
            exists i :: 0 <= i < |links| && HasFeedType(links[i])
              && (forall j :: 0 <= j < i ==> !HasFeedType(links[j]))
              && FindFeedUrl(url, resp, join) == Some(Absolutize(url, GetOr(links[i], "href", ""), join))
  {
    var links := FindAll(resp.page, "link");
    var f := Filter(links, HasFeedType);
    assert f != [];
    assert FindFeedUrl(url, resp, join) == Some(Absolutize(url, GetOr(f[0], "href", ""), join));
    var i :| 0 <= i < |links| && links[i] == f[0] && forall j :: 0 <= j < i ==> !HasFeedType(links[j]);
    assert HasFeedType(links[i]);
  }

  /** Without a qualifying `<link>`, the first qualifying anchor decides. */
  lemma FindFeedUrlAnchorNext(url: string, resp: Response, join: UrlJoin)
    requires resp.Response? && !IsHttpError(resp.status)
    requires NoneMatch(FindAll(resp.page, "link"), HasFeedType)
    requires !NoneMatch(FindAll(resp.page, "a"), IsFeedTextAnchor)
    ensures var anchors := FindAll(resp.page, "a");
            exists j :: 0 <= j < |anchors| && IsFeedTextAnchor(anchors[j])
              && (forall k :: 0 <= k < j ==> !IsFeedTextAnchor(anchors[k]))
              && FindFeedUrl(url, resp, join) == Some(Absolutize(url, anchors[j].attrs["href"], join))
  {
    var anchors := FindAll(resp.page, "a");
    var f := Filter(anchors, IsFeedTextAnchor);
    assert f != [];
    assert FindFeedUrl(url, resp, join) == Some(Absolutize(url, f[0].attrs["href"], join));
    var j :| 0 <= j < |anchors| && anchors[j] == f[0] && forall k :: 0 <= k < j ==> !IsFeedTextAnchor(anchors[k]);
    assert IsFeedTextAnchor(anchors[j]);
  }

  /** The copies disagree. A `<link>` of type `text/rss` with an absolute href is found and
      returned unresolved here, but the scraping dialog's exact MIME test rejects it; an
      anchor labelled "RSS" with href "/x" is found here, but the dialog looks only at the
      href. */
  lemma CopiesDiverge(join: UrlJoin)
    ensures var page := [Tag("link", map["type" := "text/rss", "href" := "http://f/"], None)];
            && FindFeedUrl("http://h/", Response(200, page), join) == Some("http://f/")
            && ScrapingView.FeedUrlOf("http://h/", Response(200, page), join).None?
    ensures var page := [Tag("a", map["href" := "/x"], Some("RSS"))];
            && FindFeedUrl("http://h/", Response(200, page), join) == Some(join("http://h/", "/x"))
            && ScrapingView.FeedUrlOf("http://h/", Response(200, page), join).None?
  {
    DivergeOnLink(join);
    DivergeOnAnchor(join);
  }

  /** A `<link>` of an RSS type is a feed here and not to the scraping handler. */
  lemma DivergeOnLink(join: UrlJoin)
    ensures var page := [Tag("link", map["type" := "text/rss", "href" := "http://f/"], None)];
            && FindFeedUrl("http://h/", Response(200, page), join) == Some("http://f/")
            && ScrapingView.FeedUrlOf("http://h/", Response(200, page), join).None?
  {
    var t := Tag("link", map["type" := "text/rss", "href" := "http://f/"], None);
    assert OccursAt("text/rss", "rss", 5);
    assert HasFeedType(t);
    assert IsAbsoluteHttp("http://f/");
    assert FindAll([t], "link") == [t] && FindAll([t], "a") == [];
    assert !ScrapingView.IsFeedLink(t);
  }

  /** An anchor whose text says RSS is a feed here and not to the scraping handler. */
  lemma DivergeOnAnchor(join: UrlJoin)
    ensures var page := [Tag("a", map["href" := "/x"], Some("RSS"))];
            && FindFeedUrl("http://h/", Response(200, page), join) == Some(join("http://h/", "/x"))
            && ScrapingView.FeedUrlOf("http://h/", Response(200, page), join).None?
  {
    var a := Tag("a", map["href" := "/x"], Some("RSS"));
    assert Lower("RSS") == "rss";
    assert OccursAt(Lower("RSS"), "rss", 0);
    assert IsFeedTextAnchor(a);
    assert FindAll([a], "a") == [a] && FindAll([a], "link") == [];
    var href := "/x";
    assert !ScrapingView.IsFeedAnchor(a) by {
      assert GetOr(a, "href", "") == href;
      assert !Contains(href, "feed") && !Contains(href, "rss") && !Contains(href, "atom");
    }
    assert !IsAbsoluteHttp(href);
  }
}
