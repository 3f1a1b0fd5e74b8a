/** The arithmetic and state of the article grid (src/ui/components.py): the tab filters,
    the page count and page reset of `display_articles`, the controls of
    `display_pagination_controls`, and the text shown on an article card. */
module Components {
  import opened Base
  import Ordering
  import ArticleModel

  // ---- page arithmetic --------------------------------------------------------------

  const PerPage: nat := 12

  /** `math.ceil(total / per_page)` for a non-negative count. */
  function CeilDiv(total: nat, per: nat): nat
    requires per > 0
  {
    (total + per - 1) / per
  }

  /** The page count is the least number of pages of `per` items that hold `total`. */
  lemma CeilDivProperties(total: nat, per: nat)
    requires per > 0
    ensures CeilDiv(total, per) * per >= total
    ensures total > 0 ==> (CeilDiv(total, per) - 1) * per < total
    ensures CeilDiv(total, per) == 0 <==> total == 0
  {
    var q := CeilDiv(total, per);
    var m := (total + per - 1) % per;
    assert total + per - 1 == q * per + m && 0 <= m < per;
    assert (q - 1) * per == q * per - per;
  }

  /** `start_item = (current_page - 1) * per_page + 1`. */
  function StartItem(page: int, per: nat): int {
    (page - 1) * per + 1
  }

  /** `end_item = min(current_page * per_page, total_items)`. */
  function EndItem(page: int, per: nat, total: nat): int {
    if page * per < total then page * per else total
  }

  /** On an existing page the item range is a non-empty part of 1..total. */
  lemma ItemRange(page: int, per: nat, total: nat)
    requires per > 0 && total > 0 && 1 <= page <= CeilDiv(total, per)
    ensures 1 <= StartItem(page, per) <= EndItem(page, per, total) <= total
  {
    CeilDivProperties(total, per);
    var q := CeilDiv(total, per);
    MulMonotone(page - 1, q - 1, per);
    assert (page - 1) * per + per == page * per;
  }

  lemma MulMonotone(a: nat, b: nat, c: nat)
    requires a <= b
    ensures a * c <= b * c
  {
    assert b * c == a * c + (b - a) * c;
  }

  /** One numbered page button: its page and whether it is drawn 'primary'. */
  datatype PageButton = PageButton(number: nat, primary: bool)

  /** What `display_pagination_controls` offers: the page a Previous button goes to, the
      numbered buttons, the page a Next button goes to, and the item range shown. */
  datatype Controls = Controls(previous: Option<int>, pages: seq<PageButton>, next: Option<int>,
                               startItem: int, endItem: int)

  /** The numbered buttons: one per page up to seven pages. */
  function PageButtons(current: int, totalPages: nat): (r: seq<PageButton>)
    ensures |r| == if totalPages < 7 then totalPages else 7
    ensures forall k :: 0 <= k < |r| ==> r[k].number == k + 1
    ensures forall k :: 0 <= k < |r| ==> (r[k].primary <==> k + 1 == current)
  {
    var n := if totalPages < 7 then totalPages else 7;
    seq(n, k requires 0 <= k < n => PageButton(k + 1, k + 1 == current))
  }

  function PaginationControls(current: int, totalPages: nat, total: nat, per: nat): Controls {
    Controls(if current > 1 then Some(current - 1) else None,
             PageButtons(current, totalPages),
             if current < totalPages then Some(current + 1) else None,
             StartItem(current, per), EndItem(current, per, total))
  }

  /** Previous is offered exactly when the page is after the first, Next exactly when it
      is before the last; exactly one button is primary when the current page has a
      button, and none otherwise; every button leads to a page that exists. */
  lemma PaginationControlsProperties(current: int, totalPages: nat, total: nat, per: nat)
    requires 1 <= current <= totalPages
    ensures var c := PaginationControls(current, totalPages, total, per);
            && (c.previous.Some? <==> current > 1)
            && (c.next.Some? <==> current < totalPages)
            && (c.previous.Some? ==> 1 <= c.previous.value < current)
            && (c.next.Some? ==> current < c.next.value <= totalPages)
            && (forall k :: 0 <= k < |c.pages| ==> 1 <= c.pages[k].number <= totalPages)
            && ((exists k :: 0 <= k < |c.pages| && c.pages[k].primary) <==> current <= 7)
            && (forall i, j :: 0 <= i < |c.pages| && 0 <= j < |c.pages| && c.pages[i].primary && c.pages[j].primary ==> i == j)
  {
    var c := PaginationControls(current, totalPages, total, per);
    if current <= 7 {
      assert c.pages[current - 1].primary;
    }
  }

  /** `if st.session_state.current_page > total_pages: st.session_state.current_page = 1`. */
  function ResetPage(current: int, totalPages: nat): (r: int)
    ensures current > totalPages ==> r == 1
    ensures current <= totalPages ==> r == current
  {
    if current > totalPages then 1 else current
  }

  /** After the reset a page from 1 on lies within the pages, when there are any. */
  lemma ResetPageInRange(current: int, totalPages: nat)
    requires current >= 1 && totalPages >= 1
    ensures 1 <= ResetPage(current, totalPages) <= totalPages
  {
  }

  // ---- tabs and their filters ---------------------------------------------------------

  datatype Tab = All | Read | Favorites

  /** The `filter_options` value of a tab as written: None, 'read' and 'favorites'. */
  function FilterValue(tab: Tab): Option<string> {
    match tab
    case All => None
    case Read => Some("read")
    case Favorites => Some("favorites")
  }

  /** How `get_total_filtered_articles` and `get_filtered_articles` read that value as
      `filter_read`: no filter for None, else `is_read = 1 if filter_read else 0`. */
  function AsFilterRead(value: Option<string>): Option<bool> {
    if value.None? then None else Some(value.value != [])
  }

  /** As written, the Favorites tab filters on `is_read`: it lists exactly the read
      articles, like the Read tab, and leaves out an unread favourite. */
  lemma FavoritesTabAsWritten(rows: seq<ArticleModel.ArticleRow>, unreadFavourite: ArticleModel.ArticleRow)
    requires unreadFavourite.isRead == 0 && unreadFavourite.isFavorite == 1
    ensures AsFilterRead(FilterValue(Favorites)) == AsFilterRead(FilterValue(Read)) == Some(true)
    ensures ArticleModel.Filtered(rows, AsFilterRead(FilterValue(Favorites))) == ArticleModel.Filtered(rows, AsFilterRead(FilterValue(Read)))
    ensures !ArticleModel.Selected(unreadFavourite, AsFilterRead(FilterValue(Favorites)))
  {
  }

  /** The tabs as evidently intended: Read keeps the read articles, Favorites the
      favourite ones. */
  predicate InTab(r: ArticleModel.ArticleRow, tab: Tab) {
    match tab
    case All => true
    case Read => r.isRead == 1
    case Favorites => r.isFavorite == 1
  }

  function TabRows(rows: seq<ArticleModel.ArticleRow>, tab: Tab): (r: seq<ArticleModel.ArticleRow>)
    ensures forall k :: 0 <= k < |r| ==> r[k] in rows && InTab(r[k], tab)
    ensures forall k :: 0 <= k < |rows| && InTab(rows[k], tab) ==> rows[k] in r
    ensures tab == All ==> r == rows
  {
    var r := Keep(rows, (a: ArticleModel.ArticleRow) => InTab(a, tab));
    if tab == All then
      KeepAll(rows, (a: ArticleModel.ArticleRow) => InTab(a, tab));
      r
    else r
  }

  lemma {:induction false} KeepAll<T>(s: seq<T>, p: T -> bool)
    requires forall k :: 0 <= k < |s| ==> p(s[k])
    ensures Keep(s, p) == s
    decreases |s|
  {
    if s != [] {
      KeepAll(s[1..], p);
    }
  }

  /** The Read tab lists the same articles under both readings. */
  lemma ReadTabAgrees(rows: seq<ArticleModel.ArticleRow>)
    requires forall k :: 0 <= k < |rows| ==> rows[k].isRead == 0 || rows[k].isRead == 1
    ensures forall r :: r in rows ==> (r in TabRows(rows, Read) <==> r in ArticleModel.Filtered(rows, AsFilterRead(FilterValue(Read))))
  {
  }

  // ---- the article grid -----------------------------------------------------------------

  /** What one tab shows: its page, its page count, its item count and its articles. */
  datatype TabView = TabView(page: int, totalPages: nat, total: nat, articles: seq<ArticleModel.ArticleDict>)

  /** `st.session_state.current_page`, shared by the three tabs. */
  class ArticleGrid {
    var currentPage: int

    constructor ()
      ensures currentPage == 1
    {
      currentPage := 1;
    }

    /** One tab of `display_articles` as written: the tab's filter value is passed to
        `get_total_filtered_articles` and `get_filtered_articles`, which read it as
        `filter_read`; then the page count, the page reset, and that page of articles,
        newest first, twelve to a page. */
    method ShowTab(model: ArticleModel.Articles, tab: Tab) returns (v: TabView)
      modifies this
      ensures var f := AsFilterRead(FilterValue(tab));
              && v.total == |ArticleModel.Filtered(model.rows, f)|
              && v.totalPages == CeilDiv(v.total, PerPage)
      ensures currentPage == ResetPage(old(currentPage), v.totalPages) && v.page == currentPage
      ensures var p := ArticleModel.FilteredPage(model.Table(), v.page, PerPage, AsFilterRead(FilterValue(tab)));
              |v.articles| == |p| && forall k :: 0 <= k < |p| ==> v.articles[k] == ArticleModel.ToDict(p[k])
    {
      var filterRead := AsFilterRead(FilterValue(tab));
      var total := model.GetTotalFilteredArticles(filterRead);
      var totalPages := CeilDiv(total, PerPage);
      if currentPage > totalPages {
        currentPage := 1;
      }
      var page := currentPage;
      var articles := model.GetFilteredArticles(page, PerPage, filterRead);
      v := TabView(page, totalPages, total, articles);
    }

    /** A click on Previous, a page button or Next sets the page it leads to. */
    method GoTo(page: int)
      modifies this
      ensures currentPage == page
    {
      currentPage := page;
    }
  }

  /** A tab with articles shows a non-empty page of at most twelve, on a page that exists;
      each shown article passes the tab's filter as written. */
  lemma TabViewFilled(t: ArticleModel.ArticleTable, tab: Tab, current: int)
    requires ArticleModel.Valid(t) && current >= 1
    requires |ArticleModel.Filtered(t.rows, AsFilterRead(FilterValue(tab)))| > 0
    ensures var f := AsFilterRead(FilterValue(tab));
            var pages := CeilDiv(|ArticleModel.Filtered(t.rows, f)|, PerPage);
            var page := ResetPage(current, pages);
            var shown := ArticleModel.FilteredPage(t, page, PerPage, f);
            && 1 <= page <= pages
            && 0 < |shown| <= PerPage
            && forall k :: 0 <= k < |shown| ==> shown[k] in t.rows && ArticleModel.Selected(shown[k], f)
  {
    var f := AsFilterRead(FilterValue(tab));
    var total := |ArticleModel.Filtered(t.rows, f)|;
    var pages := CeilDiv(total, PerPage);
    CeilDivProperties(total, PerPage);
    var page := ResetPage(current, pages);
    MulMonotone(page - 1, pages - 1, PerPage);
    ArticleModel.FilteredPageProperties(t, page, PerPage, f);
  }

  // ---- the article card -------------------------------------------------------------------

  /** The text of a card for a truthy description: its text (BeautifulSoup's `getText`, a
      parameter here) without 'Read more', stripped, and cut to 200 characters. */
  function CardText(description: string, getText: string -> string): (r: string)
    ensures var t := Strip(Replace(getText(description), "Read more", ""));
            && |r| <= 200
            && (|t| <= 200 ==> r == t)
            && (|t| > 200 ==> r == t[..200])
  {
    var t := Strip(Replace(getText(description), "Read more", ""));
    if |t| > 200 then t[..200] else t
  }
}
