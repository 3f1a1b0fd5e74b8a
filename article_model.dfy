/** The SQLite `articles` table (src/models/article_model.py): title NOT NULL UNIQUE, url
    UNIQUE but nullable, read and favourite flags defaulting to 0, ids from AUTOINCREMENT.
    Inserts are INSERT OR IGNORE; the getters return rows newest id first, with the
    comma-joined image list turned back into a list. */
module ArticleModel {
  import opened Base
  import Ordering

  datatype ArticleRow = ArticleRow(
    id: nat,
    title: string,
    description: Option<string>,
    url: Option<string>,
    imageUrls: Option<string>,
    scrapedDate: Timestamp,
    source: Option<string>,
    isRead: int,
    isFavorite: int)

  /** The arguments of `save_article`. */
  datatype Submission = Submission(
    title: string,
    description: Option<string>,
    url: Option<string>,
    imageUrls: Option<string>,
    source: Option<string>)

  datatype ArticleTable = ArticleTable(rows: seq<ArticleRow>, nextId: nat)

  /** The table's constraints: ids increase with insertion and stay below the next id,
      titles are unique, and so are the urls that are not NULL. */
  predicate Valid(t: ArticleTable) {
    && IdsIncreasing(t.rows)
    && (forall i :: 0 <= i < |t.rows| ==> t.rows[i].id < t.nextId)
    && (forall i, j :: 0 <= i < j < |t.rows| ==> t.rows[i].title != t.rows[j].title)
    && (forall i, j :: 0 <= i < j < |t.rows| && t.rows[i].url.Some? ==> t.rows[i].url != t.rows[j].url)
  }

  /** The UNIQUE constraints an insert of `s` would violate; a NULL url never collides. */
  predicate Collides(rows: seq<ArticleRow>, s: Submission) {
    exists i :: 0 <= i < |rows| && (rows[i].title == s.title || (s.url.Some? && rows[i].url == s.url))
  }

  /** `INSERT OR IGNORE INTO articles (title, description, url, image_urls, source)`. */
  function InsertOrIgnore(t: ArticleTable, s: Submission, now: Timestamp): ArticleTable {
    if Collides(t.rows, s) then t
    else ArticleTable(
      t.rows + [ArticleRow(t.nextId, s.title, s.description, s.url, s.imageUrls, now, s.source, 0, 0)],
      t.nextId + 1)
  }

  /** Inserting keeps the table's constraints, and afterwards a row carries the submitted
      title: the new one when nothing collided, the old one otherwise. */
  lemma InsertOrIgnoreValid(t: ArticleTable, s: Submission, now: Timestamp)
    requires Valid(t)
    ensures Valid(InsertOrIgnore(t, s, now))
    ensures var t' := InsertOrIgnore(t, s, now);
            exists i :: 0 <= i < |t'.rows| && (t'.rows[i].title == s.title || (t'.rows[i].url == s.url && s.url.Some?))
    ensures !Collides(t.rows, s) ==> |InsertOrIgnore(t, s, now).rows| == |t.rows| + 1
    ensures Collides(t.rows, s) ==> InsertOrIgnore(t, s, now) == t
  {
    var t' := InsertOrIgnore(t, s, now);
    if !Collides(t.rows, s) {
      assert t'.rows[|t.rows|].title == s.title;
    }
  }

  /** Saving the same submission twice has the effect of saving it once. */
  lemma InsertOrIgnoreIdempotent(t: ArticleTable, s: Submission, now: Timestamp, later: Timestamp)
    ensures InsertOrIgnore(InsertOrIgnore(t, s, now), s, later) == InsertOrIgnore(t, s, now)
  {
    var t' := InsertOrIgnore(t, s, now);
    if !Collides(t.rows, s) {
      assert t'.rows[|t.rows|].title == s.title;
      assert Collides(t'.rows, s);
    }
  }

  // ---- flag updates -------------------------------------------------------------------

  /** `CASE WHEN flag = 0 THEN 1 ELSE 0 END`. */
  function Flip(flag: int): int {
    if flag == 0 then 1 else 0
  }

  /** `UPDATE articles SET is_read = <f(is_read)> WHERE id = ?` (and the same for
      `is_favorite` when `favorite` holds). */
  function UpdateFlag(t: ArticleTable, id: int, favorite: bool, f: int -> int): (t': ArticleTable)
    ensures t'.nextId == t.nextId && |t'.rows| == |t.rows|
    ensures forall i :: 0 <= i < |t.rows| ==>
      var r, r' := t.rows[i], t'.rows[i];
      if r.id != id then r' == r
      else if favorite then r' == r.(isFavorite := f(r.isFavorite))
      else r' == r.(isRead := f(r.isRead))
  {
    var rows := seq(|t.rows|, i requires 0 <= i < |t.rows| =>
      var r := t.rows[i];
      if r.id != id then r
      else if favorite then r.(isFavorite := f(r.isFavorite))
      else r.(isRead := f(r.isRead)));
    ArticleTable(rows, t.nextId)
  }

  function ToggleRead(t: ArticleTable, id: int): ArticleTable { UpdateFlag(t, id, false, Flip) }
  function MarkRead(t: ArticleTable, id: int): ArticleTable { UpdateFlag(t, id, false, _ => 1) }
  function ToggleFavorite(t: ArticleTable, id: int): ArticleTable { UpdateFlag(t, id, true, Flip) }
  function MarkFavorite(t: ArticleTable, id: int): ArticleTable { UpdateFlag(t, id, true, _ => 1) }

  predicate FlagsBinary(t: ArticleTable) {
    forall i :: 0 <= i < |t.rows| ==> t.rows[i].isRead in {0, 1} && t.rows[i].isFavorite in {0, 1}
  }

  /** Toggling twice restores the table when the flags are 0 or 1; a single toggle changes
      exactly the matching row's flag, from 0 to 1 and from anything else to 0. */
  lemma ToggleInvolution(t: ArticleTable, id: int, favorite: bool)
    requires FlagsBinary(t)
    ensures UpdateFlag(UpdateFlag(t, id, favorite, Flip), id, favorite, Flip) == t
    ensures FlagsBinary(UpdateFlag(t, id, favorite, Flip))
  {
    var t2 := UpdateFlag(UpdateFlag(t, id, favorite, Flip), id, favorite, Flip);
    assert t2.rows == t.rows by {
      forall i | 0 <= i < |t.rows| ensures t2.rows[i] == t.rows[i] {
      }
    }
  }

  /** `read` and `set_favorite` are idempotent, leave the flag at 1 on the matching rows
      and change nothing else. */
  lemma MarkIdempotent(t: ArticleTable, id: int, favorite: bool)
    ensures UpdateFlag(UpdateFlag(t, id, favorite, _ => 1), id, favorite, _ => 1)
         == UpdateFlag(t, id, favorite, _ => 1)
    ensures forall i :: 0 <= i < |t.rows| && t.rows[i].id == id ==>
      (if favorite then UpdateFlag(t, id, favorite, _ => 1).rows[i].isFavorite
       else UpdateFlag(t, id, favorite, _ => 1).rows[i].isRead) == 1
  {
    var t1 := UpdateFlag(t, id, favorite, _ => 1);
    var t2 := UpdateFlag(t1, id, favorite, _ => 1);
    assert t2.rows == t1.rows by {
      forall i | 0 <= i < |t.rows| ensures t2.rows[i] == t1.rows[i] {
      }
    }
  }

  /** A flag update keeps the table's constraints: ids, titles and urls stay as they were. */
  lemma UpdateFlagValid(t: ArticleTable, id: int, favorite: bool, f: int -> int)
    requires Valid(t)
    ensures Valid(UpdateFlag(t, id, favorite, f))
  {
    var t' := UpdateFlag(t, id, favorite, f);
    assert forall i :: 0 <= i < |t.rows| ==>
      t'.rows[i].id == t.rows[i].id && t'.rows[i].title == t.rows[i].title && t'.rows[i].url == t.rows[i].url;
  }

  /** An id that no row has leaves the table unchanged. */
  lemma UpdateUnknownId(t: ArticleTable, id: int, favorite: bool, f: int -> int)
    requires forall i :: 0 <= i < |t.rows| ==> t.rows[i].id != id
    ensures UpdateFlag(t, id, favorite, f) == t
  {
    assert UpdateFlag(t, id, favorite, f).rows == t.rows;
  }

  // ---- image list ---------------------------------------------------------------------

  /** `_convert_image_urls_to_array`: split on ',' when non-empty, else []. */
  function ConvertImageUrls(s: string): (r: seq<string>)
    ensures s == [] <==> r == []
    ensures forall k :: 0 <= k < |r| ==> ',' !in r[k]
    ensures s != [] ==> Join(r, ',') == s
  {
    if s != [] then JoinSplit(s, ','); Split(s, ',') else []
  }

  /** Comma-free URLs whose join is non-empty come back unchanged after being stored as
      one comma-joined string. */
  lemma ImageUrlsRoundTrip(urls: seq<string>)
    requires forall k :: 0 <= k < |urls| ==> ',' !in urls[k]
    requires Join(urls, ',') != []
    ensures ConvertImageUrls(Join(urls, ',')) == urls
  {
    assert urls != [];
    SplitJoin(urls, ',');
  }

  // ---- reads --------------------------------------------------------------------------

  /** The `image_urls` column after conversion: a list when the stored value is a
      non-empty string, else the stored value itself (NULL or ''). */
  datatype ImageField = Stored(raw: Option<string>) | Urls(urls: seq<string>)

  /** One row as the dictionary the getters build. */
  datatype ArticleDict = ArticleDict(
    id: nat,
    title: string,
    description: Option<string>,
    url: Option<string>,
    imageUrls: ImageField,
    scrapedDate: Timestamp,
    source: Option<string>,
    isRead: int,
    isFavorite: int)

  function ToDict(r: ArticleRow): (d: ArticleDict)
    ensures d.id == r.id && d.title == r.title && d.description == r.description && d.url == r.url
    ensures d.scrapedDate == r.scrapedDate && d.source == r.source
    ensures d.isRead == r.isRead && d.isFavorite == r.isFavorite
    ensures (r.imageUrls.Some? && r.imageUrls.value != []) <==> d.imageUrls.Urls?
    ensures d.imageUrls.Urls? ==> |d.imageUrls.urls| > 0 && Join(d.imageUrls.urls, ',') == r.imageUrls.value
    ensures d.imageUrls.Urls? ==> forall k :: 0 <= k < |d.imageUrls.urls| ==> ',' !in d.imageUrls.urls[k]
    ensures !d.imageUrls.Urls? ==> d.imageUrls == Stored(r.imageUrls)
  {
    ArticleDict(r.id, r.title, r.description, r.url,
      if r.imageUrls.Some? && r.imageUrls.value != [] then Urls(ConvertImageUrls(r.imageUrls.value))
      else Stored(r.imageUrls),
      r.scrapedDate, r.source, r.isRead, r.isFavorite)
  }

  /** The row a dictionary was read from: the image list joined back with ','. */
  function FromDict(d: ArticleDict): ArticleRow {
    ArticleRow(d.id, d.title, d.description, d.url,
      match d.imageUrls
      case Urls(urls) => Some(Join(urls, ','))
      case Stored(raw) => raw,
      d.scrapedDate, d.source, d.isRead, d.isFavorite)
  }

  /** The dictionary loses nothing: joining the converted image list again gives back the
      stored column, so the row can be read back from its dictionary. */
  lemma ToDictRoundTrip(r: ArticleRow)
    ensures FromDict(ToDict(r)) == r
  {
  }

  /** `ORDER BY id DESC`: since ids grow with insertion, the rows in reverse. */
  function NewestFirst(rows: seq<ArticleRow>): (r: seq<ArticleRow>)
    ensures |r| == |rows| && multiset(r) == multiset(rows)
    ensures forall k :: 0 <= k < |r| ==> r[k] == rows[|rows| - 1 - k]
    ensures (forall i, j :: 0 <= i < j < |rows| ==> rows[i].id < rows[j].id) ==>
            forall i, j :: 0 <= i < j < |r| ==> r[i].id > r[j].id
  {
    var r := Ordering.Reversed(rows);
    Ordering.ReversedMultiset(rows, r);
    r
  }

  /** `WHERE is_read = ?` with `1 if filter_read else 0`; no filter when None. */
  predicate Selected(r: ArticleRow, filterRead: Option<bool>) {
    filterRead.None? || r.isRead == (if filterRead.value then 1 else 0)
  }

  function Filtered(rows: seq<ArticleRow>, filterRead: Option<bool>): (r: seq<ArticleRow>)
    ensures forall k :: 0 <= k < |r| ==> Selected(r[k], filterRead)
    ensures forall k :: 0 <= k < |r| ==> r[k] in rows
    ensures forall k :: 0 <= k < |rows| && Selected(rows[k], filterRead) ==> rows[k] in r
    ensures filterRead.None? ==> r == rows
  {
    FilterRowsMembers(rows, filterRead);
    FilterRows(rows, filterRead)
  }

  /** The rows kept by the `WHERE` clause, in table order. */
  function FilterRows(rows: seq<ArticleRow>, filterRead: Option<bool>): seq<ArticleRow>
    decreases |rows|
  {
    if rows == [] then []
    else (if Selected(rows[0], filterRead) then [rows[0]] else []) + FilterRows(rows[1..], filterRead)
  }

  lemma {:induction false} FilterRowsMembers(rows: seq<ArticleRow>, filterRead: Option<bool>)
    ensures forall k :: 0 <= k < |FilterRows(rows, filterRead)| ==> Selected(FilterRows(rows, filterRead)[k], filterRead)
    ensures forall k :: 0 <= k < |FilterRows(rows, filterRead)| ==> FilterRows(rows, filterRead)[k] in rows
    ensures forall k :: 0 <= k < |rows| && Selected(rows[k], filterRead) ==> rows[k] in FilterRows(rows, filterRead)
    ensures filterRead.None? ==> FilterRows(rows, filterRead) == rows
    decreases |rows|
  {
    if rows != [] {
      FilterRowsMembers(rows[1..], filterRead);
      var rest := FilterRows(rows[1..], filterRead);
      var r := FilterRows(rows, filterRead);
      var head := if Selected(rows[0], filterRead) then [rows[0]] else [];
      assert r == head + rest;
      forall k | 0 <= k < |r| ensures Selected(r[k], filterRead) && r[k] in rows {
        if k >= |head| {
          assert r[k] == rest[k - |head|];
          assert rest[k - |head|] in rows[1..];
        }
      }
      forall k | 0 <= k < |rows| && Selected(rows[k], filterRead) ensures rows[k] in r {
        if k > 0 {
          assert rows[k] == rows[1..][k - 1];
        }
      }
      if filterRead.None? {
        assert rows == [rows[0]] + rows[1..];
      }
    }
  }

  /** `SELECT COUNT(*) FROM articles [WHERE is_read = ?]`, counted row by row. */
  function CountSelected(rows: seq<ArticleRow>, filterRead: Option<bool>): nat
    decreases |rows|
  {
    if rows == [] then 0
    else (if Selected(rows[|rows| - 1], filterRead) then 1 else 0) + CountSelected(rows[..|rows| - 1], filterRead)
  }

  /** The count agrees with the rows the filtered getter pages through. */
  lemma {:induction false} CountMatchesFiltered(rows: seq<ArticleRow>, filterRead: Option<bool>)
    ensures CountSelected(rows, filterRead) == |Filtered(rows, filterRead)|
    decreases |rows|
  {
    if rows != [] {
      var n := |rows| - 1;
      CountMatchesFiltered(rows[..n], filterRead);
      FilteredAppend(rows[..n], [rows[n]], filterRead);
      assert rows[..n] + [rows[n]] == rows;
    }
  }

  lemma {:induction false} FilteredAppend(a: seq<ArticleRow>, b: seq<ArticleRow>, filterRead: Option<bool>)
    ensures FilterRows(a + b, filterRead) == FilterRows(a, filterRead) + FilterRows(b, filterRead)
    decreases |a|
  {
    if a == [] {
      assert a + b == b;
    } else {
      assert (a + b)[0] == a[0] && (a + b)[1..] == a[1..] + b;
      FilteredAppend(a[1..], b, filterRead);
    }
  }

  /** The query behind `get_filtered_articles` (and, without a filter, behind
      `get_paginated_articles`): filter, newest first, then LIMIT per_page OFFSET
      (page - 1) * per_page. */
  function FilteredPage(t: ArticleTable, page: int, perPage: int, filterRead: Option<bool>): seq<ArticleRow> {
    Ordering.LimitOffset(NewestFirst(Filtered(t.rows, filterRead)), perPage, PageOffset(page, perPage))
  }

  /** `offset = (page - 1) * per_page`. */
  function PageOffset(page: int, perPage: int): (r: int)
    ensures page == 1 ==> r == 0
  {
    (page - 1) * perPage
  }

  /** A page holds at most `per_page` rows, all matching the filter, in strictly
      descending id order, and the first page of a filtered table holding at most
      `per_page` rows is everything that matches. */
  lemma FilteredPageProperties(t: ArticleTable, page: int, perPage: nat, filterRead: Option<bool>)
    requires Valid(t)
    ensures var p := FilteredPage(t, page, perPage, filterRead);
            && |p| <= perPage
            && (forall k :: 0 <= k < |p| ==> p[k] in t.rows && Selected(p[k], filterRead))
            && (forall i, j :: 0 <= i < j < |p| ==> p[i].id > p[j].id)
    ensures page == 1 && CountSelected(t.rows, filterRead) <= perPage ==>
            |FilteredPage(t, page, perPage, filterRead)| == CountSelected(t.rows, filterRead)
  {
    var f := Filtered(t.rows, filterRead);
    assert IdsIncreasing(t.rows) && IdsAbove(t.rows, -1);
    FilteredIncreasing(t.rows, filterRead, -1);
    NewestFirstOfSelected(f, t.rows, filterRead);
    var n := NewestFirst(f);
    assert FilteredPage(t, page, perPage, filterRead) == Ordering.LimitOffset(n, perPage, PageOffset(page, perPage));
    PageOfDescending(n, perPage, PageOffset(page, perPage), t.rows, filterRead);
    if page == 1 && CountSelected(t.rows, filterRead) <= perPage {
      CountMatchesFiltered(t.rows, filterRead);
      assert |n| == |f| <= perPage;
    }
  }

  lemma NewestFirstOfSelected(f: seq<ArticleRow>, rows: seq<ArticleRow>, filterRead: Option<bool>)
    requires IdsIncreasing(f)
    requires forall k :: 0 <= k < |f| ==> f[k] in rows && Selected(f[k], filterRead)
    ensures var n := NewestFirst(f);
            && (forall i, j :: 0 <= i < j < |n| ==> n[i].id > n[j].id)
            && (forall k :: 0 <= k < |n| ==> n[k] in rows && Selected(n[k], filterRead))
  {
    var n := NewestFirst(f);
    forall k | 0 <= k < |n| ensures n[k] in rows && Selected(n[k], filterRead) {
      assert n[k] == f[|f| - 1 - k];
    }
  }

  lemma PageOfDescending(n: seq<ArticleRow>, limit: nat, offset: int, rows: seq<ArticleRow>, filterRead: Option<bool>)
    requires forall i, j :: 0 <= i < j < |n| ==> n[i].id > n[j].id
    requires forall k :: 0 <= k < |n| ==> n[k] in rows && Selected(n[k], filterRead)
    ensures var p := Ordering.LimitOffset(n, limit, offset);
            && (forall k :: 0 <= k < |p| ==> p[k] in rows && Selected(p[k], filterRead))
            && (forall i, j :: 0 <= i < j < |p| ==> p[i].id > p[j].id)
  {
    var p := Ordering.LimitOffset(n, limit, offset);
    var start := if offset < 0 then 0 else offset;
    forall i, j | 0 <= i < j < |p| ensures p[i].id > p[j].id {
      assert p[i] == n[start + i] && p[j] == n[start + j];
    }
  }

  predicate IdsIncreasing(rows: seq<ArticleRow>) {
    forall i, j :: 0 <= i < j < |rows| ==> rows[i].id < rows[j].id
  }

  predicate IdsAbove(rows: seq<ArticleRow>, lo: int) {
    forall k :: 0 <= k < |rows| ==> lo < rows[k].id
  }

  lemma {:induction false} FilteredIncreasing(rows: seq<ArticleRow>, filterRead: Option<bool>, lo: int)
    requires IdsIncreasing(rows) && IdsAbove(rows, lo)
    ensures IdsIncreasing(Filtered(rows, filterRead)) && IdsAbove(Filtered(rows, filterRead), lo)
    decreases |rows|
  {
    if rows != [] {
      FilteredIncreasing(rows[1..], filterRead, rows[0].id);
      var rest := Filtered(rows[1..], filterRead);
      var f := Filtered(rows, filterRead);
      if Selected(rows[0], filterRead) {
        assert f == [rows[0]] + rest;
        forall i, j | 0 <= i < j < |f| ensures f[i].id < f[j].id {
          assert f[j] == rest[j - 1];
          if i > 0 { assert f[i] == rest[i - 1]; }
        }
      } else {
        assert f == rest;
      }
    }
  }

  /** The getters' shared loop: one dictionary per record, in order. */
  method ToDicts(records: seq<ArticleRow>) returns (articles: seq<ArticleDict>)
    ensures |articles| == |records|
    ensures forall k :: 0 <= k < |records| ==> articles[k] == ToDict(records[k])
  {
    articles := [];
    var i := 0;
    while i < |records|
      invariant 0 <= i <= |records|
      invariant |articles| == i
      invariant forall k :: 0 <= k < i ==> articles[k] == ToDict(records[k])
    {
      articles := articles + [ToDict(records[i])];
      i := i + 1;
    }
  }

  class Articles {
    var rows: seq<ArticleRow>
    var nextId: nat

    function Table(): ArticleTable
      reads this
    {
      ArticleTable(rows, nextId)
    }

    /** `create_table` on a fresh database. */
    constructor ()
      ensures Table() == ArticleTable([], 1) && Valid(Table())
    {
      rows, nextId := [], 1;
    }

    method SaveArticle(s: Submission, now: Timestamp)
      requires Valid(Table())
      modifies this
      ensures Table() == InsertOrIgnore(old(Table()), s, now) && Valid(Table())
    {
      InsertOrIgnoreValid(Table(), s, now);
      if !Collides(rows, s) {
        rows := rows + [ArticleRow(nextId, s.title, s.description, s.url, s.imageUrls, now, s.source, 0, 0)];
        nextId := nextId + 1;
      }
    }

    method ToggleReadStatus(id: int)
      requires Valid(Table())
      modifies this
      ensures Table() == ToggleRead(old(Table()), id)
      ensures Valid(Table())
    {
      UpdateFlagValid(Table(), id, false, Flip);
      rows := ToggleRead(Table(), id).rows;
    }

    method Read(id: int)
      requires Valid(Table())
      modifies this
      ensures Table() == MarkRead(old(Table()), id)
      ensures Valid(Table())
    {
      UpdateFlagValid(Table(), id, false, _ => 1);
      rows := MarkRead(Table(), id).rows;
    }

    method ToggleFavoriteStatus(id: int)
      requires Valid(Table())
      modifies this
      ensures Table() == ToggleFavorite(old(Table()), id)
      ensures Valid(Table())
    {
      UpdateFlagValid(Table(), id, true, Flip);
      rows := ToggleFavorite(Table(), id).rows;
    }

    method SetFavorite(id: int)
      requires Valid(Table())
      modifies this
      ensures Table() == MarkFavorite(old(Table()), id)
      ensures Valid(Table())
    {
      UpdateFlagValid(Table(), id, true, _ => 1);
      rows := MarkFavorite(Table(), id).rows;
    }

    method GetArticlesAsDicts() returns (articles: seq<ArticleDict>)
      ensures |articles| == |rows|
      ensures forall k :: 0 <= k < |articles| ==> articles[k] == ToDict(NewestFirst(rows)[k])
    {
      articles := ToDicts(NewestFirst(rows));
    }

    method GetTotalArticles() returns (n: nat)
      ensures n == |rows|
    {
      n := |rows|;
    }

    method GetPaginatedArticles(page: int, perPage: int) returns (articles: seq<ArticleDict>)
      ensures var p := FilteredPage(Table(), page, perPage, None);
              |articles| == |p| && forall k :: 0 <= k < |p| ==> articles[k] == ToDict(p[k])
    {
      articles := ToDicts(Ordering.LimitOffset(NewestFirst(rows), perPage, PageOffset(page, perPage)));
    }

    method GetTotalFilteredArticles(filterRead: Option<bool>) returns (n: nat)
      ensures n == CountSelected(rows, filterRead)
      ensures n == |Filtered(rows, filterRead)|
    {
      CountMatchesFiltered(rows, filterRead);
      n := |Filtered(rows, filterRead)|;
    }

    method GetFilteredArticles(page: int, perPage: int, filterRead: Option<bool>) returns (articles: seq<ArticleDict>)
      ensures var p := FilteredPage(Table(), page, perPage, filterRead);
              |articles| == |p| && forall k :: 0 <= k < |p| ==> articles[k] == ToDict(p[k])
    {
      articles := ToDicts(FilteredPage(Table(), page, perPage, filterRead));
    }
  }
}
