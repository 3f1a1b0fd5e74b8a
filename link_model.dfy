/** The SQLite `links` table (src/models/link_model.py): every page handed to the scraper,
    with the feed found for it. `link` is NOT NULL UNIQUE, `rss_link` UNIQUE but nullable,
    ids come from AUTOINCREMENT, and reads without ORDER BY are taken in insertion order. */
module LinkModel {
  import opened Base

  datatype LinkRow = LinkRow(id: nat, link: string, rssLink: Option<string>, lastScrappedAt: Option<Timestamp>)

  datatype LinkTable = LinkTable(rows: seq<LinkRow>, nextId: nat)

  /** The table's constraints. */
  predicate Valid(t: LinkTable) {
    && (forall i, j :: 0 <= i < j < |t.rows| ==> t.rows[i].id < t.rows[j].id)
    && (forall i :: 0 <= i < |t.rows| ==> t.rows[i].id < t.nextId)
    && (forall i, j :: 0 <= i < j < |t.rows| ==> t.rows[i].link != t.rows[j].link)
    && (forall i, j :: 0 <= i < j < |t.rows| && t.rows[i].rssLink.Some? ==> t.rows[i].rssLink != t.rows[j].rssLink)
  }

  predicate HasLink(t: LinkTable, link: string) {
    exists i :: 0 <= i < |t.rows| && t.rows[i].link == link
  }

  /** A row already holds `link`, or holds the same non-NULL `rss_link`. */
  predicate Collides(t: LinkTable, link: string, rss: Option<string>) {
    exists i :: 0 <= i < |t.rows| && (t.rows[i].link == link || (rss.Some? && t.rows[i].rssLink == rss))
  }

  /** `save_link`: `INSERT OR IGNORE ... VALUES (link, rss_link, NULL)`. */
  function SaveLink(t: LinkTable, link: string, rss: Option<string>): LinkTable {
    if Collides(t, link, rss) then t
    else LinkTable(t.rows + [LinkRow(t.nextId, link, rss, None)], t.nextId + 1)
  }

  /** Saving keeps the constraints. The saved link is present afterwards unless another
      link already owns the same feed, in which case nothing changes. */
  lemma SaveLinkProperties(t: LinkTable, link: string, rss: Option<string>)
    requires Valid(t)
    ensures Valid(SaveLink(t, link, rss))
    ensures HasLink(t, link) ==> SaveLink(t, link, rss) == t
    ensures !HasLink(SaveLink(t, link, rss), link) <==>
            !HasLink(t, link) && rss.Some? && exists i :: 0 <= i < |t.rows| && t.rows[i].rssLink == rss
    ensures !Collides(t, link, rss) ==>
            SaveLink(t, link, rss).rows == t.rows + [LinkRow(t.nextId, link, rss, None)]
  {
    var t' := SaveLink(t, link, rss);
    if !Collides(t, link, rss) {
      assert t'.rows[|t.rows|].link == link;
    }
  }

  /** `update_last_scrapped`: `UPDATE links SET last_scrapped_at = now WHERE link = ?`. */
  function UpdateLastScrapped(t: LinkTable, link: string, now: Timestamp): (t': LinkTable)
    ensures t'.nextId == t.nextId && |t'.rows| == |t.rows|
    ensures forall i :: 0 <= i < |t.rows| ==>
      t'.rows[i] == if t.rows[i].link == link then t.rows[i].(lastScrappedAt := Some(now)) else t.rows[i]
  {
    LinkTable(seq(|t.rows|, i requires 0 <= i < |t.rows| =>
      if t.rows[i].link == link then t.rows[i].(lastScrappedAt := Some(now)) else t.rows[i]), t.nextId)
  }

  /** The update keeps the constraints, stamps the one row holding `link` and leaves the
      rest, and the set of links and feeds, as they were. */
  lemma UpdateLastScrappedProperties(t: LinkTable, link: string, now: Timestamp)
    requires Valid(t)
    ensures Valid(UpdateLastScrapped(t, link, now))
    ensures var before, after := GetAllLinks(t), GetAllLinks(UpdateLastScrapped(t, link, now));
            |after| == |before| && forall i :: 0 <= i < |before| ==> after[i].0 == before[i].0 && after[i].1 == before[i].1
    ensures forall i :: 0 <= i < |t.rows| && t.rows[i].link == link ==>
      UpdateLastScrapped(t, link, now).rows[i].lastScrappedAt == Some(now)
    ensures !HasLink(t, link) ==> UpdateLastScrapped(t, link, now) == t
  {
    var t' := UpdateLastScrapped(t, link, now);
    assert forall k :: 0 <= k < |t.rows| ==> t'.rows[k].link == t.rows[k].link && t'.rows[k].rssLink == t.rows[k].rssLink;
    if !HasLink(t, link) {
      assert t'.rows == t.rows;
    }
  }

  /** One row of `fetch_all` over `SELECT link, rss_link, last_scrapped_at`. */
  type LinkTuple = (string, Option<string>, Option<Timestamp>)

  /** `get_all_links`: one (link, rss_link, last_scrapped_at) tuple per row, in table order. */
  function GetAllLinks(t: LinkTable): (r: seq<LinkTuple>)
    ensures |r| == |t.rows|
    ensures forall i :: 0 <= i < |t.rows| ==>
      r[i] == (t.rows[i].link, t.rows[i].rssLink, t.rows[i].lastScrappedAt)
  {
    seq(|t.rows|, i requires 0 <= i < |t.rows| => (t.rows[i].link, t.rows[i].rssLink, t.rows[i].lastScrappedAt))
  }

  /** `clear_links`: `DELETE FROM links`; AUTOINCREMENT keeps counting. */
  function ClearLinks(t: LinkTable): LinkTable {
    LinkTable([], t.nextId)
  }

  /** After clearing, the table is empty, and a link saved later gets an id above every id
      the table has ever handed out. */
  lemma ClearThenSave(t: LinkTable, link: string, rss: Option<string>)
    requires Valid(t)
    ensures GetAllLinks(ClearLinks(t)) == []
    ensures var t' := SaveLink(ClearLinks(t), link, rss);
            |t'.rows| == 1 && t'.rows[0].link == link && t'.rows[0].lastScrappedAt == None
            && forall i :: 0 <= i < |t.rows| ==> t.rows[i].id < t'.rows[0].id
  {
    assert !Collides(ClearLinks(t), link, rss);
  }

  class Links {
    var rows: seq<LinkRow>
    var nextId: nat

    function Table(): LinkTable
      reads this
    {
      LinkTable(rows, nextId)
    }

    /** `create_table` on a fresh database. */
    constructor ()
      ensures Table() == LinkTable([], 1) && Valid(Table())
    {
      rows, nextId := [], 1;
    }

    method SaveLinkRow(link: string, rss: Option<string>)
      requires Valid(Table())
      modifies this
      ensures Table() == SaveLink(old(Table()), link, rss) && Valid(Table())
    {
      SaveLinkProperties(Table(), link, rss);
      var collides := exists i :: 0 <= i < |rows| && (rows[i].link == link || (rss.Some? && rows[i].rssLink == rss));
      if !collides {
        rows := rows + [LinkRow(nextId, link, rss, None)];
        nextId := nextId + 1;
      }
    }

    /** `now` is `datetime.now()`. */
    method UpdateLastScrappedAt(link: string, now: Timestamp)
      requires Valid(Table())
      modifies this
      ensures Table() == UpdateLastScrapped(old(Table()), link, now) && Valid(Table())
    {
      UpdateLastScrappedProperties(Table(), link, now);
      rows := UpdateLastScrapped(Table(), link, now).rows;
    }

    method GetAll() returns (r: seq<LinkTuple>)
      ensures r == GetAllLinks(Table())
    {
      r := GetAllLinks(Table());
    }

    method Clear()
      requires Valid(Table())
      modifies this
      ensures Table() == ClearLinks(old(Table())) && Valid(Table())
    {
      rows := [];
    }
  }
}
