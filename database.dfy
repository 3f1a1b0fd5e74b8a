/** `DatabaseManager` (src/database.py): the session over the `sources` and `posts` tables
    of src/models.py. Each method commits on its own; a constraint violation raised by a
    commit leaves the tables as they were. `init_db` creates both tables from the records,
    whose `Integer` primary keys are plain rowids (the migrations' AUTOINCREMENT tables
    are never the ones created): a new row gets one more than the largest key in its table,
    1 when the table is empty. Sources are never deleted, so their counter is that key;
    posts are, and their counter falls back after a delete. */
module Database {
  import opened Base
  import opened Models
  import Ordering

  datatype Store = Store(sources: seq<Source>, posts: seq<Post>, nextSourceId: nat, nextPostId: nat)

  predicate Valid(d: Store) {
    SourcesValid(d.sources, d.nextSourceId) && PostsValid(d.posts, d.nextPostId)
    && d.nextPostId == NextRowid(d.posts)
  }

  /** The rowid SQLite gives the next post: one more than the largest key, which is the
      last one since keys increase along the table; 1 for an empty table. */
  function NextRowid(posts: seq<Post>): nat {
    if posts == [] then 1 else posts[|posts| - 1].id + 1
  }

  // ---- sources ------------------------------------------------------------------------

  /** One disjunct of the duplicate filter of `add_source` and `check_source_exists`.
      SQLAlchemy renders `feed_url == None` as `IS NULL`, which is Option equality. */
  predicate Matches(s: Source, url: string, feedUrl: Option<string>) {
    s.url == url || s.feedUrl == Some(url) || s.feedUrl == feedUrl
  }

  predicate SourceExists(sources: seq<Source>, url: string, feedUrl: Option<string>) {
    exists i :: 0 <= i < |sources| && Matches(sources[i], url, feedUrl)
  }

  /** The insert of a successful `add_source`. */
  function InsertSource(d: Store, url: string, feedUrl: Option<string>, name: Option<string>, now: Timestamp): Store {
    d.(sources := d.sources + [NewSource(d.nextSourceId, url, feedUrl, name, now)], nextSourceId := d.nextSourceId + 1)
  }

  /** The insert keeps the constraints (the duplicate filter covers UNIQUE(url)), leaves
      the posts alone, and makes the same call a duplicate from then on. */
  lemma InsertSourceProperties(d: Store, url: string, feedUrl: Option<string>, name: Option<string>, now: Timestamp)
    requires Valid(d) && !SourceExists(d.sources, url, feedUrl)
    ensures var d' := InsertSource(d, url, feedUrl, name, now);
            && Valid(d')
            && d'.posts == d.posts
            && d'.sources[|d.sources|].isActive
            && SourceExists(d'.sources, url, feedUrl)
  {
    var d' := InsertSource(d, url, feedUrl, name, now);
    assert Matches(d'.sources[|d.sources|], url, feedUrl);
    forall i | 0 <= i < |d.sources| ensures d'.sources[i].url != url {
      assert !Matches(d.sources[i], url, feedUrl);
    }
  }

  /** With no feed URL, any source that has no feed URL either is a duplicate. */
  lemma NullFeedIsDuplicate(sources: seq<Source>, url: string, k: nat)
    requires k < |sources| && sources[k].feedUrl.None?
    ensures SourceExists(sources, url, None)
  {
    assert Matches(sources[k], url, None);
  }

  /** `get_all_sources`: `filter_by(is_active=True)`, rows in table order. */
  function ActiveSources(sources: seq<Source>): (r: seq<Source>)
    ensures forall k :: 0 <= k < |r| ==> r[k].isActive && r[k] in sources
    ensures forall k :: 0 <= k < |sources| && sources[k].isActive ==> sources[k] in r
    ensures |r| <= |sources|
    decreases |sources|
  {
    if sources == [] then []
    else
      assert sources == [sources[0]] + sources[1..];
      (if sources[0].isActive then [sources[0]] else []) + ActiveSources(sources[1..])
  }

  /** `update_source_feed`: the row with that id gets the feed URL and a new
      `last_checked`. */
  function UpdateSourceFeed(sources: seq<Source>, id: int, feedUrl: string, now: Timestamp): seq<Source> {
    seq(|sources|, k requires 0 <= k < |sources| =>
      if sources[k].id == id then sources[k].(feedUrl := Some(feedUrl), lastChecked := Some(now)) else sources[k])
  }

  /** Only `feed_url` and `last_checked` of the row with that id change; an unknown id
      changes nothing. */
  lemma UpdateSourceFeedProperties(sources: seq<Source>, nextId: nat, id: int, feedUrl: string, now: Timestamp)
    requires SourcesValid(sources, nextId)
    ensures var r := UpdateSourceFeed(sources, id, feedUrl, now);
            && |r| == |sources|
            && SourcesValid(r, nextId)
            && (forall k :: 0 <= k < |r| && sources[k].id == id ==>
                  && r[k].feedUrl == Some(feedUrl) && r[k].lastChecked == Some(now)
                  && r[k].id == id && r[k].url == sources[k].url && r[k].name == sources[k].name
                  && r[k].createdAt == sources[k].createdAt && r[k].isActive == sources[k].isActive)
            && (forall k :: 0 <= k < |r| && sources[k].id != id ==> r[k] == sources[k])
    ensures (forall k :: 0 <= k < |sources| ==> sources[k].id != id) ==> UpdateSourceFeed(sources, id, feedUrl, now) == sources
  {
  }

  // ---- posts --------------------------------------------------------------------------

  /** The row `add_post` builds: the given fields, `published_date or utcnow()` (a
      datetime is always truthy), and the column defaults. */
  function PostFor(d: Store, sourceId: int, title: string, description: string, summary: string,
                   imageUrl: Option<string>, externalLink: string, publishedDate: Option<Timestamp>, now: Timestamp): (p: Post)
    ensures p.publishedDate.Some?
    ensures publishedDate.Some? ==> p.publishedDate == publishedDate
    ensures publishedDate.None? ==> p.publishedDate == Some(now)
    ensures p.sourceId == Some(sourceId) && p.externalLink == Some(externalLink) && p.title == Some(title)
    ensures !p.isRead && p.readAt.None? && p.id == d.nextPostId
  {
    NewPost(d.nextPostId, Some(title), Some(description), Some(summary), imageUrl, Some(externalLink),
            Some(if publishedDate.Some? then publishedDate.value else now), sourceId, now)
  }

  /** A committed insert of a post that clashes with no row. */
  function InsertPost(d: Store, p: Post): Store {
    d.(posts := d.posts + [p], nextPostId := d.nextPostId + 1)
  }

  lemma InsertPostValid(d: Store, p: Post)
    requires Valid(d) && !Collides(d.posts, p) && p.id == d.nextPostId
    ensures Valid(InsertPost(d, p))
    ensures InsertPost(d, p).sources == d.sources
    ensures p.externalLink.Some? || (p.title.Some? && p.sourceId.Some?) ==> Collides(InsertPost(d, p).posts, p)
  {
    AppendPostValid(d.posts, d.nextPostId, p);
    assert InsertPost(d, p).posts[|d.posts|] == p;
    assert NextRowid(d.posts + [p]) == p.id + 1;
  }

  /** SQLite sorts NULL below every value, so `published_date DESC` puts undated posts
      last. */
  function PublishedKey(p: Post): int {
    if p.publishedDate.None? then -1 else p.publishedDate.value
  }

  /** `get_all_posts`: ORDER BY published_date DESC, then OFFSET and LIMIT. */
  function AllPosts(posts: seq<Post>, limit: int, offset: int): seq<Post> {
    Ordering.LimitOffset(Ordering.SortDesc(posts, PublishedKey), limit, offset)
  }

  /** The rows of one source, in table order. */
  function BySource(posts: seq<Post>, sourceId: int): (r: seq<Post>)
    ensures forall k :: 0 <= k < |r| ==> r[k].sourceId == Some(sourceId) && r[k] in posts
    ensures forall k :: 0 <= k < |posts| && posts[k].sourceId == Some(sourceId) ==> posts[k] in r
    decreases |posts|
  {
    if posts == [] then []
    else
      assert posts == [posts[0]] + posts[1..];
      (if posts[0].sourceId == Some(sourceId) then [posts[0]] else []) + BySource(posts[1..], sourceId)
  }

  /** `get_posts_by_source`: the source's rows, newest first, at most `limit`. */
  function PostsBySource(posts: seq<Post>, sourceId: int, limit: int): seq<Post> {
    Ordering.LimitOffset(Ordering.SortDesc(BySource(posts, sourceId), PublishedKey), limit, 0)
  }

  /** A page of the ordered posts is ordered, holds at most `limit` rows, and holds rows
      of the table only. */
  lemma PageOfSorted(s: seq<Post>, limit: int, offset: int, posts: seq<Post>)
    requires Ordering.SortedDesc(s, PublishedKey)
    requires forall x :: x in s ==> x in posts
    ensures var r := Ordering.LimitOffset(s, limit, offset);
            && (limit >= 0 ==> |r| <= limit)
            && Ordering.SortedDesc(r, PublishedKey)
            && forall k :: 0 <= k < |r| ==> r[k] in posts
  {
    var r := Ordering.LimitOffset(s, limit, offset);
    var start := if offset < 0 then 0 else offset;
    forall i, j | 0 <= i < j < |r| ensures PublishedKey(r[i]) >= PublishedKey(r[j]) {
      assert r[i] == s[start + i] && r[j] == s[start + j];
    }
    forall k | 0 <= k < |r| ensures r[k] in posts {
      assert r[k] == s[start + k];
    }
  }

  lemma AllPostsProperties(posts: seq<Post>, limit: int, offset: int)
    ensures var r := AllPosts(posts, limit, offset);
            && (limit >= 0 ==> |r| <= limit)
            && Ordering.SortedDesc(r, PublishedKey)
            && (forall k :: 0 <= k < |r| ==> r[k] in posts)
            && (offset <= 0 && (limit < 0 || |posts| <= limit) ==> multiset(r) == multiset(posts))
  {
    var s := Ordering.SortDesc(posts, PublishedKey);
    forall x | x in s ensures x in posts {
      assert x in multiset(s);
    }
    PageOfSorted(s, limit, offset, posts);
    if offset <= 0 && (limit < 0 || |posts| <= limit) {
      assert |s| == |multiset(s)| == |posts|;
      assert AllPosts(posts, limit, offset) == s[0..];
      assert s[0..] == s;
    }
  }

  lemma PostsBySourceProperties(posts: seq<Post>, sourceId: int, limit: int)
    ensures var r := PostsBySource(posts, sourceId, limit);
            && (limit >= 0 ==> |r| <= limit)
            && Ordering.SortedDesc(r, PublishedKey)
            && (forall k :: 0 <= k < |r| ==> r[k] in posts && r[k].sourceId == Some(sourceId))
  {
    var b := BySource(posts, sourceId);
    var s := Ordering.SortDesc(b, PublishedKey);
    forall x | x in s ensures x in b {
      assert x in multiset(s);
    }
    PageOfSorted(s, limit, 0, b);
  }

  /** The indexes of the rows that do not belong to `sourceId`, ascending. */
  function Survivors(posts: seq<Post>, sourceId: int): (idx: seq<nat>)
    ensures forall k :: 0 <= k < |idx| ==> idx[k] < |posts| && posts[idx[k]].sourceId != Some(sourceId)
    ensures forall i, j :: 0 <= i < j < |idx| ==> idx[i] < idx[j]
    ensures forall k :: 0 <= k < |posts| && posts[k].sourceId != Some(sourceId) ==> k in idx
    decreases |posts|
  {
    if posts == [] then []
    else
      var n := |posts| - 1;
      var rest := Survivors(posts[..n], sourceId);
      rest + (if posts[n].sourceId != Some(sourceId) then [n] else [])
  }

  /** `delete_posts_by_source`. */
  function DeletePostsBySource(posts: seq<Post>, sourceId: int): seq<Post> {
    var idx := Survivors(posts, sourceId);
    seq(|idx|, k requires 0 <= k < |idx| => posts[idx[k]])
  }

  /** Every row of that source goes and every other row stays. */
  lemma DeletePostsBySourceSelects(posts: seq<Post>, sourceId: int)
    ensures var r := DeletePostsBySource(posts, sourceId);
            && (forall k :: 0 <= k < |r| ==> r[k] in posts && r[k].sourceId != Some(sourceId))
            && (forall k :: 0 <= k < |posts| && posts[k].sourceId != Some(sourceId) ==> posts[k] in r)
            && BySource(r, sourceId) == []
  {
    var idx := Survivors(posts, sourceId);
    var r := DeletePostsBySource(posts, sourceId);
    forall k | 0 <= k < |posts| && posts[k].sourceId != Some(sourceId) ensures posts[k] in r {
      var j :| 0 <= j < |idx| && idx[j] == k;
      assert r[j] == posts[k];
    }
    forall k | 0 <= k < |r| ensures r[k] in posts && r[k].sourceId != Some(sourceId) {
      assert r[k] == posts[idx[k]];
    }
    NoneOfSource(r, sourceId);
  }

  lemma {:induction false} NoneOfSource(posts: seq<Post>, sourceId: int)
    requires forall k :: 0 <= k < |posts| ==> posts[k].sourceId != Some(sourceId)
    ensures BySource(posts, sourceId) == []
    decreases |posts|
  {
    if posts != [] {
      NoneOfSource(posts[1..], sourceId);
    }
  }

  /** The rows left keep their order, so the constraints still hold. */
  lemma DeletePostsBySourceValid(posts: seq<Post>, nextId: nat, sourceId: int)
    requires PostsValid(posts, nextId)
    ensures PostsValid(DeletePostsBySource(posts, sourceId), nextId)
  {
    var idx := Survivors(posts, sourceId);
    var r := DeletePostsBySource(posts, sourceId);
    forall i, j | 0 <= i < j < |r| ensures r[i].id < r[j].id && !Clash(r[i], r[j]) {
      assert r[i] == posts[idx[i]] && r[j] == posts[idx[j]];
    }
    forall k | 0 <= k < |r| ensures r[k].id < nextId {
      assert r[k] == posts[idx[k]];
    }
  }

  /** The store after `delete_posts_by_source`: the remaining rows, and the next rowid
      one past the largest remaining key. */
  function DeleteSourcePosts(d: Store, sourceId: int): Store {
    var kept := DeletePostsBySource(d.posts, sourceId);
    d.(posts := kept, nextPostId := NextRowid(kept))
  }

  lemma DeleteSourcePostsValid(d: Store, sourceId: int)
    requires Valid(d)
    ensures Valid(DeleteSourcePosts(d, sourceId))
  {
    var kept := DeletePostsBySource(d.posts, sourceId);
    DeletePostsBySourceValid(d.posts, d.nextPostId, sourceId);
    forall k | 0 <= k < |kept| ensures kept[k].id < NextRowid(kept) {
      assert k < |kept| - 1 ==> kept[k].id < kept[|kept| - 1].id;
    }
  }

  /** A delete that takes the row with the largest key frees that key: the next post
      gets a key no larger than it (1 when the table is left empty), below the counter an
      AUTOINCREMENT table would keep. */
  lemma DeleteFreesLastKey(d: Store, sourceId: int)
    requires Valid(d) && d.posts != [] && d.posts[|d.posts| - 1].sourceId == Some(sourceId)
    ensures var kept := DeletePostsBySource(d.posts, sourceId);
            && (kept == [] ==> DeleteSourcePosts(d, sourceId).nextPostId == 1)
            && (kept != [] ==> DeleteSourcePosts(d, sourceId).nextPostId <= d.posts[|d.posts| - 1].id < d.nextPostId)
  {
    var kept := DeletePostsBySource(d.posts, sourceId);
    var idx := Survivors(d.posts, sourceId);
    if kept != [] {
      var m := |idx| - 1;
      assert kept[m] == d.posts[idx[m]];
      assert idx[m] < |d.posts| - 1;
    }
  }

  /** `mark_post_as_read`: the row with that id is read, as of now. */
  function MarkPostAsRead(posts: seq<Post>, id: int, now: Timestamp): seq<Post> {
    seq(|posts|, k requires 0 <= k < |posts| =>
      if posts[k].id == id then posts[k].(isRead := true, readAt := Some(now)) else posts[k])
  }

  /** The row with that id becomes read at `now`, nothing else changes, an unknown id is
      a no-op, and a repeated call changes only `read_at`. */
  lemma MarkPostAsReadProperties(posts: seq<Post>, nextId: nat, id: int, now: Timestamp, later: Timestamp)
    requires PostsValid(posts, nextId)
    ensures var r := MarkPostAsRead(posts, id, now);
            && |r| == |posts| && PostsValid(r, nextId)
            && (forall k :: 0 <= k < |r| && posts[k].id == id ==>
                  r[k].isRead && r[k].readAt == Some(now) && r[k].(isRead := posts[k].isRead, readAt := posts[k].readAt) == posts[k])
            && (forall k :: 0 <= k < |r| && posts[k].id != id ==> r[k] == posts[k])
            && MarkPostAsRead(r, id, later) == MarkPostAsRead(posts, id, later)
            && NextRowid(r) == NextRowid(posts)
    ensures (forall k :: 0 <= k < |posts| ==> posts[k].id != id) ==> MarkPostAsRead(posts, id, now) == posts
  {
    var r := MarkPostAsRead(posts, id, now);
    forall i, j | 0 <= i < j < |r| ensures r[i].id < r[j].id && !Clash(r[i], r[j]) {
      assert !Clash(posts[i], posts[j]);
    }
    assert NextRowid(r) == NextRowid(posts);
  }

  class DatabaseManager {
    var sources: seq<Source>
    var posts: seq<Post>
    var nextSourceId: nat
    var nextPostId: nat

    function State(): Store
      reads this
    {
      Store(sources, posts, nextSourceId, nextPostId)
    }

    /** `init_db` on a fresh database file. */
    constructor ()
      ensures State() == Store([], [], 1, 1) && Valid(State())
    {
      sources, posts, nextSourceId, nextPostId := [], [], 1, 1;
    }

    /** `add_source`: None stands for the ValueError raised on a duplicate. */
    method AddSource(url: string, feedUrl: Option<string>, name: Option<string>, now: Timestamp) returns (r: Option<Source>)
      requires Valid(State())
      modifies this
      ensures Valid(State())
      ensures SourceExists(old(sources), url, feedUrl) ==> r.None? && State() == old(State())
      ensures !SourceExists(old(sources), url, feedUrl) ==>
              && r == Some(NewSource(old(nextSourceId), url, feedUrl, name, now))
              && State() == InsertSource(old(State()), url, feedUrl, name, now)
    {
      var found := CheckSourceExists(url, feedUrl);
      if found {
        return None;
      }
      InsertSourceProperties(State(), url, feedUrl, name, now);
      var s := NewSource(nextSourceId, url, feedUrl, name, now);
      sources := sources + [s];
      nextSourceId := nextSourceId + 1;
      r := Some(s);
    }

    /** `check_source_exists`: the same filter, scanned row by row. */
    method CheckSourceExists(url: string, feedUrl: Option<string>) returns (b: bool)
      ensures b <==> SourceExists(sources, url, feedUrl)
    {
      var i := 0;
      while i < |sources|
        invariant 0 <= i <= |sources|
        invariant forall k :: 0 <= k < i ==> !Matches(sources[k], url, feedUrl)
      {
        if Matches(sources[i], url, feedUrl) {
          return true;
        }
        i := i + 1;
      }
      return false;
    }

    method GetAllSources() returns (r: seq<Source>)
      ensures r == ActiveSources(sources)
      ensures forall k :: 0 <= k < |r| ==> r[k].isActive && r[k] in sources
      ensures forall k :: 0 <= k < |sources| && sources[k].isActive ==> sources[k] in r
    {
      r := ActiveSources(sources);
    }

    method UpdateSourceFeedRow(id: int, feedUrl: string, now: Timestamp)
      requires Valid(State())
      modifies this
      ensures State() == old(State()).(sources := UpdateSourceFeed(old(sources), id, feedUrl, now))
      ensures Valid(State())
    {
      UpdateSourceFeedProperties(sources, nextSourceId, id, feedUrl, now);
      sources := UpdateSourceFeed(sources, id, feedUrl, now);
    }

    /** `add_post`: None stands for the IntegrityError the commit raises, which
      `add_post` does not catch. */
    method AddPost(sourceId: int, title: string, description: string, summary: string,
                   imageUrl: Option<string>, externalLink: string, publishedDate: Option<Timestamp>, now: Timestamp)
      returns (r: Option<Post>)
      requires Valid(State())
      modifies this
      ensures Valid(State())
      ensures var p := PostFor(old(State()), sourceId, title, description, summary, imageUrl, externalLink, publishedDate, now);
              && (Collides(old(posts), p) ==> r.None? && State() == old(State()))
              && (!Collides(old(posts), p) ==> r == Some(p) && State() == InsertPost(old(State()), p))
    ensures r.Some? ==> r.value.id == NextRowid(old(posts))
    {
      var p := PostFor(State(), sourceId, title, description, summary, imageUrl, externalLink, publishedDate, now);
      if Collides(posts, p) {
        return None;
      }
      InsertPostValid(State(), p);
      posts := posts + [p];
      nextPostId := nextPostId + 1;
      r := Some(p);
    }

    /** `session.add(post); session.commit()` for a post built by a caller, with the
        rollback of its IntegrityError handler; the result says whether it committed. */
    method CommitPost(p: Post) returns (ok: bool)
      requires Valid(State()) && p.id == nextPostId
      modifies this
      ensures Valid(State())
      ensures ok <==> !Collides(old(posts), p)
      ensures ok ==> State() == InsertPost(old(State()), p)
      ensures !ok ==> State() == old(State())
    {
      if Collides(posts, p) {
        return false;
      }
      InsertPostValid(State(), p);
      posts := posts + [p];
      nextPostId := nextPostId + 1;
      return true;
    }

    method GetAllPosts(limit: int, offset: int) returns (r: seq<Post>)
      ensures r == AllPosts(posts, limit, offset)
      ensures limit >= 0 ==> |r| <= limit
      ensures Ordering.SortedDesc(r, PublishedKey)
    {
      AllPostsProperties(posts, limit, offset);
      r := AllPosts(posts, limit, offset);
    }

    method GetTotalPostsCount() returns (n: nat)
      ensures n == |posts|
    {
      n := |posts|;
    }

    method GetPostsBySource(sourceId: int, limit: int) returns (r: seq<Post>)
      ensures r == PostsBySource(posts, sourceId, limit)
      ensures forall k :: 0 <= k < |r| ==> r[k].sourceId == Some(sourceId)
    {
      PostsBySourceProperties(posts, sourceId, limit);
      r := PostsBySource(posts, sourceId, limit);
    }

    method DeletePostsOfSource(sourceId: int)
      requires Valid(State())
      modifies this
      ensures State() == DeleteSourcePosts(old(State()), sourceId)
      ensures Valid(State())
    {
      DeleteSourcePostsValid(State(), sourceId);
      posts := DeletePostsBySource(posts, sourceId);
      nextPostId := NextRowid(posts);
    }

    method MarkRead(id: int, now: Timestamp)
      requires Valid(State())
      modifies this
      ensures State() == old(State()).(posts := MarkPostAsRead(old(posts), id, now))
      ensures Valid(State())
    {
      MarkPostAsReadProperties(posts, nextPostId, id, now, now);
      posts := MarkPostAsRead(posts, id, now);
    }
  }
}
