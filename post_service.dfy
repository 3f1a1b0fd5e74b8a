/** `PostService` (src/services/post_service.py): feed ingestion into the `posts` table.
    Entries are committed one by one; an entry whose link or (title, source) is already
    taken fails its commit, is rolled back and is not counted, and the loop goes on. */
module PostService {
  import opened Base
  import opened Models
  import opened Database
  import FeedUtils

  /** `entry.get('image_url')`: an unset key and a stored None both give None. */
  function ImageUrlOf(slot: FeedUtils.ImageSlot): (r: Option<string>)
    ensures r.Some? <==> slot.Url?
    ensures slot.Url? ==> r == Some(slot.url)
  {
    match slot
    case Url(u) => Some(u)
    case _ => None
  }

  /** The `Post(...)` built for one entry; the id is the one the commit would assign.
      `published_date` is stored as given, without the clock fallback of `add_post`. */
  function EntryPost(d: Store, sourceId: int, e: FeedUtils.PostDict, now: Timestamp): (p: Post)
    ensures p.externalLink == Some(e.link) && p.title == Some(e.title) && p.sourceId == Some(sourceId)
    ensures p.publishedDate == e.publishedDate && p.imageUrl == ImageUrlOf(e.image)
    ensures p.description == Some(e.description) && p.summary == Some(e.summary)
    ensures !p.isRead && p.readAt.None? && p.createdAt == now && p.id == d.nextPostId
  {
    NewPost(d.nextPostId, Some(e.title), Some(e.description), Some(e.summary), ImageUrlOf(e.image),
            Some(e.link), e.publishedDate, sourceId, now)
  }

  /** An existing row already holds the entry's link, or its title under this source. */
  predicate Known(posts: seq<Post>, sourceId: int, e: FeedUtils.PostDict) {
    exists i :: 0 <= i < |posts| &&
      (posts[i].externalLink == Some(e.link) || (posts[i].title == Some(e.title) && posts[i].sourceId == Some(sourceId)))
  }

  /** The commit of one entry fails exactly when the entry is known. */
  lemma CollidesIffKnown(d: Store, sourceId: int, e: FeedUtils.PostDict, now: Timestamp)
    ensures Collides(d.posts, EntryPost(d, sourceId, e, now)) <==> Known(d.posts, sourceId, e)
  {
    var p := EntryPost(d, sourceId, e, now);
    if Known(d.posts, sourceId, e) {
      var i :| 0 <= i < |d.posts| &&
        (d.posts[i].externalLink == Some(e.link) || (d.posts[i].title == Some(e.title) && d.posts[i].sourceId == Some(sourceId)));
      assert Clash(d.posts[i], p);
    }
  }

  /** One iteration of the loop: commit, or roll back on IntegrityError. */
  function Ingest(d: Store, sourceId: int, e: FeedUtils.PostDict, now: Timestamp): Store {
    var p := EntryPost(d, sourceId, e, now);
    if Collides(d.posts, p) then d else InsertPost(d, p)
  }

  /** The loop over `entries`, in order. */
  function IngestAll(d: Store, sourceId: int, entries: seq<FeedUtils.PostDict>, now: Timestamp): Store
    decreases |entries|
  {
    if entries == [] then d
    else
      var n := |entries| - 1;
      Ingest(IngestAll(d, sourceId, entries[..n], now), sourceId, entries[n], now)
  }

  /** What an ingestion may do to a store: keep it valid, leave the sources alone, keep
      every existing post in place, and append only fresh unread rows of that source,
      at most one per entry. */
  predicate Grows(d: Store, d': Store, sourceId: int, now: Timestamp, bound: nat) {
    && Valid(d')
    && d'.sources == d.sources
    && |d.posts| <= |d'.posts| <= |d.posts| + bound
    && d'.posts[..|d.posts|] == d.posts
    && d'.nextPostId == d.nextPostId + (|d'.posts| - |d.posts|)
    && forall k :: |d.posts| <= k < |d'.posts| ==>
         && d'.posts[k].sourceId == Some(sourceId) && !d'.posts[k].isRead && d'.posts[k].readAt.None?
         && d'.posts[k].createdAt == now
  }

  lemma IngestGrows(d: Store, sourceId: int, e: FeedUtils.PostDict, now: Timestamp)
    requires Valid(d)
    ensures Grows(d, Ingest(d, sourceId, e, now), sourceId, now, 1)
    ensures Known(Ingest(d, sourceId, e, now).posts, sourceId, e)
  {
    var p := EntryPost(d, sourceId, e, now);
    CollidesIffKnown(d, sourceId, e, now);
    if !Collides(d.posts, p) {
      InsertPostValid(d, p);
      var ps := InsertPost(d, p).posts;
      assert ps[..|d.posts|] == d.posts;
      assert ps[|d.posts|] == p;
    } else {
      assert d.posts[..|d.posts|] == d.posts;
    }
  }

  lemma GrowsTrans(d: Store, d1: Store, d2: Store, sourceId: int, now: Timestamp, b1: nat, b2: nat)
    requires Grows(d, d1, sourceId, now, b1) && Grows(d1, d2, sourceId, now, b2)
    ensures Grows(d, d2, sourceId, now, b1 + b2)
  {
    assert d2.posts[..|d.posts|] == d1.posts[..|d1.posts|][..|d.posts|];
  }

  /** A row that clashes keeps clashing as the table grows. */
  lemma KnownGrows(posts: seq<Post>, posts': seq<Post>, sourceId: int, e: FeedUtils.PostDict)
    requires |posts| <= |posts'| && posts'[..|posts|] == posts
    requires Known(posts, sourceId, e)
    ensures Known(posts', sourceId, e)
  {
    var i :| 0 <= i < |posts| &&
      (posts[i].externalLink == Some(e.link) || (posts[i].title == Some(e.title) && posts[i].sourceId == Some(sourceId)));
    assert posts'[i] == posts[i];
  }

  /** The whole loop is an ingestion bounded by the number of entries, and afterwards
      every entry is known: it was either committed or already there. */
  lemma IngestAllProperties(d: Store, sourceId: int, entries: seq<FeedUtils.PostDict>, now: Timestamp)
    requires Valid(d)
    ensures Grows(d, IngestAll(d, sourceId, entries, now), sourceId, now, |entries|)
    ensures forall k :: 0 <= k < |entries| ==> Known(IngestAll(d, sourceId, entries, now).posts, sourceId, entries[k])
  {
    IngestAllGrows(d, sourceId, entries, now);
    IngestAllKnows(d, sourceId, entries, now);
  }

  lemma {:induction false} IngestAllGrows(d: Store, sourceId: int, entries: seq<FeedUtils.PostDict>, now: Timestamp)
    requires Valid(d)
    ensures Grows(d, IngestAll(d, sourceId, entries, now), sourceId, now, |entries|)
    decreases |entries|
  {
    if entries == [] {
      assert d.posts[..|d.posts|] == d.posts;
    } else {
      var n := |entries| - 1;
      var mid := IngestAll(d, sourceId, entries[..n], now);
      IngestAllGrows(d, sourceId, entries[..n], now);
      IngestGrows(mid, sourceId, entries[n], now);
      GrowsTrans(d, mid, IngestAll(d, sourceId, entries, now), sourceId, now, n, 1);
    }
  }

  lemma {:induction false} IngestAllKnows(d: Store, sourceId: int, entries: seq<FeedUtils.PostDict>, now: Timestamp)
    requires Valid(d)
    ensures forall k :: 0 <= k < |entries| ==> Known(IngestAll(d, sourceId, entries, now).posts, sourceId, entries[k])
    decreases |entries|
  {
    if entries != [] {
      var n := |entries| - 1;
      var mid := IngestAll(d, sourceId, entries[..n], now);
      var r := IngestAll(d, sourceId, entries, now);
      IngestAllKnows(d, sourceId, entries[..n], now);
      IngestAllGrows(d, sourceId, entries[..n], now);
      IngestGrows(mid, sourceId, entries[n], now);
      forall k | 0 <= k < n ensures Known(r.posts, sourceId, entries[k]) {
        assert entries[..n][k] == entries[k];
        KnownGrows(mid.posts, r.posts, sourceId, entries[k]);
      }
    }
  }

  /** Entries that are all known already add nothing. */
  lemma {:induction false} IngestAllKnown(d: Store, sourceId: int, entries: seq<FeedUtils.PostDict>, now: Timestamp)
    requires forall k :: 0 <= k < |entries| ==> Known(d.posts, sourceId, entries[k])
    ensures IngestAll(d, sourceId, entries, now) == d
    decreases |entries|
  {
    if entries != [] {
      var n := |entries| - 1;
      IngestAllKnown(d, sourceId, entries[..n], now);
      CollidesIffKnown(d, sourceId, entries[n], now);
    }
  }

  /** Re-running an ingestion with the same entries adds nothing. */
  lemma IngestAllTwice(d: Store, sourceId: int, entries: seq<FeedUtils.PostDict>, now: Timestamp, later: Timestamp)
    requires Valid(d)
    ensures var d1 := IngestAll(d, sourceId, entries, now);
            IngestAll(d1, sourceId, entries, later) == d1
  {
    IngestAllProperties(d, sourceId, entries, now);
    IngestAllKnown(IngestAll(d, sourceId, entries, now), sourceId, entries, later);
  }

  /** The loop over a concatenation is the loop over its halves, one after the other. */
  lemma {:induction false} IngestAllAppend(d: Store, sourceId: int, x: seq<FeedUtils.PostDict>, y: seq<FeedUtils.PostDict>, now: Timestamp)
    ensures IngestAll(d, sourceId, x + y, now) == IngestAll(IngestAll(d, sourceId, x, now), sourceId, y, now)
    decreases |y|
  {
    if y == [] {
      assert x + y == x;
    } else {
      var n := |y| - 1;
      assert (x + y)[..|x| + n] == x + y[..n];
      assert (x + y)[|x| + n] == y[n];
      IngestAllAppend(d, sourceId, x, y[..n], now);
    }
  }

  /** A committed entry's row stays at its position in every later prefix of the loop. */
  lemma CommittedStays(d: Store, sourceId: int, entries: seq<FeedUtils.PostDict>, now: Timestamp, i: nat, j: nat)
    returns (at: nat)
    requires Valid(d)
    requires i < j <= |entries|
    requires IngestAll(d, sourceId, entries[..i + 1], now) != IngestAll(d, sourceId, entries[..i], now)
    ensures var later := IngestAll(d, sourceId, entries[..j], now);
            at < |later.posts| && later.posts[at].externalLink == Some(entries[i].link)
  {
    var a := IngestAll(d, sourceId, entries[..i], now);
    assert entries[..i + 1][..i] == entries[..i];
    var b := IngestAll(d, sourceId, entries[..i + 1], now);
    assert b == InsertPost(a, EntryPost(a, sourceId, entries[i], now));
    at := |a.posts|;
    assert b.posts[at].externalLink == Some(entries[i].link);
    IngestAllGrows(d, sourceId, entries[..i], now);
    IngestGrows(a, sourceId, entries[i], now);
    assert entries[..j] == entries[..i + 1] + entries[i + 1..j];
    IngestAllAppend(d, sourceId, entries[..i + 1], entries[i + 1..j], now);
    IngestAllGrows(b, sourceId, entries[i + 1..j], now);
    var later := IngestAll(d, sourceId, entries[..j], now);
    assert later.posts[..|b.posts|] == b.posts;
    assert later.posts[at] == b.posts[at];
  }

  /** Of two entries in one batch that share a link, the later one is not committed
      once the earlier one was. */
  lemma LaterDuplicateSkipped(d: Store, sourceId: int, entries: seq<FeedUtils.PostDict>, now: Timestamp, i: nat, j: nat)
    requires Valid(d)
    requires i < j < |entries| && entries[i].link == entries[j].link
    requires IngestAll(d, sourceId, entries[..i + 1], now) != IngestAll(d, sourceId, entries[..i], now)
    ensures IngestAll(d, sourceId, entries[..j + 1], now) == IngestAll(d, sourceId, entries[..j], now)
  {
    var before := IngestAll(d, sourceId, entries[..j], now);
    var at := CommittedStays(d, sourceId, entries, now, i, j);
    assert Clash(before.posts[at], EntryPost(before, sourceId, entries[j], now));
    assert entries[..j + 1][..j] == entries[..j];
  }

  class PostService {
    var db: DatabaseManager

    constructor (db: DatabaseManager)
      ensures this.db == db
    {
      this.db := db;
    }

    method GetPosts(limit: int, offset: int) returns (r: seq<Post>)
      ensures r == AllPosts(db.posts, limit, offset)
    {
      r := db.GetAllPosts(limit, offset);
    }

    method GetTotalPostsCount() returns (n: nat)
      ensures n == |db.posts|
    {
      n := db.GetTotalPostsCount();
    }

    method MarkPostAsRead(id: int, now: Timestamp)
      requires Valid(db.State())
      modifies db
      ensures db.State() == old(db.State()).(posts := Database.MarkPostAsRead(old(db.posts), id, now))
      ensures Valid(db.State())
    {
      db.MarkRead(id, now);
    }

    /** `add_posts_from_feed_entries`: `(posts_added, total_entries)`. */
    method AddPostsFromFeedEntries(sourceId: int, entries: seq<FeedUtils.PostDict>, now: Timestamp)
      returns (added: nat, total: nat)
      requires Valid(db.State())
      modifies db
      ensures db.State() == IngestAll(old(db.State()), sourceId, entries, now)
      ensures Grows(old(db.State()), db.State(), sourceId, now, |entries|)
      ensures total == |entries| && added == |db.posts| - |old(db.posts)| && added <= total
    {
      total := |entries|;
      added := 0;
      ghost var d0 := db.State();
      var i := 0;
      while i < |entries|
        invariant 0 <= i <= |entries|
        invariant db.State() == IngestAll(d0, sourceId, entries[..i], now)
        invariant Valid(db.State()) && |d0.posts| <= |db.posts|
        invariant added == |db.posts| - |d0.posts|
      {
        ghost var before := db.State();
        var post := EntryPost(db.State(), sourceId, entries[i], now);
        var ok := db.CommitPost(post);
        if ok {
          added := added + 1;
        }
        assert db.State() == Ingest(before, sourceId, entries[i], now);
        IngestGrows(before, sourceId, entries[i], now);
        assert entries[..i + 1][..i] == entries[..i];
        i := i + 1;
      }
      assert entries[..i] == entries;
      IngestAllGrows(d0, sourceId, entries, now);
    }

    /** `add_posts_from_feed`: parse, then ingest. `parse_feed` catches every error of its
        own, so the `Error parsing feed` branch has nothing to catch. */
    method AddPostsFromFeed(sourceId: int, feedUrl: string, env: FeedUtils.FeedEnv, now: Timestamp)
      returns (added: nat, total: nat)
      requires Valid(db.State())
      modifies db
      ensures var entries := FeedUtils.ParsedPosts(env.parse(feedUrl), env.localTime, env.firstImg);
              && db.State() == IngestAll(old(db.State()), sourceId, entries, now)
              && total == |entries| && added == |db.posts| - |old(db.posts)| && added <= total
      ensures Grows(old(db.State()), db.State(), sourceId, now, total)
    {
      var entries := FeedUtils.ParseFeed(env.parse(feedUrl), env.localTime, env.firstImg);
      added, total := AddPostsFromFeedEntries(sourceId, entries, now);
    }
  }
}
