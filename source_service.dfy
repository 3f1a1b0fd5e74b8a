/** `SourceService` (src/services/source_service.py): adding a source, with an initial
    fetch of its feed, and refreshing a source by deleting its posts and ingesting the
    feed again. Results are `(success, message)` pairs. */
module SourceService {
  import opened Base
  import opened Models
  import opened Database
  import PostService
  import FeedUtils

  /** The second half of the pair: a fixed text, or the entry count that
      `add_posts_from_feed` returns in the message position. */
  datatype Message = Text(text: string) | Count(n: nat)

  /** `if feed_url:` on an optional string. */
  predicate Truthy(s: Option<string>) {
    s.Some? && s.value != []
  }

  /** The entries a fetch of `feedUrl` yields. */
  function FeedEntries(env: FeedUtils.FeedEnv, feedUrl: string): seq<FeedUtils.PostDict> {
    FeedUtils.ParsedPosts(env.parse(feedUrl), env.localTime, env.firstImg)
  }

  /** `source.last_checked = now` on the row of that source. */
  function Touch(sources: seq<Source>, id: int, now: Timestamp): (r: seq<Source>)
    ensures |r| == |sources|
    ensures forall k :: 0 <= k < |r| && sources[k].id == id ==> r[k] == sources[k].(lastChecked := Some(now))
    ensures forall k :: 0 <= k < |r| && sources[k].id != id ==> r[k] == sources[k]
  {
    seq(|sources|, k requires 0 <= k < |sources| =>
      if sources[k].id == id then sources[k].(lastChecked := Some(now)) else sources[k])
  }

  lemma TouchValid(sources: seq<Source>, nextId: nat, id: int, now: Timestamp)
    requires SourcesValid(sources, nextId)
    ensures SourcesValid(Touch(sources, id, now), nextId)
  {
  }

  /** The store after `delete_posts_by_source` and the re-fetch of a refresh. */
  function Refetched(d: Store, source: Source, env: FeedUtils.FeedEnv, now: Timestamp): Store
    requires source.feedUrl.Some?
  {
    PostService.IngestAll(DeleteSourcePosts(d, source.id), source.id,
                          FeedEntries(env, source.feedUrl.value), now)
  }

  /** After a refresh the source's posts are exactly the rows the re-fetch inserted, all
      unread, while every other source's posts are the ones it had. */
  lemma RefetchedProperties(d: Store, source: Source, env: FeedUtils.FeedEnv, now: Timestamp)
    requires Valid(d) && source.feedUrl.Some?
    ensures var r := Refetched(d, source, env, now);
            && Valid(r) && r.sources == d.sources
            && (forall k :: 0 <= k < |r.posts| && r.posts[k].sourceId == Some(source.id) ==>
                  !r.posts[k].isRead && r.posts[k].readAt.None? && r.posts[k].createdAt == now)
            && (forall k :: 0 <= k < |r.posts| && r.posts[k].sourceId != Some(source.id) ==> r.posts[k] in d.posts)
            && (forall k :: 0 <= k < |d.posts| && d.posts[k].sourceId != Some(source.id) ==> d.posts[k] in r.posts)
  {
    var d1 := DeleteSourcePosts(d, source.id);
    DeleteSourcePostsValid(d, source.id);
    DeletePostsBySourceSelects(d.posts, source.id);
    var entries := FeedEntries(env, source.feedUrl.value);
    PostService.IngestAllProperties(d1, source.id, entries, now);
    var r := Refetched(d, source, env, now);
    assert PostService.Grows(d1, r, source.id, now, |entries|);
    ReplacedRows(d.posts, d1.posts, r.posts, source.id, now);
  }

  /** The rows after a delete of one source's rows and an append of fresh rows of it. */
  lemma ReplacedRows(before: seq<Post>, kept: seq<Post>, after: seq<Post>, id: int, now: Timestamp)
    requires forall k :: 0 <= k < |kept| ==> kept[k] in before && kept[k].sourceId != Some(id)
    requires forall k :: 0 <= k < |before| && before[k].sourceId != Some(id) ==> before[k] in kept
    requires |kept| <= |after| && after[..|kept|] == kept
    requires forall k :: |kept| <= k < |after| ==>
               && after[k].sourceId == Some(id) && !after[k].isRead && after[k].readAt.None?
               && after[k].createdAt == now
    ensures forall k :: 0 <= k < |after| && after[k].sourceId == Some(id) ==>
              !after[k].isRead && after[k].readAt.None? && after[k].createdAt == now
    ensures forall k :: 0 <= k < |after| && after[k].sourceId != Some(id) ==> after[k] in before
    ensures forall k :: 0 <= k < |before| && before[k].sourceId != Some(id) ==> before[k] in after
  {
    assert forall k :: 0 <= k < |kept| ==> after[k] == kept[k];
    forall k | 0 <= k < |before| && before[k].sourceId != Some(id) ensures before[k] in after {
      var j :| 0 <= j < |kept| && kept[j] == before[k];
      assert after[j] == kept[j];
    }
  }

  class SourceService {
    var db: DatabaseManager
    var postService: PostService.PostService

    constructor (db: DatabaseManager, postService: PostService.PostService)
      requires postService.db == db
      ensures this.db == db && this.postService == postService
    {
      this.db := db;
      this.postService := postService;
    }

    method GetAllSources() returns (r: seq<Source>)
      ensures r == ActiveSources(db.sources)
    {
      r := db.GetAllSources();
    }

    method CheckSourceExists(url: string, feedUrl: Option<string>) returns (b: bool)
      ensures b <==> SourceExists(db.sources, url, feedUrl)
    {
      b := db.CheckSourceExists(url, feedUrl);
    }

    /** `add_source`. The duplicate test runs before `db.add_source`, whose own test is the
        same, so its ValueError is never raised here. */
    method AddSource(url: string, feedUrl: Option<string>, name: Option<string>, env: FeedUtils.FeedEnv, now: Timestamp)
      returns (ok: bool, msg: Message)
      requires postService.db == db && Valid(db.State())
      modifies db
      ensures Valid(db.State())
      ensures SourceExists(old(db.sources), url, feedUrl) ==>
              !ok && msg == Text("Source already exists") && db.State() == old(db.State())
      ensures !SourceExists(old(db.sources), url, feedUrl) && !Truthy(feedUrl) ==>
              && ok && msg == Text("Source added successfully")
              && db.State() == InsertSource(old(db.State()), url, feedUrl, name, now)
      ensures !SourceExists(old(db.sources), url, feedUrl) && Truthy(feedUrl) ==>
              var d1 := InsertSource(old(db.State()), url, feedUrl, name, now);
              var entries := FeedEntries(env, feedUrl.value);
              && db.State() == PostService.IngestAll(d1, old(db.nextSourceId), entries, now)
              && (ok <==> |db.posts| > |d1.posts|)
              && (ok ==> msg == Text("Source added and posts fetched successfully"))
              && (!ok ==> msg == Count(|entries|))
    {
      var known := CheckSourceExists(url, feedUrl);
      if known {
        return false, Text("Source already exists");
      }
      var r := db.AddSource(url, feedUrl, name, now);
      if r.None? {
        assert false;
      } else {
        var source := r.value;
        if Truthy(feedUrl) {
          var added, total := postService.AddPostsFromFeed(source.id, feedUrl.value, env, now);
          if added == 0 {
            return false, Count(total);
          }
          return true, Text("Source added and posts fetched successfully");
        }
        return true, Text("Source added successfully");
      }
    }

    /** `refresh_source_posts` on a source row of this session. */
    method RefreshSourcePosts(source: Source, env: FeedUtils.FeedEnv, now: Timestamp) returns (ok: bool, msg: Message)
      requires postService.db == db && Valid(db.State())
      modifies db
      ensures Valid(db.State())
      ensures !Truthy(source.feedUrl) ==>
              !ok && msg == Text("No feed URL available for this source") && db.State() == old(db.State())
      ensures Truthy(source.feedUrl) ==>
              var r := Refetched(old(db.State()), source, env, now);
              var kept := |DeletePostsBySource(old(db.posts), source.id)|;
              && (ok <==> |r.posts| > kept)
              && (ok ==> msg == Text("Posts refreshed successfully")
                         && db.State() == r.(sources := Touch(r.sources, source.id, now)))
              && (!ok ==> msg == Count(|FeedEntries(env, source.feedUrl.value)|) && db.State() == r)
    {
      if !Truthy(source.feedUrl) {
        return false, Text("No feed URL available for this source");
      }
      db.DeletePostsOfSource(source.id);
      var added, total := postService.AddPostsFromFeed(source.id, source.feedUrl.value, env, now);
      if added == 0 {
        return false, Count(total);
      }
      TouchValid(db.sources, db.nextSourceId, source.id, now);
      db.sources := Touch(db.sources, source.id, now);
      return true, Text("Posts refreshed successfully");
    }
  }
}
