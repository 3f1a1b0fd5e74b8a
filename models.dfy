/** The SQLAlchemy records of the sources page (src/models.py) and, from the migration
    that adds it, the unique index on a post's (title, source_id). */
module Models {
  import opened Base

  datatype Source = Source(
    id: nat,
    url: string,
    feedUrl: Option<string>,
    name: Option<string>,
    createdAt: Option<Timestamp>,
    lastChecked: Option<Timestamp>,
    isActive: bool)

  datatype Post = Post(
    id: nat,
    title: Option<string>,
    description: Option<string>,
    summary: Option<string>,
    imageUrl: Option<string>,
    externalLink: Option<string>,
    publishedDate: Option<Timestamp>,
    createdAt: Timestamp,
    isRead: bool,
    readAt: Option<Timestamp>,
    sourceId: Option<int>)

  /** `Source(url=..., feed_url=..., name=..., created_at=..., last_checked=...)`: the
      column default makes it active. */
  function NewSource(id: nat, url: string, feedUrl: Option<string>, name: Option<string>, now: Timestamp): (s: Source)
    ensures s.isActive && s.url == url && s.feedUrl == feedUrl && s.id == id
    ensures s.createdAt == Some(now) && s.lastChecked == Some(now)
  {
    Source(id, url, feedUrl, name, Some(now), Some(now), true)
  }

  /** `Post(...)` with the column defaults: unread, no read time, created now. */
  function NewPost(id: nat, title: Option<string>, description: Option<string>, summary: Option<string>,
                   imageUrl: Option<string>, externalLink: Option<string>, publishedDate: Option<Timestamp>,
                   sourceId: int, now: Timestamp): (p: Post)
    ensures !p.isRead && p.readAt.None? && p.createdAt == now
    ensures p.sourceId == Some(sourceId) && p.externalLink == externalLink && p.publishedDate == publishedDate
  {
    Post(id, title, description, summary, imageUrl, externalLink, publishedDate, now, false, None, Some(sourceId))
  }

  /** The `sources` constraints: increasing primary keys and a unique, non-null url. The
      schema puts no constraint on `feed_url`. */
  predicate SourcesValid(sources: seq<Source>, nextId: nat) {
    && (forall i, j :: 0 <= i < j < |sources| ==> sources[i].id < sources[j].id)
    && (forall i :: 0 <= i < |sources| ==> sources[i].id < nextId)
    && (forall i, j :: 0 <= i < j < |sources| ==> sources[i].url != sources[j].url)
  }

  /** The row `p` would clash with under UNIQUE(external_link) or the unique index on
      (title, source_id); NULLs are distinct from everything. */
  predicate Clash(q: Post, p: Post) {
    || (p.externalLink.Some? && q.externalLink == p.externalLink)
    || (p.title.Some? && p.sourceId.Some? && q.title == p.title && q.sourceId == p.sourceId)
  }

  predicate Collides(posts: seq<Post>, p: Post) {
    exists i :: 0 <= i < |posts| && Clash(posts[i], p)
  }

  /** The `posts` constraints. */
  predicate PostsValid(posts: seq<Post>, nextId: nat) {
    && (forall i, j :: 0 <= i < j < |posts| ==> posts[i].id < posts[j].id)
    && (forall i :: 0 <= i < |posts| ==> posts[i].id < nextId)
    && (forall i, j :: 0 <= i < j < |posts| ==> !Clash(posts[i], posts[j]))
  }

  /** `Clash` is symmetric, so the constraint reads the same from either row. */
  lemma ClashSymmetric(p: Post, q: Post)
    ensures Clash(p, q) <==> Clash(q, p)
  {
  }

  /** Appending a post that clashes with no row keeps the constraints. */
  lemma AppendPostValid(posts: seq<Post>, nextId: nat, p: Post)
    requires PostsValid(posts, nextId) && !Collides(posts, p) && p.id == nextId
    ensures PostsValid(posts + [p], nextId + 1)
  {
    var s := posts + [p];
    forall i, j | 0 <= i < j < |s| ensures !Clash(s[i], s[j]) {
      if j == |posts| {
        assert !Clash(posts[i], p);
        ClashSymmetric(posts[i], p);
      }
    }
  }
}
