/** The `Post` record of the `models` package (src/models/post.py) and its two child
    tables, `chat_histories` and `linkedin_posts`. Both relationships are declared with
    the cascade "all, delete-orphan": a child never outlives its post. */
module PostModel {
  import opened Base
  import Models

  /** `models/post.py` declares the same columns as src/models.py. */
  type Post = Models.Post

  /** `created_at` (the server's `now()`) and `timestamp` (`datetime.utcnow` in Python)
      are two readings of the clock. */
  datatype ChatHistory = ChatHistory(id: nat, postId: Option<int>, role: Option<string>,
                                     content: Option<string>, createdAt: Timestamp, timestamp: Timestamp)

  datatype LinkedInPost = LinkedInPost(id: nat, postId: Option<int>, content: Option<string>,
                                       status: Option<string>, createdAt: Timestamp,
                                       publishedAt: Option<Timestamp>)

  datatype Graph = Graph(posts: seq<Post>, histories: seq<ChatHistory>, drafts: seq<LinkedInPost>)

  /** The declared constraint of this file: `external_link` is unique where it is set. */
  predicate LinksUnique(posts: seq<Post>) {
    forall i, j :: 0 <= i < j < |posts| && posts[i].externalLink.Some? ==> posts[i].externalLink != posts[j].externalLink
  }

  predicate HasPost(posts: seq<Post>, id: int) {
    exists i :: 0 <= i < |posts| && posts[i].id == id
  }

  /** Every child row belongs to a post of the graph: delete-orphan leaves no orphans. */
  predicate NoOrphans(g: Graph) {
    && (forall k :: 0 <= k < |g.histories| ==> g.histories[k].postId.Some? && HasPost(g.posts, g.histories[k].postId.value))
    && (forall k :: 0 <= k < |g.drafts| ==> g.drafts[k].postId.Some? && HasPost(g.posts, g.drafts[k].postId.value))
  }

  predicate Valid(g: Graph) {
    LinksUnique(g.posts) && NoOrphans(g)
  }

  /** `session.delete(post)`: the post goes, and with it every chat history and every
      LinkedIn post that belongs to it. */
  function DeletePost(g: Graph, id: int): Graph {
    Graph(Keep(g.posts, (p: Post) => p.id != id),
          Keep(g.histories, (h: ChatHistory) => h.postId != Some(id)),
          Keep(g.drafts, (l: LinkedInPost) => l.postId != Some(id)))
  }

  /** Deleting a post removes it and all of its children, and keeps every other post
      together with all of its children. */
  lemma DeletePostSelects(g: Graph, id: int)
    ensures var g' := DeletePost(g, id);
            && !HasPost(g'.posts, id)
            && (forall k :: 0 <= k < |g'.histories| ==> g'.histories[k].postId != Some(id) && g'.histories[k] in g.histories)
            && (forall k :: 0 <= k < |g'.drafts| ==> g'.drafts[k].postId != Some(id) && g'.drafts[k] in g.drafts)
            && (forall k :: 0 <= k < |g.posts| && g.posts[k].id != id ==> g.posts[k] in g'.posts)
            && (forall k :: 0 <= k < |g.histories| && g.histories[k].postId != Some(id) ==> g.histories[k] in g'.histories)
            && (forall k :: 0 <= k < |g.drafts| && g.drafts[k].postId != Some(id) ==> g.drafts[k] in g'.drafts)
  {
  }

  /** Deleting a post keeps the graph valid: no child is left without its post. */
  lemma DeletePostValid(g: Graph, id: int)
    requires Valid(g)
    ensures Valid(DeletePost(g, id))
  {
    KeepUnique(g.posts, (p: Post) => p.id != id);
    HistoriesKeepParents(g, id);
    DraftsKeepParents(g, id);
  }

  lemma HistoriesKeepParents(g: Graph, id: int)
    requires NoOrphans(g)
    ensures var g' := DeletePost(g, id);
            forall k :: 0 <= k < |g'.histories| ==> g'.histories[k].postId.Some? && HasPost(g'.posts, g'.histories[k].postId.value)
  {
    var g' := DeletePost(g, id);
    forall k | 0 <= k < |g'.histories| ensures g'.histories[k].postId.Some? && HasPost(g'.posts, g'.histories[k].postId.value) {
      var h := g'.histories[k];
      var i :| 0 <= i < |g.histories| && g.histories[i] == h;
      var j :| 0 <= j < |g.posts| && g.posts[j].id == h.postId.value;
      var j' :| 0 <= j' < |g'.posts| && g'.posts[j'] == g.posts[j];
    }
  }

  lemma DraftsKeepParents(g: Graph, id: int)
    requires NoOrphans(g)
    ensures var g' := DeletePost(g, id);
            forall k :: 0 <= k < |g'.drafts| ==> g'.drafts[k].postId.Some? && HasPost(g'.posts, g'.drafts[k].postId.value)
  {
    var g' := DeletePost(g, id);
    forall k | 0 <= k < |g'.drafts| ensures g'.drafts[k].postId.Some? && HasPost(g'.posts, g'.drafts[k].postId.value) {
      var l := g'.drafts[k];
      var i :| 0 <= i < |g.drafts| && g.drafts[i] == l;
      var j :| 0 <= j < |g.posts| && g.posts[j].id == l.postId.value;
      var j' :| 0 <= j' < |g'.posts| && g'.posts[j'] == g.posts[j];
    }
  }

  /** Keeping some posts keeps external links unique. */
  lemma {:induction false} KeepUnique(posts: seq<Post>, p: Post -> bool)
    requires LinksUnique(posts)
    ensures LinksUnique(Keep(posts, p))
    decreases |posts|
  {
    if posts != [] {
      var tail := posts[1..];
      assert LinksUnique(tail) by {
        forall i, j | 0 <= i < j < |tail| && tail[i].externalLink.Some? ensures tail[i].externalLink != tail[j].externalLink {
          assert tail[i] == posts[i + 1] && tail[j] == posts[j + 1];
        }
      }
      KeepUnique(tail, p);
      var rest := Keep(tail, p);
      var r := Keep(posts, p);
      if p(posts[0]) {
        assert r == [posts[0]] + rest;
        forall i, j | 0 <= i < j < |r| && r[i].externalLink.Some? ensures r[i].externalLink != r[j].externalLink {
          assert r[j] == rest[j - 1];
          if i == 0 {
            var m :| 0 <= m < |tail| && tail[m] == rest[j - 1];
            assert tail[m] == posts[m + 1];
          } else {
            assert r[i] == rest[i - 1];
          }
        }
      } else {
        assert r == rest;
      }
    }
  }

  /** Children of one post, as its relationship collection lists them. */
  function ChatHistoriesOf(g: Graph, id: int): seq<ChatHistory> {
    Keep(g.histories, (h: ChatHistory) => h.postId == Some(id))
  }

  function LinkedInPostsOf(g: Graph, id: int): seq<LinkedInPost> {
    Keep(g.drafts, (l: LinkedInPost) => l.postId == Some(id))
  }

  /** After the delete the post has no children left. */
  lemma DeleteLeavesNoChildren(g: Graph, id: int)
    ensures ChatHistoriesOf(DeletePost(g, id), id) == []
    ensures LinkedInPostsOf(DeletePost(g, id), id) == []
  {
    var g' := DeletePost(g, id);
    KeepNone(g'.histories, (h: ChatHistory) => h.postId == Some(id));
    KeepNone(g'.drafts, (l: LinkedInPost) => l.postId == Some(id));
  }

  lemma {:induction false} KeepNone<T>(s: seq<T>, p: T -> bool)
    requires forall k :: 0 <= k < |s| ==> !p(s[k])
    ensures Keep(s, p) == []
    decreases |s|
  {
    if s != [] {
      KeepNone(s[1..], p);
    }
  }
}
