/** The arithmetic of the post list (src/components/post_list.py): ten posts to a page, the
    page count, the page's limit and offset, the shortened description, and the rule
    that reading a post marks it read only when it is unread. */
module PostList {
  import opened Base
  import opened Models
  import Ordering
  import Database
  import PostServices = PostService
  import Components

  const PostsPerPage: nat := 10

  /** `(total_posts + POSTS_PER_PAGE - 1) // POSTS_PER_PAGE`. */
  function TotalPages(total: nat): (r: nat)
    ensures r * PostsPerPage >= total
    ensures total > 0 ==> (r - 1) * PostsPerPage < total
    ensures r == 0 <==> total == 0
  {
    Components.CeilDivProperties(total, PostsPerPage);
    Components.CeilDiv(total, PostsPerPage)
  }

  /** `_get_paginated_posts`: the offset of a page. */
  function Offset(page: int): int {
    (page - 1) * PostsPerPage
  }

  /** What `render` shows: nothing fetched when there are no posts, else the page of
      posts the slider points at, newest first. */
  function Rendered(posts: seq<Post>, page: int): (r: Option<seq<Post>>)
    ensures r.None? <==> posts == []
  {
    if |posts| == 0 then None else Some(Database.AllPosts(posts, PostsPerPage, Offset(page)))
  }

  /** Every page the slider offers is a non-empty page of at most ten posts; the post at
      place `k` of the newest-first order is at place `k % 10` of page `k / 10 + 1`. */
  lemma PagesCoverPosts(posts: seq<Post>, page: int)
    requires posts != [] && 1 <= page <= TotalPages(|posts|)
    ensures var r := Rendered(posts, page).value;
            var sorted := Ordering.SortDesc(posts, Database.PublishedKey);
            && 0 < |r| <= PostsPerPage
            && forall k :: 0 <= k < |sorted| && k / PostsPerPage + 1 == page ==>
                 k % PostsPerPage < |r| && r[k % PostsPerPage] == sorted[k]
  {
    var sorted := Ordering.SortDesc(posts, Database.PublishedKey);
    assert |sorted| == |multiset(sorted)| == |posts|;
    Components.MulMonotone(page - 1, TotalPages(|posts|) - 1, PostsPerPage);
    PageAt(sorted, page);
  }

  lemma PageAt<T>(s: seq<T>, page: int)
    requires 1 <= page && Offset(page) < |s|
    ensures var r := Ordering.LimitOffset(s, PostsPerPage, Offset(page));
            && 0 < |r| <= PostsPerPage
            && forall k :: 0 <= k < |s| && k / PostsPerPage + 1 == page ==>
                 k % PostsPerPage < |r| && r[k % PostsPerPage] == s[k]
  {
    var r := Ordering.LimitOffset(s, PostsPerPage, Offset(page));
    forall k | 0 <= k < |s| && k / PostsPerPage + 1 == page
      ensures k % PostsPerPage < |r| && r[k % PostsPerPage] == s[k]
    {
      assert k == Offset(page) + k % PostsPerPage;
    }
  }

  /** The description shown for a truthy description: its cleaned text (`clean_html`, a
      parameter here), cut to 300 characters and '...' when it is longer. */
  function Description(description: Option<string>, cleanHtml: string -> string): (r: Option<string>)
    ensures r.None? <==> description.None? || description.value == ""
    ensures r.Some? ==> var c := cleanHtml(description.value);
            && (|c| <= 300 ==> r.value == c)
            && (|c| > 300 ==> r.value == c[..300] + "..." && |r.value| == 303)
  {
    if description.None? || description.value == "" then None
    else
      var c := cleanHtml(description.value);
      Some(if |c| > 300 then c[..300] + "..." else c)
  }

  /** The post list over the post service. */
  class PostList {
    const postService: PostServices.PostService

    constructor (postService: PostServices.PostService)
      ensures this.postService == postService
    {
      this.postService := postService;
    }

    /** `render` for the page the slider holds, which is always one of its pages. */
    method Render(page: int) returns (r: Option<seq<Post>>)
      requires 1 <= page <= TotalPages(|postService.db.posts|) || postService.db.posts == []
      ensures r == Rendered(postService.db.posts, page)
    {
      var total := postService.GetTotalPostsCount();
      if total == 0 {
        return None;
      }
      var posts := postService.GetPosts(PostsPerPage, Offset(page));
      r := Some(posts);
    }

    /** The 'Read Post' button of a shown post: `mark_post_as_read` only when the post is
        unread, so a post read before keeps the time it was first read. */
    method ReadPost(post: Post, now: Timestamp)
      requires Database.Valid(postService.db.State())
      modifies postService.db
      ensures post.isRead ==> postService.db.State() == old(postService.db.State())
      ensures !post.isRead ==> postService.db.State() == old(postService.db.State()).(posts := Database.MarkPostAsRead(old(postService.db.posts), post.id, now))
      ensures Database.Valid(postService.db.State())
    {
      if !post.isRead {
        postService.MarkPostAsRead(post.id, now);
      }
    }
  }

  /** Reading a shown unread post records it read at that time; a later click sees the
      post read and leaves it, so the first reading time stays. */
  lemma FirstReadStays(posts: seq<Post>, nextId: nat, k: nat, now: Timestamp)
    requires PostsValid(posts, nextId) && k < |posts| && !posts[k].isRead
    ensures var r := Database.MarkPostAsRead(posts, posts[k].id, now);
            && r[k].isRead && r[k].readAt == Some(now)
            && (forall j :: 0 <= j < |posts| && j != k ==> r[j] == posts[j])
  {
    Database.MarkPostAsReadProperties(posts, nextId, posts[k].id, now, now);
    forall j | 0 <= j < |posts| && j != k ensures posts[j].id != posts[k].id {
      if j < k { assert posts[j].id < posts[k].id; } else { assert posts[k].id < posts[j].id; }
    }
  }
}
