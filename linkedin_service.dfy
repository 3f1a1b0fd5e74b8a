/** `LinkedInService` (src/services/linkedin_service.py): the chat log of a post and its
    generated LinkedIn posts. A generated post starts as a 'draft'; publishing marks it
    'published' with a time, and editing its content makes it a 'draft' again. The
    generator itself (the agent crew) is a parameter. */
module LinkedInService {
  import opened Base
  import opened PostModel
  import Ordering

  type Preferences = map<string, string>

  /** `crew.generate_post(title=..., content=..., preferences=...)`. */
  type Generator = (Option<string>, Option<string>, Preferences) -> string

  /** `post.description or post.summary`: the description unless it is None or empty. */
  function ContentFor(post: Post): (c: Option<string>)
    ensures post.description.Some? && post.description.value != [] ==> c == post.description
    ensures post.description.None? || post.description.value == [] ==> c == post.summary
  {
    if post.description.Some? && post.description.value != [] then post.description else post.summary
  }

  // ---- LinkedIn posts -----------------------------------------------------------------

  predicate DraftIdsIncreasing(drafts: seq<LinkedInPost>, nextId: nat) {
    Increasing(drafts) && forall i :: 0 <= i < |drafts| ==> drafts[i].id < nextId
  }

  /** `query(LinkedInPost).filter(LinkedInPost.id == id).first()`. */
  function FindDraft(drafts: seq<LinkedInPost>, id: int): (r: Option<LinkedInPost>)
    ensures r.Some? ==> r.value in drafts && r.value.id == id
    ensures r.None? <==> forall k :: 0 <= k < |drafts| ==> drafts[k].id != id
    decreases |drafts|
  {
    if drafts == [] then None
    else if drafts[0].id == id then Some(drafts[0])
    else
      var r := FindDraft(drafts[1..], id);
      assert drafts == [drafts[0]] + drafts[1..];
      assert forall k :: 1 <= k < |drafts| ==> drafts[k] == drafts[1..][k - 1];
      r
  }

  /** Replace the row with that id; ids are unique, so this is the row `first()` finds. */
  function UpdateDraft(drafts: seq<LinkedInPost>, id: int, f: LinkedInPost -> LinkedInPost): seq<LinkedInPost> {
    seq(|drafts|, k requires 0 <= k < |drafts| => if drafts[k].id == id then f(drafts[k]) else drafts[k])
  }

  /** `update_linkedin_post`: new content, status back to 'draft'. */
  function Edited(l: LinkedInPost, content: string): LinkedInPost {
    l.(content := Some(content), status := Some("draft"))
  }

  /** `publish_linkedin_post`: status 'published', published now. */
  function Published(l: LinkedInPost, now: Timestamp): LinkedInPost {
    l.(status := Some("published"), publishedAt := Some(now))
  }

  predicate Increasing(drafts: seq<LinkedInPost>) {
    forall i, j :: 0 <= i < j < |drafts| ==> drafts[i].id < drafts[j].id
  }

  /** With increasing ids, `first()` on a row's id finds that row. */
  lemma {:induction false} FindDraftAt(drafts: seq<LinkedInPost>, k: nat)
    requires Increasing(drafts) && k < |drafts|
    ensures FindDraft(drafts, drafts[k].id) == Some(drafts[k])
    decreases |drafts|
  {
    if k > 0 {
      var tail := drafts[1..];
      assert Increasing(tail) by {
        forall i, j | 0 <= i < j < |tail| ensures tail[i].id < tail[j].id {
          assert tail[i] == drafts[i + 1] && tail[j] == drafts[j + 1];
        }
      }
      assert drafts[0].id < drafts[k].id;
      FindDraftAt(tail, k - 1);
    }
  }

  lemma FindAfterUpdate(drafts: seq<LinkedInPost>, nextId: nat, id: int, f: LinkedInPost -> LinkedInPost, other: int)
    requires DraftIdsIncreasing(drafts, nextId)
    requires forall l :: f(l).id == l.id
    ensures var r := UpdateDraft(drafts, id, f);
            && DraftIdsIncreasing(r, nextId)
            && (FindDraft(drafts, id).Some? ==> FindDraft(r, id) == Some(f(FindDraft(drafts, id).value)))
            && (FindDraft(drafts, id).None? ==> r == drafts)
            && (other != id ==> FindDraft(r, other) == FindDraft(drafts, other))
  {
    var r := UpdateDraft(drafts, id, f);
    assert forall k :: 0 <= k < |r| ==> r[k].id == drafts[k].id;
    if FindDraft(drafts, id).Some? {
      UpdatedFound(drafts, r, id, f);
    } else {
      assert r == drafts;
    }
    if other != id {
      UpdatedOther(drafts, r, id, f, other);
    }
  }

  lemma UpdatedFound(drafts: seq<LinkedInPost>, r: seq<LinkedInPost>, id: int, f: LinkedInPost -> LinkedInPost)
    requires Increasing(drafts) && Increasing(r) && r == UpdateDraft(drafts, id, f)
    requires forall k :: 0 <= k < |r| ==> r[k].id == drafts[k].id
    requires FindDraft(drafts, id).Some?
    ensures FindDraft(r, id) == Some(f(FindDraft(drafts, id).value))
  {
    var k :| 0 <= k < |drafts| && drafts[k] == FindDraft(drafts, id).value;
    FindDraftAt(drafts, k);
    FindDraftAt(r, k);
  }

  lemma UpdatedOther(drafts: seq<LinkedInPost>, r: seq<LinkedInPost>, id: int, f: LinkedInPost -> LinkedInPost, other: int)
    requires Increasing(drafts) && Increasing(r) && r == UpdateDraft(drafts, id, f) && other != id
    requires forall k :: 0 <= k < |r| ==> r[k].id == drafts[k].id
    ensures FindDraft(r, other) == FindDraft(drafts, other)
  {
    if FindDraft(drafts, other).Some? {
      var k :| 0 <= k < |drafts| && drafts[k] == FindDraft(drafts, other).value;
      FindDraftAt(drafts, k);
      FindDraftAt(r, k);
    }
  }

  /** Editing sets the content and the 'draft' status, also on a published post; an
      unknown id changes nothing and finds None. */
  lemma EditProperties(drafts: seq<LinkedInPost>, nextId: nat, id: int, content: string, other: int)
    requires DraftIdsIncreasing(drafts, nextId)
    ensures var r := UpdateDraft(drafts, id, l => Edited(l, content));
            && DraftIdsIncreasing(r, nextId)
            && (FindDraft(drafts, id).Some? ==>
                  FindDraft(r, id).Some? && FindDraft(r, id).value.status == Some("draft")
                  && FindDraft(r, id).value.content == Some(content)
                  && FindDraft(r, id).value.publishedAt == FindDraft(drafts, id).value.publishedAt)
            && (FindDraft(drafts, id).None? ==> r == drafts && FindDraft(r, id).None?)
            && (other != id ==> FindDraft(r, other) == FindDraft(drafts, other))
  {
    FindAfterUpdate(drafts, nextId, id, l => Edited(l, content), other);
  }

  /** Publishing sets 'published' and the time and keeps the content; an unknown id
      changes nothing and finds None. */
  lemma PublishProperties(drafts: seq<LinkedInPost>, nextId: nat, id: int, now: Timestamp, other: int)
    requires DraftIdsIncreasing(drafts, nextId)
    ensures var r := UpdateDraft(drafts, id, l => Published(l, now));
            && DraftIdsIncreasing(r, nextId)
            && (FindDraft(drafts, id).Some? ==>
                  FindDraft(r, id).Some? && FindDraft(r, id).value.status == Some("published")
                  && FindDraft(r, id).value.publishedAt == Some(now)
                  && FindDraft(r, id).value.content == FindDraft(drafts, id).value.content)
            && (FindDraft(drafts, id).None? ==> r == drafts && FindDraft(r, id).None?)
            && (other != id ==> FindDraft(r, other) == FindDraft(drafts, other))
  {
    FindAfterUpdate(drafts, nextId, id, l => Published(l, now), other);
  }

  // ---- queries ------------------------------------------------------------------------

  function HistoryKey(h: ChatHistory): int { h.createdAt }
  function DraftKey(l: LinkedInPost): int { l.createdAt }

  /** `get_post_history`: the post's rows, newest `created_at` first. */
  function PostHistory(histories: seq<ChatHistory>, postId: int): seq<ChatHistory> {
    Ordering.SortDesc(Keep(histories, (h: ChatHistory) => h.postId == Some(postId)), HistoryKey)
  }

  /** `get_linkedin_posts`: the post's LinkedIn posts, newest `created_at` first. */
  function PostDrafts(drafts: seq<LinkedInPost>, postId: int): seq<LinkedInPost> {
    Ordering.SortDesc(Keep(drafts, (l: LinkedInPost) => l.postId == Some(postId)), DraftKey)
  }

  /** The history query returns exactly the rows of that post, newest first. */
  lemma PostHistoryProperties(histories: seq<ChatHistory>, postId: int)
    ensures var r := PostHistory(histories, postId);
            && Ordering.SortedDesc(r, HistoryKey)
            && (forall k :: 0 <= k < |r| ==> r[k].postId == Some(postId) && r[k] in histories)
            && (forall k :: 0 <= k < |histories| && histories[k].postId == Some(postId) ==> histories[k] in r)
  {
    var kh := Keep(histories, (h: ChatHistory) => h.postId == Some(postId));
    Ordering.SortDescMembers(kh, HistoryKey);
  }

  /** The LinkedIn posts query returns exactly the rows of that post, newest first. */
  lemma PostDraftsProperties(drafts: seq<LinkedInPost>, postId: int)
    ensures var r := PostDrafts(drafts, postId);
            && Ordering.SortedDesc(r, DraftKey)
            && (forall k :: 0 <= k < |r| ==> r[k].postId == Some(postId) && r[k] in drafts)
            && (forall k :: 0 <= k < |drafts| && drafts[k].postId == Some(postId) ==> drafts[k] in r)
  {
    var kd := Keep(drafts, (l: LinkedInPost) => l.postId == Some(postId));
    Ordering.SortDescMembers(kd, DraftKey);
  }

  /** The two log rows of one generation extend that post's log and no other. */
  lemma GenerationLog(histories: seq<ChatHistory>, a: ChatHistory, b: ChatHistory, postId: int, other: int)
    requires a.postId == Some(postId) && b.postId == Some(postId) && other != postId
    ensures Keep(histories + [a, b], (h: ChatHistory) => h.postId == Some(postId))
            == Keep(histories, (h: ChatHistory) => h.postId == Some(postId)) + [a, b]
    ensures Keep(histories + [a, b], (h: ChatHistory) => h.postId == Some(other))
            == Keep(histories, (h: ChatHistory) => h.postId == Some(other))
  {
    KeepAppend(histories, [a, b], (h: ChatHistory) => h.postId == Some(postId));
    KeepAppend(histories, [a, b], (h: ChatHistory) => h.postId == Some(other));
    assert [a, b][1..] == [b];
    assert [b][1..] == [];
  }

  class LinkedInService {
    var histories: seq<ChatHistory>
    var drafts: seq<LinkedInPost>
    var nextHistoryId: nat
    var nextDraftId: nat

    predicate Valid()
      reads this
    {
      DraftIdsIncreasing(drafts, nextDraftId)
    }

    constructor ()
      ensures histories == [] && drafts == [] && Valid()
    {
      histories, drafts, nextHistoryId, nextDraftId := [], [], 1, 1;
    }

    /** `save_chat_history`: one more row, committed. */
    method SaveChatHistory(postId: int, role: string, content: string, now: Timestamp)
      modifies this
      ensures histories == old(histories) + [ChatHistory(old(nextHistoryId), Some(postId), Some(role), Some(content), now, now)]
      ensures nextHistoryId == old(nextHistoryId) + 1
      ensures drafts == old(drafts) && nextDraftId == old(nextDraftId)
    {
      histories := histories + [ChatHistory(nextHistoryId, Some(postId), Some(role), Some(content), now, now)];
      nextHistoryId := nextHistoryId + 1;
    }

    /** `generate_linkedin_post`: log the start, generate, store the draft, log the result. */
    method GenerateLinkedInPost(post: Post, preferences: Preferences, generate: Generator, now: Timestamp)
      returns (result: string)
      requires Valid()
      modifies this
      ensures Valid()
      ensures result == generate(post.title, ContentFor(post), preferences)
      ensures histories == old(histories)
              + [ChatHistory(old(nextHistoryId), Some(post.id), Some("system"), Some("Starting LinkedIn post generation"), now, now),
                 ChatHistory(old(nextHistoryId) + 1, Some(post.id), Some("assistant"), Some(result), now, now)]
      ensures drafts == old(drafts) + [LinkedInPost(old(nextDraftId), Some(post.id), Some(result), Some("draft"), now, None)]
      ensures nextHistoryId == old(nextHistoryId) + 2 && nextDraftId == old(nextDraftId) + 1
    {
      SaveChatHistory(post.id, "system", "Starting LinkedIn post generation", now);
      var content := ContentFor(post);
      result := generate(post.title, content, preferences);
      drafts := drafts + [LinkedInPost(nextDraftId, Some(post.id), Some(result), Some("draft"), now, None)];
      nextDraftId := nextDraftId + 1;
      SaveChatHistory(post.id, "assistant", result, now);
    }

    method GetPostHistory(postId: int) returns (r: seq<ChatHistory>)
      ensures r == PostHistory(histories, postId)
    {
      r := PostHistory(histories, postId);
    }

    method GetLinkedInPosts(postId: int) returns (r: seq<LinkedInPost>)
      ensures r == PostDrafts(drafts, postId)
    {
      r := PostDrafts(drafts, postId);
    }

    /** `update_linkedin_post`: the edited row, or None for an unknown id. */
    method UpdateLinkedInPost(id: int, content: string) returns (r: Option<LinkedInPost>)
      requires Valid()
      modifies this
      ensures Valid()
      ensures drafts == UpdateDraft(old(drafts), id, l => Edited(l, content))
      ensures r == FindDraft(drafts, id)
      ensures r.Some? ==> r.value.status == Some("draft") && r.value.content == Some(content)
      ensures old(FindDraft(drafts, id)).None? ==> r.None? && drafts == old(drafts)
      ensures histories == old(histories)
      ensures nextHistoryId == old(nextHistoryId) && nextDraftId == old(nextDraftId)
    {
      EditProperties(drafts, nextDraftId, id, content, id);
      drafts := UpdateDraft(drafts, id, l => Edited(l, content));
      r := FindDraft(drafts, id);
    }

    /** `publish_linkedin_post`: the published row, or None for an unknown id. */
    method PublishLinkedInPost(id: int, now: Timestamp) returns (r: Option<LinkedInPost>)
      requires Valid()
      modifies this
      ensures Valid()
      ensures drafts == UpdateDraft(old(drafts), id, l => Published(l, now))
      ensures r == FindDraft(drafts, id)
      ensures r.Some? ==> r.value.status == Some("published") && r.value.publishedAt == Some(now)
      ensures old(FindDraft(drafts, id)).None? ==> r.None? && drafts == old(drafts)
      ensures histories == old(histories)
      ensures nextHistoryId == old(nextHistoryId) && nextDraftId == old(nextDraftId)
    {
      PublishProperties(drafts, nextDraftId, id, now, id);
      drafts := UpdateDraft(drafts, id, l => Published(l, now));
      r := FindDraft(drafts, id);
    }
  }
}
