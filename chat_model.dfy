/** The SQLite `chats` table (src/models/chat_model.py): the conversation held about one
    article. Rows are only appended; reads without ORDER BY are taken in insertion order. */
module ChatModel {
  import opened Base

  datatype ChatRow = ChatRow(
    id: nat,
    articleId: int,
    userMessage: Option<string>,
    assistantMessage: Option<string>,
    generatedPost: Option<string>,
    createdAt: Timestamp)

  datatype ChatTable = ChatTable(rows: seq<ChatRow>, nextId: nat)

  predicate Valid(t: ChatTable) {
    && (forall i, j :: 0 <= i < j < |t.rows| ==> t.rows[i].id < t.rows[j].id)
    && (forall i :: 0 <= i < |t.rows| ==> t.rows[i].id < t.nextId)
  }

  /** `save_chat`: a plain INSERT; the three message columns default to NULL and
      `created_at` to the current time. */
  function SaveChat(t: ChatTable, articleId: int, user: Option<string>, assistant: Option<string>,
                    post: Option<string>, now: Timestamp): ChatTable {
    ChatTable(t.rows + [ChatRow(t.nextId, articleId, user, assistant, post, now)], t.nextId + 1)
  }

  /** `WHERE article_id = ?`. */
  function ByArticle(rows: seq<ChatRow>, articleId: int): (r: seq<ChatRow>)
    ensures forall k :: 0 <= k < |r| ==> r[k].articleId == articleId && r[k] in rows
    ensures forall k :: 0 <= k < |rows| && rows[k].articleId == articleId ==> rows[k] in r
    decreases |rows|
  {
    if rows == [] then []
    else
      var init := rows[..|rows| - 1];
      var last := rows[|rows| - 1];
      assert rows == init + [last];
      ByArticle(init, articleId) + (if last.articleId == articleId then [last] else [])
  }

  /** Saving a message appends it to that article's conversation and leaves every other
      article's conversation unchanged; the table stays valid. */
  lemma SaveChatExtendsHistory(t: ChatTable, articleId: int, user: Option<string>, assistant: Option<string>,
                               post: Option<string>, now: Timestamp, other: int)
    requires Valid(t)
    ensures Valid(SaveChat(t, articleId, user, assistant, post, now))
    ensures var t' := SaveChat(t, articleId, user, assistant, post, now);
            ByArticle(t'.rows, other) ==
            ByArticle(t.rows, other)
            + (if other == articleId then [ChatRow(t.nextId, articleId, user, assistant, post, now)] else [])
  {
    var t' := SaveChat(t, articleId, user, assistant, post, now);
    assert t'.rows[..|t'.rows| - 1] == t.rows;
  }

  /** A column value of the `chats` table. */
  datatype Value = Int(i: int) | Text(s: Option<string>) | Time(at: Timestamp)

  const Columns: seq<string> := ["id", "article_id", "user_message", "assistant_message", "generated_post", "created_at"]

  /** `dict(zip(columns, row))`. */
  function ToDict(r: ChatRow): (d: map<string, Value>)
    ensures d.Keys == set c | c in Columns
  {
    map["id" := Int(r.id), "article_id" := Int(r.articleId), "user_message" := Text(r.userMessage),
        "assistant_message" := Text(r.assistantMessage), "generated_post" := Text(r.generatedPost),
        "created_at" := Time(r.createdAt)]
  }

  /** Reading a row back out of its dictionary. */
  function FromDict(d: map<string, Value>): Option<ChatRow> {
    if && "id" in d && d["id"].Int? && d["id"].i >= 0
       && "article_id" in d && d["article_id"].Int?
       && "user_message" in d && d["user_message"].Text?
       && "assistant_message" in d && d["assistant_message"].Text?
       && "generated_post" in d && d["generated_post"].Text?
       && "created_at" in d && d["created_at"].Time?
    then Some(ChatRow(d["id"].i, d["article_id"].i, d["user_message"].s, d["assistant_message"].s,
                      d["generated_post"].s, d["created_at"].at))
    else None
  }

  /** The dictionary loses nothing: every column lands under its own name. */
  lemma DictRoundTrip(r: ChatRow)
    ensures FromDict(ToDict(r)) == Some(r)
  {
    var d := ToDict(r);
    assert d["id"] == Int(r.id) && d["article_id"] == Int(r.articleId);
    assert d["user_message"] == Text(r.userMessage) && d["assistant_message"] == Text(r.assistantMessage);
    assert d["generated_post"] == Text(r.generatedPost) && d["created_at"] == Time(r.createdAt);
  }

  class Chat {
    var rows: seq<ChatRow>
    var nextId: nat

    function Table(): ChatTable
      reads this
    {
      ChatTable(rows, nextId)
    }

    constructor ()
      ensures Table() == ChatTable([], 1) && Valid(Table())
    {
      rows, nextId := [], 1;
    }

    method Save(articleId: int, user: Option<string>, assistant: Option<string>, post: Option<string>, now: Timestamp)
      requires Valid(Table())
      modifies this
      ensures Table() == SaveChat(old(Table()), articleId, user, assistant, post, now) && Valid(Table())
    {
      rows := rows + [ChatRow(nextId, articleId, user, assistant, post, now)];
      nextId := nextId + 1;
    }

    /** `get_chats_by_article`: the article's rows, each as a dictionary. */
    method GetChatsByArticle(articleId: int) returns (chats: seq<map<string, Value>>)
      ensures var hist := ByArticle(rows, articleId);
              |chats| == |hist| && forall k :: 0 <= k < |hist| ==> FromDict(chats[k]) == Some(hist[k])
      ensures forall k :: 0 <= k < |chats| ==> chats[k].Keys == set c | c in Columns
    {
      var hist := ByArticle(rows, articleId);
      chats := [];
      var i := 0;
      while i < |hist|
        invariant 0 <= i <= |hist| && |chats| == i
        invariant forall k :: 0 <= k < i ==> chats[k] == ToDict(hist[k])
      {
        DictRoundTrip(hist[i]);
        chats := chats + [ToDict(hist[i])];
        i := i + 1;
      }
      forall k | 0 <= k < |hist| ensures FromDict(chats[k]) == Some(hist[k]) {
        DictRoundTrip(hist[k]);
      }
    }

    /** `clear_chats`. */
    method Clear()
      requires Valid(Table())
      modifies this
      ensures Table() == ChatTable([], old(nextId)) && Valid(Table())
    {
      rows := [];
    }
  }
}
