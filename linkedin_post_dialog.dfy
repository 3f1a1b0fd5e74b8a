/** The pure parts of the LinkedIn post dialog (src/ui/linkedin_post_dialog.py): right-to-left
    detection, the default Arabic draft, and the rule that picks the language of the draft
    from the number of assistant messages after each user message. */
module LinkedInPostDialog {
  import opened Base

  /** The code points of the character class of `is_rtl`: Hebrew, Arabic, Arabic
      Supplement, Arabic Extended-A, and the two Arabic presentation-form blocks. */
  predicate IsRtlChar(c: char) {
    var n := c as int;
    (0x0590 <= n <= 0x05FF) || (0x0600 <= n <= 0x06FF) || (0x0750 <= n <= 0x077F)
    || (0x08A0 <= n <= 0x08FF) || (0xFB50 <= n <= 0xFDFF) || (0xFE70 <= n <= 0xFEFF)
  }

  /** `is_rtl(text)`: the pattern's search over the text, one character at a time. */
  function IsRtl(text: string): (r: bool)
    ensures r <==> exists i :: 0 <= i < |text| && IsRtlChar(text[i])
    decreases |text|
  {
    if text == [] then false
    else if IsRtlChar(text[0]) then true
    else
      var rest := IsRtl(text[1..]);
      assert forall i :: 1 <= i < |text| ==> text[i] == text[1..][i - 1];
      rest
  }

  /** The empty text is not right-to-left. */
  lemma IsRtlEmpty()
    ensures !IsRtl("")
  {
  }

  /** A text containing a right-to-left text is right-to-left. */
  lemma IsRtlInside(a: string, s: string, b: string)
    requires IsRtl(s)
    ensures IsRtl(a + s + b)
  {
    var i :| 0 <= i < |s| && IsRtlChar(s[i]);
    assert (a + s + b)[|a| + i] == s[i];
  }

  const ArabicPrefix: string := "\U{1F50D} \U{642}\U{631}\U{627}\U{621}\U{629} \U{645}\U{645}\U{62A}\U{639}\U{629}: "
  const EnglishPrefix: string := "\U{1F50D} Enjoyable Read: "
  const KeyPointsLine: string := "\U{627}\U{644}\U{646}\U{642}\U{627}\U{637} \U{627}\U{644}\U{631}\U{626}\U{64A}\U{633}\U{64A}\U{629}:"
  const ReadMorePrefix: string := "\U{627}\U{642}\U{631}\U{623} \U{627}\U{644}\U{645}\U{632}\U{64A}\U{62F}: "
  const Hashtags: string := "#\U{62A}\U{643}\U{646}\U{648}\U{644}\U{648}\U{62C}\U{64A}\U{627} #\U{627}\U{628}\U{62A}\U{643}\U{627}\U{631} #\U{62A}\U{639}\U{644}\U{645}"

  /** How an f-string renders an optional value: None prints as 'None'. */
  function Render(s: Option<string>): string {
    if s.Some? then s.value else "None"
  }

  /** The key-points line: the description, cut to its first 200 characters and '...'
      when it is longer. */
  function KeyPoints(description: string): (r: string)
    ensures |description| <= 200 ==> r == description
    ensures |description| > 200 ==> r == description[..200] + "..." && |r| == 203
  {
    if |description| > 200 then description[..200] + "..." else description
  }

  /** `_generate_default_post(article)`; None when the description is None, where
      `len(article['description'])` raises TypeError. */
  function DefaultPost(title: string, description: Option<string>, url: Option<string>): (r: Option<string>)
    ensures r.None? <==> description.None?
  {
    if description.None? then None
    else Some(ArabicPrefix + title + "\n\n" + KeyPointsLine + "\n" + KeyPoints(description.value)
              + "\n\n" + ReadMorePrefix + Render(url) + "\n\n" + Hashtags)
  }

  /** The default draft, in its four blocks separated by blank lines. */
  lemma DefaultPostBlocks(title: string, description: string, url: Option<string>)
    ensures DefaultPost(title, Some(description), url).value
            == (ArabicPrefix + title + "\n") + ("\n" + KeyPointsLine)
               + ("\n" + KeyPoints(description) + "\n") + ("\n" + ReadMorePrefix + Render(url))
               + ("\n\n" + Hashtags)
  {
    Regroup(ArabicPrefix, title, KeyPointsLine, KeyPoints(description), ReadMorePrefix, Render(url), Hashtags);
  }

  lemma Regroup(ap: string, t: string, kl: string, kp: string, rm: string, u: string, h: string)
    ensures ap + t + "\n\n" + kl + "\n" + kp + "\n\n" + rm + u + "\n\n" + h
            == (ap + t + "\n") + ("\n" + kl) + ("\n" + kp + "\n") + ("\n" + rm + u) + ("\n\n" + h)
  {
    assert "\n\n" == "\n" + "\n";
  }

  /** The default draft starts with the Arabic prefix and the title on a line of its own,
      and ends with the hashtag line. */
  lemma DefaultPostEnds(title: string, description: string, url: Option<string>)
    ensures var p := DefaultPost(title, Some(description), url).value;
            && StartsWith(p, ArabicPrefix + title + "\n")
            && |p| >= |Hashtags| && p[|p| - |Hashtags|..] == Hashtags
  {
    DraftEnds(ArabicPrefix, title, KeyPointsLine, KeyPoints(description), ReadMorePrefix, Render(url), Hashtags);
  }

  lemma DraftEnds(ap: string, t: string, kl: string, kp: string, rm: string, u: string, h: string)
    ensures var p := ap + t + "\n\n" + kl + "\n" + kp + "\n\n" + rm + u + "\n\n" + h;
            && StartsWith(p, ap + t + "\n")
            && |p| >= |h| && p[|p| - |h|..] == h
  {
    Regroup(ap, t, kl, kp, rm, u, h);
    var first := ap + t + "\n";
    var rest := ("\n" + kl) + ("\n" + kp + "\n") + ("\n" + rm + u) + "\n\n";
    assert ap + t + "\n\n" + kl + "\n" + kp + "\n\n" + rm + u + "\n\n" + h == first + rest + h;
    Ends(first, rest, h);
  }

  lemma Ends(a: string, b: string, c: string)
    ensures StartsWith(a + b + c, a) && |a + b + c| >= |c| && (a + b + c)[|a + b + c| - |c|..] == c
  {
    assert (a + b + c)[..|a|] == a;
  }

  /** The default draft carries the key points on a line of their own, and the URL after
      the 'read more' prefix. */
  lemma DefaultPostLines(title: string, description: string, url: Option<string>)
    ensures var p := DefaultPost(title, Some(description), url).value;
            && Contains(p, "\n" + KeyPoints(description) + "\n")
            && Contains(p, ReadMorePrefix + Render(url))
  {
    DraftLines(ArabicPrefix, title, KeyPointsLine, KeyPoints(description), ReadMorePrefix, Render(url), Hashtags);
  }

  lemma DraftLines(ap: string, t: string, kl: string, kp: string, rm: string, u: string, h: string)
    ensures var p := ap + t + "\n\n" + kl + "\n" + kp + "\n\n" + rm + u + "\n\n" + h;
            && Contains(p, "\n" + kp + "\n")
            && Contains(p, rm + u)
  {
    Regroup(ap, t, kl, kp, rm, u, h);
    var p := ap + t + "\n\n" + kl + "\n" + kp + "\n\n" + rm + u + "\n\n" + h;
    var before := (ap + t + "\n") + ("\n" + kl);
    var line := "\n" + kp + "\n";
    var link := rm + u;
    var after := "\n\n" + h;
    assert p == before + line + "\n" + link + after;
    assert OccursAt(p, line, |before|) by {
      assert p[|before|..|before| + |line|] == line;
    }
    assert OccursAt(p, link, |before| + |line| + 1) by {
      assert p[|before| + |line| + 1..|before| + |line| + 1 + |link|] == link;
    }
  }

  /** The default draft is shown right to left. */
  lemma DefaultPostRtl(title: string, description: string, url: Option<string>)
    ensures IsRtl(DefaultPost(title, Some(description), url).value)
  {
    var p := DefaultPost(title, Some(description), url).value;
    assert p[2] == ArabicPrefix[2];
    assert IsRtlChar(p[2]);
  }

  /** One entry of `st.session_state.chat_history`. */
  datatype ChatMessage = ChatMessage(role: string, content: string)

  /** `sum(1 for msg in history if msg["role"] == "assistant")`. */
  function AssistantCount(history: seq<ChatMessage>): nat
    decreases |history|
  {
    if history == [] then 0
    else AssistantCount(history[..|history| - 1]) + (if history[|history| - 1].role == "assistant" then 1 else 0)
  }

  /** The draft set after a user message: the Arabic prefix when the number of assistant
      messages is even, the English one when it is odd, followed by the title. */
  function DraftFor(assistants: nat, title: string): (r: string)
    ensures assistants % 2 == 0 ==> r == ArabicPrefix + title
    ensures assistants % 2 == 1 ==> r == EnglishPrefix + title
  {
    if assistants % 2 == 0 then ArabicPrefix + title else EnglishPrefix + title
  }

  /** The Arabic draft is always shown right to left; the English one exactly when the
      title is. */
  lemma DraftDirection(assistants: nat, title: string)
    ensures assistants % 2 == 0 ==> IsRtl(DraftFor(assistants, title))
    ensures assistants % 2 == 1 ==> (IsRtl(DraftFor(assistants, title)) <==> IsRtl(title))
  {
    var d := DraftFor(assistants, title);
    if assistants % 2 == 0 {
      assert IsRtlChar(d[2]);
    } else {
      assert d == EnglishPrefix + title;
      if IsRtl(title) {
        IsRtlInside(EnglishPrefix, title, "");
        assert EnglishPrefix + title + "" == d;
      }
    }
  }

  /** The dialog state kept across reruns. */
  class Dialog {
    var chatHistory: seq<ChatMessage>
    var finalPost: string

    /** First display of the dialog: empty history and the default draft as the post. */
    constructor (title: string, description: string, url: Option<string>)
      ensures chatHistory == [] && finalPost == DefaultPost(title, Some(description), url).value
    {
      chatHistory := [];
      finalPost := DefaultPost(title, Some(description), url).value;
    }

    /** A submitted chat message: the user message and the fixed assistant reply are
        appended, then the draft is picked by the parity of the assistant messages. */
    method OnUserInput(userInput: string, title: string)
      modifies this
      ensures chatHistory == old(chatHistory) + [ChatMessage("user", userInput), ChatMessage("assistant", "I will try to help you!")]
      ensures finalPost == DraftFor(AssistantCount(old(chatHistory)) + 1, title)
    {
      chatHistory := chatHistory + [ChatMessage("user", userInput)];
      chatHistory := chatHistory + [ChatMessage("assistant", "I will try to help you!")];
      var count := CountAssistants();
      assert chatHistory[..|chatHistory| - 1] == old(chatHistory) + [ChatMessage("user", userInput)];
      assert (old(chatHistory) + [ChatMessage("user", userInput)])[..|old(chatHistory)|] == old(chatHistory);
      if count % 2 == 0 {
        finalPost := ArabicPrefix + title;
      } else {
        finalPost := EnglishPrefix + title;
      }
    }

    /** The generator expression that counts the assistant messages. */
    method CountAssistants() returns (n: nat)
      ensures n == AssistantCount(chatHistory)
    {
      n := 0;
      for i := 0 to |chatHistory|
        invariant n == AssistantCount(chatHistory[..i])
      {
        assert chatHistory[..i + 1][..i] == chatHistory[..i];
        if chatHistory[i].role == "assistant" {
          n := n + 1;
        }
      }
      assert chatHistory[..|chatHistory|] == chatHistory;
    }
  }

  /** Each user message adds exactly one assistant message. */
  lemma AssistantCountAfterInput(history: seq<ChatMessage>, userInput: string)
    ensures AssistantCount(history + [ChatMessage("user", userInput), ChatMessage("assistant", "I will try to help you!")])
            == AssistantCount(history) + 1
  {
    var h1 := history + [ChatMessage("user", userInput)];
    var h2 := h1 + [ChatMessage("assistant", "I will try to help you!")];
    assert history + [ChatMessage("user", userInput), ChatMessage("assistant", "I will try to help you!")] == h2;
    assert h2[..|h2| - 1] == h1;
    assert h1[..|h1| - 1] == history;
  }

  /** The history after `n` user messages into a fresh dialog. */
  function AfterInputs(inputs: seq<string>): seq<ChatMessage>
    decreases |inputs|
  {
    if inputs == [] then []
    else AfterInputs(inputs[..|inputs| - 1])
         + [ChatMessage("user", inputs[|inputs| - 1]), ChatMessage("assistant", "I will try to help you!")]
  }

  /** In a fresh dialog the n-th reply leaves the English draft when n is odd and the
      Arabic draft when n is even: the first reply is in English. */
  lemma {:induction false} AlternatingLanguage(inputs: seq<string>, title: string)
    ensures AssistantCount(AfterInputs(inputs)) == |inputs|
    ensures DraftFor(AssistantCount(AfterInputs(inputs)), title)
            == if |inputs| % 2 == 1 then EnglishPrefix + title else ArabicPrefix + title
    decreases |inputs|
  {
    if inputs != [] {
      AlternatingLanguage(inputs[..|inputs| - 1], title);
      AssistantCountAfterInput(AfterInputs(inputs[..|inputs| - 1]), inputs[|inputs| - 1]);
    }
  }
}
