/** `WebScraper` (web_scraper.py): HTML minification, and queries over the page a fetch
    left in `self.soup`. BeautifulSoup's CSS selector engine is a foreign library: a
    fetched page is given as a `Dom` whose `select` functions answer the queries. */
module WebScraper {
  import opened Base
  import Html

  // ---- minify_html --------------------------------------------------------------------

  /** Whitespace occurs only as lone ' ' characters. */
  predicate SingleSpaced(s: string) {
    (forall i :: 0 <= i < |s| && IsSpace(s[i]) ==> s[i] == ' ') && NoPair(s, ' ', ' ')
  }

  /** No whitespace at either end. */
  predicate Trimmed(s: string) {
    s == [] || (!IsSpace(s[0]) && !IsSpace(s[|s| - 1]))
  }

  predicate Collapsed(s: string) {
    SingleSpaced(s) && Trimmed(s)
  }

  /** No '> <' anywhere. */
  predicate NoGapBetweenTags(s: string) {
    forall i :: 0 <= i < |s| - 2 ==> !(s[i] == '>' && s[i + 1] == ' ' && s[i + 2] == '<')
  }

  /** `' '.join(content.split())`. */
  function Collapse(content: string): string {
    JoinSpace(Words(content))
  }

  /** `minify_html` on the text of the content (`str(content)` for a parsed page); falsy
      content (None or '') is returned as it is. */
  function MinifyHtml(content: Option<string>): (r: Option<string>)
    ensures content.None? || content.value == [] ==> r == content
    ensures content.Some? && content.value != [] ==> r.Some?
  {
    if content.None? || content.value == [] then content
    else
      var collapsed := Collapse(content.value);
      var joined := Replace(collapsed, "> <", "><");
      var closed := Replace(joined, " >", ">");
      Some(Replace(closed, "< ", "<"))
  }

  /** The non-whitespace characters of `s`, in order. */
  function NonSpace(s: string): string
    decreases |s|
  {
    if s == [] then [] else (if IsSpace(s[0]) then [] else [s[0]]) + NonSpace(s[1..])
  }

  /** The words of a list, run together. */
  function Concat(ws: seq<string>): string
    decreases |ws|
  {
    if ws == [] then [] else ws[0] + Concat(ws[1..])
  }

  /** The minified text keeps whitespace only as single spaces between non-space
      characters, has no space just inside a tag bracket (no ' >' and no '< '), and
      keeps every non-whitespace character of the content, in order. */
  lemma MinifyHtmlProperties(content: string)
    requires content != []
    ensures var r := MinifyHtml(Some(content)).value;
            && Collapsed(r) && NoPair(r, ' ', '>') && NoPair(r, '<', ' ')
            && NonSpace(r) == NonSpace(content)
  {
    MinifyKeepsNonSpace(content);
    var collapsed := Collapse(content);
    JoinSpaceCollapsed(Words(content));
    var joined := Replace(collapsed, "> <", "><");
    ReplaceCollapsed(collapsed, "> <", "><");
    var closed := Replace(joined, " >", ">");
    ReplaceCollapsed(joined, " >", ">");
    ReplaceNoSpaceGt(joined);
    var r := Replace(closed, "< ", "<");
    ReplaceCollapsed(closed, "< ", "<");
    ReplaceNoLtSpace(closed);
    ReplaceKeepsNoSpaceGt(closed);
  }

  /** Only whitespace is dropped on the way: collapsing runs, then each replacement,
      whose pattern and replacement differ by a space only. */
  lemma MinifyKeepsNonSpace(content: string)
    requires content != []
    ensures NonSpace(MinifyHtml(Some(content)).value) == NonSpace(content)
  {
    var collapsed := Collapse(content);
    WordsNonSpace(content);
    JoinSpaceNonSpace(Words(content));
    var joined := Replace(collapsed, "> <", "><");
    var closed := Replace(joined, " >", ">");
    BracketSpaces();
    ReplaceNonSpace(collapsed, "> <", "><");
    ReplaceNonSpace(joined, " >", ">");
    ReplaceNonSpace(closed, "< ", "<");
  }

  /** The three replacements of `minify_html` only drop a space. */
  lemma BracketSpaces()
    ensures NonSpace("> <") == NonSpace("><")
    ensures NonSpace(" >") == NonSpace(">")
    ensures NonSpace("< ") == NonSpace("<")
  {
    assert NonSpace(" ") == [] by {
      assert " "[1..] == [];
    }
    assert NonSpace("<") == "<" by {
      assert "<"[1..] == [];
    }
    assert NonSpace(">") == ">" by {
      assert ">"[1..] == [];
    }
    assert "> <"[1..] == " <" && " <"[1..] == "<";
    assert "><"[1..] == "<";
    assert " >"[1..] == ">";
    assert "< "[1..] == " ";
  }

  lemma {:induction false} NonSpaceConcat(a: string, b: string)
    ensures NonSpace(a + b) == NonSpace(a) + NonSpace(b)
    decreases |a|
  {
    if a == [] {
      assert a + b == b;
    } else {
      assert (a + b)[0] == a[0] && (a + b)[1..] == a[1..] + b;
      NonSpaceConcat(a[1..], b);
    }
  }

  /** Splitting into words drops exactly the whitespace. */
  lemma {:induction false} WordsNonSpace(s: string)
    ensures Concat(Words(s)) == NonSpace(s)
    decreases |s|
  {
    if s != [] {
      WordsNonSpace(s[1..]);
      var rest := Words(s[1..]);
      if !IsSpace(s[0]) && |s| > 1 && !IsSpace(s[1]) {
        assert Words(s) == [[s[0]] + rest[0]] + rest[1..];
        assert Concat(rest) == rest[0] + Concat(rest[1..]);
        assert Concat(Words(s)) == [s[0]] + rest[0] + Concat(rest[1..]);
      }
    }
  }

  /** Joining space-free words by single spaces keeps exactly their characters. */
  lemma {:induction false} JoinSpaceNonSpace(ws: seq<string>)
    requires forall k :: 0 <= k < |ws| ==> forall c :: c in ws[k] ==> !IsSpace(c)
    ensures NonSpace(JoinSpace(ws)) == Concat(ws)
    decreases |ws|
  {
    if ws != [] {
      NoSpaceFixed(ws[0]);
      if |ws| == 1 {
        assert Concat(ws) == ws[0] + Concat([]);
        assert ws[0] + [] == ws[0];
      } else {
        var rest := ws[1..];
        assert forall k :: 0 <= k < |rest| ==> rest[k] == ws[k + 1];
        JoinSpaceNonSpace(rest);
        var tail := JoinSpace(rest);
        assert JoinSpace(ws) == ws[0] + " " + tail;
        NonSpaceConcat(ws[0] + " ", tail);
        NonSpaceConcat(ws[0], " ");
        assert NonSpace(" ") == [] by {
          assert " "[1..] == [];
        }
        assert ws[0] + [] == ws[0];
        assert Concat(ws) == ws[0] + Concat(rest);
      }
    }
  }

  lemma {:induction false} NoSpaceFixed(w: string)
    requires forall c :: c in w ==> !IsSpace(c)
    ensures NonSpace(w) == w
    decreases |w|
  {
    if w != [] {
      assert w[0] in w;
      assert forall c :: c in w[1..] ==> c in w;
      NoSpaceFixed(w[1..]);
    }
  }

  /** A replacement whose pattern and replacement have the same non-whitespace
      characters keeps the non-whitespace characters of the text. */
  lemma {:induction false} ReplaceNonSpace(s: string, pat: string, rep: string)
    requires |pat| > 0 && NonSpace(pat) == NonSpace(rep)
    ensures NonSpace(Replace(s, pat, rep)) == NonSpace(s)
    decreases |s|
  {
    if |s| >= |pat| {
      if s[..|pat|] == pat {
        ReplaceNonSpace(s[|pat|..], pat, rep);
        NonSpaceConcat(rep, Replace(s[|pat|..], pat, rep));
        assert s == s[..|pat|] + s[|pat|..];
        NonSpaceConcat(s[..|pat|], s[|pat|..]);
      } else {
        ReplaceNonSpace(s[1..], pat, rep);
        NonSpaceConcat([s[0]], Replace(s[1..], pat, rep));
      }
    }
  }

  /** The first replacement leaves no '> <' in the collapsed text. */
  lemma CollapsedGapsJoined(content: string)
    ensures NoGapBetweenTags(Replace(Collapse(content), "> <", "><"))
  {
    ReplaceNoGap(Collapse(content));
  }

  /** Joining non-empty words without whitespace by single spaces gives collapsed text
      that starts with the first word. */
  lemma {:induction false} JoinSpaceCollapsed(ws: seq<string>)
    requires forall k :: 0 <= k < |ws| ==> |ws[k]| > 0 && forall c :: c in ws[k] ==> !IsSpace(c)
    ensures Collapsed(JoinSpace(ws))
    ensures ws != [] ==> |JoinSpace(ws)| > 0 && JoinSpace(ws)[0] == ws[0][0]
    decreases |ws|
  {
    if |ws| == 1 {
      assert ws[0][0] in ws[0] && ws[0][|ws[0]| - 1] in ws[0];
      forall i | 0 <= i < |ws[0]| ensures !IsSpace(ws[0][i]) {
        assert ws[0][i] in ws[0];
      }
    } else if |ws| > 1 {
      var w := ws[0];
      var rest := JoinSpace(ws[1..]);
      assert forall k :: 0 <= k < |ws[1..]| ==> ws[1..][k] == ws[k + 1];
      JoinSpaceCollapsed(ws[1..]);
      var r := JoinSpace(ws);
      assert r == w + " " + rest;
      forall i | 0 <= i < |w| ensures !IsSpace(w[i]) {
        assert w[i] in w;
      }
      assert w[0] in w && w[|w| - 1] in w;
      forall i | 0 <= i < |r| && IsSpace(r[i]) ensures r[i] == ' ' {
        if i > |w| {
          assert r[i] == rest[i - |w| - 1];
        }
      }
      forall i | 0 <= i < |r| - 1 ensures !(r[i] == ' ' && r[i + 1] == ' ') {
        if i > |w| {
          assert r[i] == rest[i - |w| - 1] && r[i + 1] == rest[i - |w|];
        } else if i == |w| {
          assert r[i + 1] == rest[0];
        }
      }
      assert r[|r| - 1] == rest[|rest| - 1];
    }
  }

  /** The ends of a replacement come from the ends of the text or of the replacement. */
  lemma ReplaceEnds(s: string, pat: string, rep: string)
    requires |pat| > 0 && rep != []
    ensures var r := Replace(s, pat, rep);
            && (s == [] <==> r == [])
            && (s != [] ==> (r[0] == s[0] || r[0] == rep[0])
                            && (r[|r| - 1] == s[|s| - 1] || r[|r| - 1] == rep[|rep| - 1]))
  {
    ReplaceFront(s, pat, rep);
    if s != [] {
      ReplaceLast(s, pat, rep);
    }
  }

  lemma ReplaceFront(s: string, pat: string, rep: string)
    requires |pat| > 0 && rep != []
    ensures var r := Replace(s, pat, rep);
            && (s == [] <==> r == [])
            && (s != [] ==> r[0] == s[0] || r[0] == rep[0])
  {
  }

  lemma {:induction false} ReplaceLast(s: string, pat: string, rep: string)
    requires |pat| > 0 && rep != [] && s != []
    ensures var r := Replace(s, pat, rep);
            r != [] && (r[|r| - 1] == s[|s| - 1] || r[|r| - 1] == rep[|rep| - 1])
    decreases |s|
  {
    if |s| >= |pat| {
      if s[..|pat|] == pat {
        var u := s[|pat|..];
        var t := Replace(u, pat, rep);
        assert Replace(s, pat, rep) == rep + t;
        if u != [] {
          ReplaceLast(u, pat, rep);
          assert u[|u| - 1] == s[|s| - 1];
          assert (rep + t)[|rep + t| - 1] == t[|t| - 1];
        } else {
          assert t == [];
          assert rep + t == rep;
        }
      } else {
        var u := s[1..];
        var t := Replace(u, pat, rep);
        assert Replace(s, pat, rep) == [s[0]] + t;
        if u != [] {
          ReplaceLast(u, pat, rep);
          assert u[|u| - 1] == s[|s| - 1];
          assert ([s[0]] + t)[|t|] == t[|t| - 1];
        } else {
          assert t == [];
        }
      }
    }
  }

  /** Every character of a replacement comes from the text or from the replacement. */
  lemma {:induction false} ReplaceChars(s: string, pat: string, rep: string)
    requires |pat| > 0
    ensures forall k :: 0 <= k < |Replace(s, pat, rep)| ==> Replace(s, pat, rep)[k] in s || Replace(s, pat, rep)[k] in rep
    decreases |s|
  {
    if |s| >= |pat| {
      var r := Replace(s, pat, rep);
      if s[..|pat|] == pat {
        var t := s[|pat|..];
        ReplaceChars(t, pat, rep);
        forall k | 0 <= k < |r| ensures r[k] in s || r[k] in rep {
          if k >= |rep| {
            assert r[k] == Replace(t, pat, rep)[k - |rep|];
            if r[k] in t {
              var j :| 0 <= j < |t| && t[j] == r[k];
              assert s[j + |pat|] == r[k];
            }
          }
        }
      } else {
        var t := s[1..];
        ReplaceChars(t, pat, rep);
        forall k | 0 <= k < |r| ensures r[k] in s || r[k] in rep {
          if k >= 1 {
            assert r[k] == Replace(t, pat, rep)[k - 1];
            if r[k] in t {
              var j :| 0 <= j < |t| && t[j] == r[k];
              assert s[j + 1] == r[k];
            }
          }
        }
      }
    }
  }

  /** A concatenation lacks the pair `a b` when both parts do and their seam does. */
  lemma NoPairConcat(u: string, t: string, a: char, b: char)
    requires NoPair(u, a, b) && NoPair(t, a, b)
    requires u != [] && t != [] ==> !(u[|u| - 1] == a && t[0] == b)
    ensures NoPair(u + t, a, b)
  {
    var r := u + t;
    forall i | 0 <= i < |r| - 1 ensures !(r[i] == a && r[i + 1] == b) {
      if i >= |u| {
        assert r[i] == t[i - |u|] && r[i + 1] == t[i - |u| + 1];
      } else if i == |u| - 1 {
        assert r[i + 1] == t[0];
      }
    }
  }

  lemma NoPairTail(s: string, a: char, b: char, n: nat)
    requires NoPair(s, a, b) && n <= |s|
    ensures NoPair(s[n..], a, b)
  {
    forall i | 0 <= i < |s[n..]| - 1 ensures !(s[n..][i] == a && s[n..][i + 1] == b) {
      assert s[n..][i] == s[n + i] && s[n..][i + 1] == s[n + i + 1];
    }
  }

  /** A replacement by a text without whitespace keeps whitespace in single spaces and
      away from the ends. */
  lemma {:induction false} ReplaceCollapsed(s: string, pat: string, rep: string)
    requires |pat| > 0 && rep != [] && forall c :: c in rep ==> !IsSpace(c)
    requires SingleSpaced(s)
    ensures SingleSpaced(Replace(s, pat, rep))
    ensures Trimmed(s) ==> Trimmed(Replace(s, pat, rep))
    decreases |s|
  {
    var r := Replace(s, pat, rep);
    ReplaceEnds(s, pat, rep);
    ReplaceChars(s, pat, rep);
    assert rep[0] in rep && rep[|rep| - 1] in rep;
    forall k | 0 <= k < |r| && IsSpace(r[k]) ensures r[k] == ' ' {
      if r[k] in s {
        var j :| 0 <= j < |s| && s[j] == r[k];
      }
    }
    if |s| >= |pat| {
      if s[..|pat|] == pat {
        var t := s[|pat|..];
        NoPairTail(s, ' ', ' ', |pat|);
        ReplaceCollapsed(t, pat, rep);
        forall i | 0 <= i < |rep| - 1 ensures !(rep[i] == ' ' && rep[i + 1] == ' ') {
          assert rep[i] in rep;
        }
        NoPairConcat(rep, Replace(t, pat, rep), ' ', ' ');
      } else {
        var t := s[1..];
        NoPairTail(s, ' ', ' ', 1);
        ReplaceCollapsed(t, pat, rep);
        ReplaceEnds(t, pat, rep);
        NoPairConcat([s[0]], Replace(t, pat, rep), ' ', ' ');
      }
    }
  }

  /** In single-spaced text, closing brackets drawn onto the previous word leave no ' >'. */
  lemma {:induction false} ReplaceNoSpaceGt(s: string)
    requires SingleSpaced(s)
    ensures NoPair(Replace(s, " >", ">"), ' ', '>')
    decreases |s|
  {
    if |s| >= 2 {
      if s[..2] == " >" {
        var t := s[2..];
        NoPairTail(s, ' ', ' ', 2);
        ReplaceNoSpaceGt(t);
        NoPairConcat(">", Replace(t, " >", ">"), ' ', '>');
      } else {
        var t := s[1..];
        NoPairTail(s, ' ', ' ', 1);
        ReplaceNoSpaceGt(t);
        ReplaceEnds(t, " >", ">");
        NoPairConcat([s[0]], Replace(t, " >", ">"), ' ', '>');
      }
    }
  }

  /** In single-spaced text, opening brackets drawn onto the next word leave no '< '. */
  lemma {:induction false} ReplaceNoLtSpace(s: string)
    requires SingleSpaced(s)
    ensures NoPair(Replace(s, "< ", "<"), '<', ' ')
    decreases |s|
  {
    if |s| >= 2 {
      if s[..2] == "< " {
        var t := s[2..];
        NoPairTail(s, ' ', ' ', 2);
        ReplaceNoLtSpace(t);
        ReplaceEnds(t, "< ", "<");
        if t != [] {
          assert s[1] == ' ' && t[0] == s[2];
        }
        NoPairConcat("<", Replace(t, "< ", "<"), '<', ' ');
      } else {
        var t := s[1..];
        NoPairTail(s, ' ', ' ', 1);
        ReplaceNoLtSpace(t);
        ReplaceEnds(t, "< ", "<");
        NoPairConcat([s[0]], Replace(t, "< ", "<"), '<', ' ');
      }
    } else if |s| == 1 {
      assert NoPair(s, '<', ' ');
    }
  }

  /** Dropping spaces after '<' creates no ' >'. */
  lemma {:induction false} ReplaceKeepsNoSpaceGt(s: string)
    requires NoPair(s, ' ', '>')
    ensures NoPair(Replace(s, "< ", "<"), ' ', '>')
    decreases |s|
  {
    if |s| >= 2 {
      if s[..2] == "< " {
        var t := s[2..];
        NoPairTail(s, ' ', '>', 2);
        ReplaceKeepsNoSpaceGt(t);
        NoPairConcat("<", Replace(t, "< ", "<"), ' ', '>');
      } else {
        var t := s[1..];
        NoPairTail(s, ' ', '>', 1);
        ReplaceKeepsNoSpaceGt(t);
        ReplaceEnds(t, "< ", "<");
        NoPairConcat([s[0]], Replace(t, "< ", "<"), ' ', '>');
      }
    }
  }

  /** Replacing '> <' by '><' leaves no '> <' in any text. */
  lemma {:induction false} ReplaceNoGap(s: string)
    ensures NoGapBetweenTags(Replace(s, "> <", "><"))
    decreases |s|
  {
    var r := Replace(s, "> <", "><");
    if |s| >= 3 {
      if s[..3] == "> <" {
        var t := s[3..];
        ReplaceNoGap(t);
        var rt := Replace(t, "> <", "><");
        assert r == "><" + rt;
        forall i | 0 <= i < |r| - 2 ensures !(r[i] == '>' && r[i + 1] == ' ' && r[i + 2] == '<') {
          if i >= 2 {
            assert r[i] == rt[i - 2] && r[i + 1] == rt[i - 1] && r[i + 2] == rt[i];
          }
        }
      } else {
        var t := s[1..];
        ReplaceNoGap(t);
        var rt := Replace(t, "> <", "><");
        assert r == [s[0]] + rt;
        ReplaceEnds(t, "> <", "><");
        forall i | 0 <= i < |r| - 2 ensures !(r[i] == '>' && r[i + 1] == ' ' && r[i + 2] == '<') {
          if i >= 1 {
            assert r[i] == rt[i - 1] && r[i + 1] == rt[i] && r[i + 2] == rt[i + 1];
          } else if s[0] == '>' && rt[0] == ' ' {
            // rt starts with a copied ' ', so the next character is the step after it
            assert t[0] == ' ';
            GapStep(t);
            assert rt == [' '] + Replace(t[1..], "> <", "><");
            ReplaceEnds(t[1..], "> <", "><");
            assert s[..3] != "> <";
          }
        }
      }
    }
  }

  /** A text starting with ' ' copies it and goes on with the rest. */
  lemma GapStep(t: string)
    requires t != [] && t[0] == ' '
    ensures Replace(t, "> <", "><") == [' '] + Replace(t[1..], "> <", "><")
  {
    if |t| < 3 {
      assert Replace(t[1..], "> <", "><") == t[1..];
      assert t == [' '] + t[1..];
    }
  }

  // ---- queries over the fetched page ------------------------------------------------

  /** A BeautifulSoup element: its tag name, `get_text(strip=True)` and its attributes. A
      `Tag` is always truthy (its `__bool__` is True whatever its contents), so `if content`
      on the result of `select_one` or `find` only tests that an element was found. */
  datatype Element = Element(name: string, text: string, attrs: map<string, string>)

  /** A parsed page, answering the queries BeautifulSoup answers: `select` on the page,
      `select` inside an element, `find(name)` inside an element, and `find('body')`. */
  datatype Dom = Dom(select: string -> seq<Element>,
                     selectIn: (Element, string) -> seq<Element>,
                     findIn: (Element, string) -> Option<Element>,
                     body: Option<Element>)

  /** `select_one`: the first match of `select`. */
  function First(s: seq<Element>): (r: Option<Element>)
    ensures r.None? <==> s == []
    ensures r.Some? ==> r.value == s[0]
  {
    if s == [] then None else Some(s[0])
  }

  const MainContentSelectors: seq<string> :=
    ["main", "article", "#content", ".content", "[role=\"main\"]", ".main-content",
     "#main-content", ".post-content", ".entry-content", ".article-content"]

  /** The first match of the first selector, from position `i` on, that matches at all. */
  function FirstContent(d: Dom, sels: seq<string>, i: nat): (r: Option<Element>)
    requires i <= |sels|
    ensures r.Some? ==> exists k :: i <= k < |sels| && d.select(sels[k]) != [] && r == Some(d.select(sels[k])[0])
                          && forall j :: i <= j < k ==> d.select(sels[j]) == []
    ensures r.None? ==> forall j :: i <= j < |sels| ==> d.select(sels[j]) == []
    decreases |sels| - i
  {
    if i == |sels| then None
    else if First(d.select(sels[i])).Some? then First(d.select(sels[i]))
    else FirstContent(d, sels, i + 1)
  }

  /** `get_main_content` on a fetched page. */
  function MainContent(d: Dom): Option<Element> {
    match FirstContent(d, MainContentSelectors, 0)
    case Some(e) => Some(e)
    case None => d.body
  }

  /** One entry of `get_titles_and_links`. */
  datatype TitleLink = TitleLink(title: string, link: Option<string>)

  /** The link element of a title element: the match of `link_selector` inside it, else the
      element itself when it is an `<a>`, else its first `<a>`. */
  function LinkElement(d: Dom, e: Element, linkSelector: Option<string>): Option<Element> {
    if linkSelector.Some? && linkSelector.value != [] then First(d.selectIn(e, linkSelector.value))
    else if e.name == "a" then Some(e)
    else d.findIn(e, "a")
  }

  /** `href` made absolute: kept when it starts with 'http://' or 'https://', else joined
      with the page URL; None and '' are kept. */
  function Absolute(url: string, href: Option<string>, join: Html.UrlJoin): (r: Option<string>)
    ensures href.None? ==> r.None?
    ensures href.Some? && (href.value == [] || IsAbsoluteHttp(href.value)) ==> r == href
    ensures href.Some? && href.value != [] && !IsAbsoluteHttp(href.value) ==> r == Some(join(url, href.value))
  {
    if href.Some? && href.value != [] && !IsAbsoluteHttp(href.value) then Some(join(url, href.value)) else href
  }

  /** The entry for one title element; None when its link element has no `href`
      (`link_element['href']` raises KeyError). */
  function TitleLinkOf(d: Dom, url: string, e: Element, linkSelector: Option<string>, join: Html.UrlJoin): Option<TitleLink> {
    var l := LinkElement(d, e, linkSelector);
    if l.None? then Some(TitleLink(e.text, None))
    else if "href" !in l.value.attrs then None
    else Some(TitleLink(e.text, Absolute(url, Some(l.value.attrs["href"]), join)))
  }

  /** All entries, in element order; None when one of them raises. */
  function TitlesAndLinks(d: Dom, url: string, es: seq<Element>, linkSelector: Option<string>, join: Html.UrlJoin): Option<seq<TitleLink>>
    decreases |es|
  {
    if es == [] then Some([])
    else
      var n := |es| - 1;
      match TitlesAndLinks(d, url, es[..n], linkSelector, join)
      case None => None
      case Some(rs) =>
        match TitleLinkOf(d, url, es[n], linkSelector, join)
        case None => None
        case Some(t) => Some(rs + [t])
  }

  /** On success there is one entry per title element, in order, titled with its text;
      its link is None exactly when no link element was found, and otherwise the
      element's `href` made absolute. The call fails exactly when some link element has
      no `href`. */
  lemma {:induction false} TitlesAndLinksProperties(d: Dom, url: string, es: seq<Element>, linkSelector: Option<string>, join: Html.UrlJoin)
    ensures var r := TitlesAndLinks(d, url, es, linkSelector, join);
            && (r.None? <==> exists k :: 0 <= k < |es| && TitleLinkOf(d, url, es[k], linkSelector, join).None?)
            && (r.Some? ==> |r.value| == |es| && forall k :: 0 <= k < |es| ==>
                  && r.value[k].title == es[k].text
                  && var l := LinkElement(d, es[k], linkSelector);
                     && (l.None? ==> r.value[k].link.None?)
                     && (l.Some? ==> r.value[k].link == Absolute(url, Some(l.value.attrs["href"]), join)))
    decreases |es|
  {
    if es != [] {
      var n := |es| - 1;
      TitlesAndLinksProperties(d, url, es[..n], linkSelector, join);
      assert forall k :: 0 <= k < n ==> es[..n][k] == es[k];
      var r := TitlesAndLinks(d, url, es, linkSelector, join);
      if r.None? && TitlesAndLinks(d, url, es[..n], linkSelector, join).Some? {
        assert TitleLinkOf(d, url, es[n], linkSelector, join).None?;
      }
    }
  }

  /** Once an entry raises, the whole call raises. */
  lemma {:induction false} TitlesAndLinksFails(d: Dom, url: string, es: seq<Element>, n: nat, linkSelector: Option<string>, join: Html.UrlJoin)
    requires n <= |es| && TitlesAndLinks(d, url, es[..n], linkSelector, join).None?
    ensures TitlesAndLinks(d, url, es, linkSelector, join).None?
    decreases |es|
  {
    if n == |es| {
      assert es[..n] == es;
    } else {
      var m := |es| - 1;
      assert es[..m][..n] == es[..n];
      TitlesAndLinksFails(d, url, es[..m], n, linkSelector, join);
    }
  }

  /** The scraper: the URL it was built for and the page the last successful fetch left. */
  class WebScraper {
    var url: string
    var soup: Option<Dom>

    constructor (url: string)
      ensures this.url == url && soup.None?
    {
      this.url := url;
      soup := None;
    }

    /** `fetch_content` with the page as requested, cleaned, minified and narrowed to its
        main area already (None when `requests` raised): a failed fetch keeps the old page. */
    method FetchContent(fetched: Option<Dom>) returns (r: Option<Dom>)
      modifies this
      ensures url == old(url)
      ensures fetched.Some? ==> soup == fetched && r == fetched
      ensures fetched.None? ==> soup == old(soup) && r.None?
    {
      if fetched.None? {
        return None;
      }
      soup := fetched;
      r := soup;
    }

    /** `get_main_content`: None before any fetch, else the first match in the fixed
        selector order, else the body. */
    method GetMainContent() returns (r: Option<Element>)
      ensures soup.None? ==> r.None?
      ensures soup.Some? ==> r == MainContent(soup.value)
    {
      if soup.None? {
        return None;
      }
      var content := SelectFirst(soup.value, MainContentSelectors);
      r := if content.Some? then content else soup.value.body;
    }

    /** The loop of `get_main_content` over its selectors. */
    static method SelectFirst(d: Dom, sels: seq<string>) returns (r: Option<Element>)
      ensures r == FirstContent(d, sels, 0)
    {
      var i := 0;
      while i < |sels|
        invariant 0 <= i <= |sels|
        invariant FirstContent(d, sels, 0) == FirstContent(d, sels, i)
      {
        var content := First(d.select(sels[i]));
        if content.Some? {
          return content;
        }
        i := i + 1;
      }
      r := None;
    }

    /** `get_elements_by_selector`: [] before any fetch. */
    method GetElementsBySelector(selector: string) returns (r: seq<Element>)
      ensures soup.None? ==> r == []
      ensures soup.Some? ==> r == soup.value.select(selector)
    {
      if soup.None? {
        return [];
      }
      r := soup.value.select(selector);
    }

    /** `get_titles_and_links`; None when a link element has no `href`. */
    method GetTitlesAndLinks(titleSelector: string, linkSelector: Option<string>, join: Html.UrlJoin)
      returns (r: Option<seq<TitleLink>>)
      ensures soup.None? ==> r == Some([])
      ensures soup.Some? ==> r == TitlesAndLinks(soup.value, url, soup.value.select(titleSelector), linkSelector, join)
    {
      var es := GetElementsBySelector(titleSelector);
      if soup.None? {
        return Some([]);
      }
      var d := soup.value;
      var results := [];
      for i := 0 to |es|
        invariant TitlesAndLinks(d, url, es[..i], linkSelector, join) == Some(results)
      {
        assert es[..i + 1][..i] == es[..i];
        var linkElement := LinkElement(d, es[i], linkSelector);
        var href := None;
        if linkElement.Some? {
          if "href" !in linkElement.value.attrs {
            TitlesAndLinksFails(d, url, es, i + 1, linkSelector, join);
            return None;
          }
          href := Some(linkElement.value.attrs["href"]);
        }
        if href.Some? && href.value != [] && !IsAbsoluteHttp(href.value) {
          href := Some(join(url, href.value));
        }
        results := results + [TitleLink(es[i].text, href)];
      }
      assert es[..|es|] == es;
      r := Some(results);
    }
  }
}
