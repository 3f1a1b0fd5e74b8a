/** What the core sees of an HTML page once BeautifulSoup has parsed it, and of an HTTP
    response once `requests` has fetched it. Parsing and fetching themselves are foreign
    libraries; the model receives their results as values. */
module Html {
  import opened Base

  /** One element in document order: its name, its attributes and BeautifulSoup's
      `.string` (the text of an element with a single text child, else None). */
  datatype Tag = Tag(name: string, attrs: map<string, string>, str: Option<string>)

  /** `tag.get(key)`. */
  function Get(t: Tag, key: string): Option<string> {
    if key in t.attrs then Some(t.attrs[key]) else None
  }

  /** `tag.get(key, default)`. */
  function GetOr(t: Tag, key: string, default: string): (r: string)
    ensures key in t.attrs ==> r == t.attrs[key]
    ensures key !in t.attrs ==> r == default
  {
    if key in t.attrs then t.attrs[key] else default
  }

  /** `soup.find_all(name)`: the elements with that name, in document order. */
  function FindAll(page: seq<Tag>, name: string): (r: seq<Tag>)
    ensures forall k :: 0 <= k < |r| ==> r[k].name == name && r[k] in page
    ensures forall t :: t in page && t.name == name ==> t in r
    ensures |r| <= |page|
  {
    if page == [] then []
    else if page[0].name == name then [page[0]] + FindAll(page[1..], name)
    else FindAll(page[1..], name)
  }

  /** No element of `s` satisfies `p`. */
  predicate NoneMatch(s: seq<Tag>, p: Tag -> bool) {
    forall k :: 0 <= k < |s| ==> !p(s[k])
  }

  /** The elements satisfying `p`, in document order (`find_all` with a filter). */
  function Filter(s: seq<Tag>, p: Tag -> bool): (r: seq<Tag>)
    ensures forall k :: 0 <= k < |r| ==> p(r[k])
    ensures |r| <= |s|
    ensures r == [] <==> NoneMatch(s, p)
    ensures r != [] ==> exists i :: 0 <= i < |s| && s[i] == r[0] && forall j :: 0 <= j < i ==> !p(s[j])
    decreases |s|
  {
    if s == [] then []
    else if p(s[0]) then [s[0]] + Filter(s[1..], p)
    else
      var rest := Filter(s[1..], p);
      assert rest != [] ==> exists i :: 0 <= i < |s| && s[i] == rest[0] && forall j :: 0 <= j < i ==> !p(s[j]) by {
        if rest != [] {
          var i :| 0 <= i < |s[1..]| && s[1..][i] == rest[0] && forall j :: 0 <= j < i ==> !p(s[1..][j]);
          assert s[i + 1] == rest[0];
          assert forall j :: 0 <= j < i + 1 ==> !p(s[j]) by {
            forall j | 0 <= j < i + 1 ensures !p(s[j]) {
              if j > 0 { assert s[j] == s[1..][j - 1]; }
            }
          }
        }
      }
      rest
  }

  /** The position of the first element satisfying `p`, if any. */
  function FirstWhere(s: seq<Tag>, p: Tag -> bool): (r: Option<nat>)
    ensures r.Some? ==> r.value < |s| && p(s[r.value]) && forall j :: 0 <= j < r.value ==> !p(s[j])
    ensures r.None? ==> forall j :: 0 <= j < |s| ==> !p(s[j])
    decreases |s|
  {
    if s == [] then None
    else if p(s[0]) then Some(0)
    else match FirstWhere(s[1..], p)
      case None => None
      case Some(i) => Some(i + 1)
  }

  /** The outcome of `requests.get(url)`: a status code and the parsed body, or an
      exception (connection error, timeout, invalid URL). */
  datatype Response = Response(status: int, page: seq<Tag>) | RequestFailed

  /** `response.raise_for_status()` raises for client and server errors. */
  predicate IsHttpError(status: int) {
    400 <= status < 600
  }

  /** The attributes of the first `<img>` BeautifulSoup finds in an HTML string, if any. */
  type FirstImg = string -> Option<map<string, string>>

  /** `urllib.parse.urljoin(base, ref)`: reference resolution of section 5.2 of RFC 3986. */
  type UrlJoin = (string, string) -> string
}
