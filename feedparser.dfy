/** A feed entry as `feedparser` returns it. Every key may be absent (None here); the
    library itself, including its key aliasing, is a foreign dependency whose output the
    model receives as a value. */
module Feedparser {
  import opened Base

  /** A `time.struct_time`; the model only needs to know whether it is empty. */
  type TimeTuple = seq<int>

  datatype Entry = Entry(
    title: Option<string>,
    description: Option<string>,
    summary: Option<string>,
    link: Option<string>,
    publishedParsed: Option<TimeTuple>,
    updatedParsed: Option<TimeTuple>,
    /** `entry.media_content`: a list of dicts, each possibly holding a 'url' key. */
    mediaContent: Option<seq<map<string, string>>>,
    /** `entry.content`: the `.value` of each content item. */
    content: Option<seq<string>>)

  /** `feedparser.parse(url).entries`, or None when the call raises. */
  type Parsed = Option<seq<Entry>>

  /** `entry.get(key, '')` for a string field. */
  function OrEmpty(v: Option<string>): (r: string)
    ensures v.Some? ==> r == v.value
    ensures v.None? ==> r == ""
  {
    if v.Some? then v.value else ""
  }

  /** `hasattr(entry, k) and entry.k` for a time field: present and non-empty. */
  predicate TimeTruthy(t: Option<TimeTuple>) {
    t.Some? && |t.value| > 0
  }

  /** `datetime.fromtimestamp(time.mktime(t))`: local-time conversion, a parameter. */
  type LocalTime = TimeTuple -> Timestamp
}
