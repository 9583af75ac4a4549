/** `TaggedLogger`: a logging adapter holding a dict of persistent tags
    that prefixes every message with the tags as sorted-key JSON. A Python
    dict keeps its keys in insertion order, so the tags are a list of
    (key, value) entries with distinct keys. */
module TaggedLogging {
  import opened Common
  import opened Sorting

  /** The JSON values a tag can hold (floats and containers are not
      modelled). */
  datatype TagValue = IntTag(i: int) | StrTag(s: string) | BoolTag(b: bool) | NullTag

  type Entry = (string, TagValue)

  /** A dict of tags, in insertion order. */
  type Dict = seq<Entry>

  function EntryKey(e: Entry): string
  {
    e.0
  }

  ghost predicate DistinctKeys(d: Dict)
  {
    forall i, j :: 0 <= i < j < |d| ==> d[i].0 != d[j].0
  }

  /** `d.get(k)`. */
  function Get(d: Dict, k: string): (r: Option<TagValue>)
    ensures r.Some? ==> exists i :: 0 <= i < |d| && d[i] == (k, r.value)
    ensures r.None? ==> forall i :: 0 <= i < |d| ==> d[i].0 != k
    decreases |d|
  {
    if |d| == 0 then None
    else if d[0].0 == k then Some(d[0].1)
    else
      var r := Get(d[1..], k);
      assert r.Some? ==> exists i :: 0 <= i < |d[1..]| && d[1..][i] == (k, r.value);
      assert forall i :: 1 <= i < |d| ==> d[i] == d[1..][i - 1];
      r
  }

  /** `d[k] = v`: an existing key keeps its place, a new one goes last. */
  function Put(d: Dict, k: string, v: TagValue): Dict
    decreases |d|
  {
    if |d| == 0 then [(k, v)]
    else if d[0].0 == k then [(k, v)] + d[1..]
    else [d[0]] + Put(d[1..], k, v)
  }

  /** `d.update(e)`: the entries of `e` stored one after the other. */
  function Update(d: Dict, e: Dict): Dict
    decreases |e|
  {
    if |e| == 0 then d else Put(Update(d, e[..|e| - 1]), e[|e| - 1].0, e[|e| - 1].1)
  }

  /** After `d[k] = v`, `k` maps to `v` and every other key to what it did;
      the keys stay distinct, and the old keys keep their order. */
  lemma PutGet(d: Dict, k: string, v: TagValue)
    requires DistinctKeys(d)
    ensures DistinctKeys(Put(d, k, v))
    ensures forall j :: Get(Put(d, k, v), j) == if j == k then Some(v) else Get(d, j)
    ensures Map(Put(d, k, v), EntryKey) == if Get(d, k).Some? then Map(d, EntryKey) else Map(d, EntryKey) + [k]
  {
    forall j ensures Get(Put(d, k, v), j) == if j == k then Some(v) else Get(d, j) {
      PutLookup(d, k, v, j);
    }
    PutKeys(d, k, v);
    var m, r := Map(d, EntryKey), Put(d, k, v);
    var mr := Map(r, EntryKey);
    forall i, j | 0 <= i < j < |r| ensures r[i].0 != r[j].0 {
      assert r[i].0 == mr[i] && r[j].0 == mr[j];
      if j < |m| {
        assert mr[i] == m[i] == d[i].0 && mr[j] == m[j] == d[j].0;
      } else {
        assert mr[i] == m[i] == d[i].0 && mr[j] == k;
      }
    }
  }

  lemma {:induction false} PutLookup(d: Dict, k: string, v: TagValue, j: string)
    ensures Get(Put(d, k, v), j) == if j == k then Some(v) else Get(d, j)
    decreases |d|
  {
    if |d| > 0 {
      var t := d[1..];
      if d[0].0 == k {
        assert ([(k, v)] + t)[1..] == t;
      } else {
        PutLookup(t, k, v, j);
        assert ([d[0]] + Put(t, k, v))[1..] == Put(t, k, v);
      }
    }
  }

  lemma {:induction false} PutKeys(d: Dict, k: string, v: TagValue)
    ensures Map(Put(d, k, v), EntryKey) == if Get(d, k).Some? then Map(d, EntryKey) else Map(d, EntryKey) + [k]
    decreases |d|
  {
    if |d| > 0 {
      var t := d[1..];
      assert d == [d[0]] + t;
      MapAppend([d[0]], t, EntryKey);
      if d[0].0 == k {
        MapAppend([(k, v)], t, EntryKey);
      } else {
        PutKeys(t, k, v);
        MapAppend([d[0]], Put(t, k, v), EntryKey);
        if Get(t, k).None? {
          MapAppend(t, [(k, v)], EntryKey);
        }
      }
    }
  }

  /** `add_tags`: a key of the update takes its new value; every other key
      keeps its old one. */
  lemma {:induction false} UpdateGet(d: Dict, e: Dict)
    requires DistinctKeys(d)
    ensures DistinctKeys(Update(d, e))
    ensures forall j :: Get(Update(d, e), j) == if LastGet(e, j).Some? then LastGet(e, j) else Get(d, j)
    decreases |e|
  {
    if |e| > 0 {
      var e' := e[..|e| - 1];
      UpdateGet(d, e');
      PutGet(Update(d, e'), e[|e| - 1].0, e[|e| - 1].1);
    }
  }

  /** The value the last entry with key `k` gives it, as the last
      assignment wins in `dict.update`. */
  function LastGet(e: Dict, k: string): Option<TagValue>
    decreases |e|
  {
    if |e| == 0 then None
    else if e[|e| - 1].0 == k then Some(e[|e| - 1].1)
    else LastGet(e[..|e| - 1], k)
  }

  /** In a dict (distinct keys) the last entry with a key is the only one. */
  lemma {:induction false} LastGetIsGet(e: Dict, k: string)
    requires DistinctKeys(e)
    ensures LastGet(e, k) == Get(e, k)
    decreases |e|
  {
    if |e| > 0 {
      var e' := e[..|e| - 1];
      assert DistinctKeys(e') by {
        assert forall i :: 0 <= i < |e'| ==> e'[i] == e[i];
      }
      LastGetIsGet(e', k);
      GetSnoc(e', e[|e| - 1], k);
      assert e == e' + [e[|e| - 1]];
    }
  }

  lemma {:induction false} GetSnoc(d: Dict, x: Entry, k: string)
    ensures Get(d + [x], k) == if Get(d, k).Some? then Get(d, k) else if x.0 == k then Some(x.1) else None
    decreases |d|
  {
    if |d| > 0 {
      GetSnoc(d[1..], x, k);
      assert (d + [x])[1..] == d[1..] + [x];
    }
  }

  /** Updating a dict with the entries of another dict. */
  lemma UpdateDict(d: Dict, e: Dict, j: string)
    requires DistinctKeys(d) && DistinctKeys(e)
    ensures DistinctKeys(Update(d, e))
    ensures Get(Update(d, e), j) == if Get(e, j).Some? then Get(e, j) else Get(d, j)
  {
    UpdateGet(d, e);
    LastGetIsGet(e, j);
  }

  /** `{}.update(parent.tags)` copies the parent's dict entry for entry. */
  lemma {:induction false} UpdateEmpty(e: Dict)
    requires DistinctKeys(e)
    ensures Update([], e) == e
    decreases |e|
  {
    if |e| > 0 {
      var e', x := e[..|e| - 1], e[|e| - 1];
      assert DistinctKeys(e') by {
        assert forall i :: 0 <= i < |e'| ==> e'[i] == e[i];
      }
      UpdateEmpty(e');
      PutNew(e', x.0, x.1);
      assert e == e' + [x];
    }
  }

  lemma {:induction false} PutNew(d: Dict, k: string, v: TagValue)
    requires forall i :: 0 <= i < |d| ==> d[i].0 != k
    ensures Put(d, k, v) == d + [(k, v)]
    decreases |d|
  {
    if |d| > 0 {
      PutNew(d[1..], k, v);
      assert d == [d[0]] + d[1..];
    }
  }

  // ---------------------------------------------------------------------
  // json.dumps(tags, sort_keys=True)

  function HexDigit(d: nat): char
    requires d < 16
  {
    if d < 10 then '0' + d as char else 'a' + (d - 10) as char
  }

  /** `'\\u{0:04x}'.format(n)`. */
  function UnicodeEscape(n: nat): string
    requires n < 0x1_0000
  {
    ['\\', 'u', HexDigit(n / 0x1000), HexDigit(n / 0x100 % 16), HexDigit(n / 16 % 16), HexDigit(n % 16)]
  }

  /** One character of a JSON string with `ensure_ascii`: the short escapes,
      printable ASCII as it is, and anything else as `\uXXXX`, a pair of
      surrogates beyond the Basic Multilingual Plane. */
  function EscapedChar(c: char): string
  {
    var n := c as int;
    if c == '"' then "\\\""
    else if c == '\\' then "\\\\"
    else if c == '\n' then "\\n"
    else if c == '\r' then "\\r"
    else if c == '\t' then "\\t"
    else if n == 8 then "\\b"
    else if n == 12 then "\\f"
    else if ' ' <= c <= '~' then [c]
    else if n < 0x1_0000 then UnicodeEscape(n)
    else
      var m := n - 0x1_0000;
      UnicodeEscape(0xD800 + m / 0x400 % 0x400) + UnicodeEscape(0xDC00 + m % 0x400)
  }

  function Escaped(s: string): string
    decreases |s|
  {
    if |s| == 0 then "" else EscapedChar(s[0]) + Escaped(s[1..])
  }

  function JsonString(s: string): string
  {
    "\"" + Escaped(s) + "\""
  }

  predicate Printable(s: string)
  {
    forall i :: 0 <= i < |s| ==> ' ' <= s[i] <= '~'
  }

  /** With `ensure_ascii` the encoded dict holds printable ASCII alone. */
  lemma {:induction false} JsonStringPrintable(s: string)
    ensures Printable(JsonString(s))
  {
    EscapedPrintable(s);
  }

  lemma {:induction false} EscapedPrintable(s: string)
    ensures Printable(Escaped(s))
    decreases |s|
  {
    if |s| > 0 {
      EscapedPrintable(s[1..]);
      EscapedCharPrintable(s[0]);
      PrintableAppend(EscapedChar(s[0]), Escaped(s[1..]));
    }
  }

  lemma PrintableAppend(a: string, b: string)
    requires Printable(a) && Printable(b)
    ensures Printable(a + b)
  {
    assert forall i :: 0 <= i < |a + b| ==> (a + b)[i] == if i < |a| then a[i] else b[i - |a|];
  }

  lemma EscapedCharPrintable(c: char)
    ensures Printable(EscapedChar(c))
  {
    var n := c as int;
    if !(c == '"' || c == '\\' || c == '\n' || c == '\r' || c == '\t' || n == 8 || n == 12 || ' ' <= c <= '~') {
      if n < 0x1_0000 {
        UnicodeEscapePrintable(n);
      } else {
        var m := n - 0x1_0000;
        UnicodeEscapePrintable(0xD800 + m / 0x400 % 0x400);
        UnicodeEscapePrintable(0xDC00 + m % 0x400);
        PrintableAppend(UnicodeEscape(0xD800 + m / 0x400 % 0x400), UnicodeEscape(0xDC00 + m % 0x400));
      }
    }
  }

  lemma UnicodeEscapePrintable(n: nat)
    requires n < 0x1_0000
    ensures Printable(UnicodeEscape(n))
  {
  }

  function IntToString(i: int): string
  {
    if i < 0 then "-" + NatToString(-i) else NatToString(i)
  }

  function ValueJson(v: TagValue): string
  {
    match v
    case IntTag(i) => IntToString(i)
    case StrTag(s) => JsonString(s)
    case BoolTag(b) => if b then "true" else "false"
    case NullTag => "null"
  }

  /** The members of an object, `"key": value` joined by `", "`. */
  function Members(entries: seq<Entry>): string
    decreases |entries|
  {
    if |entries| == 0 then ""
    else if |entries| == 1 then JsonString(entries[0].0) + ": " + ValueJson(entries[0].1)
    else Members(entries[..|entries| - 1]) + ", " + Members([entries[|entries| - 1]])
  }

  /** `sort_keys=True`: the entries ordered by key as Python compares str. */
  function SortedTags(d: Dict): seq<Entry>
  {
    SortBy(d, EntryKey, StrLe)
  }

  function Dumps(d: Dict): string
  {
    "{" + Members(SortedTags(d)) + "}"
  }

  /** The JSON lists every tag once, in strictly increasing key order. */
  lemma {:induction false} SortedTagsCorrect(d: Dict)
    requires DistinctKeys(d)
    ensures multiset(SortedTags(d)) == multiset(d)
    ensures forall i, j :: 0 <= i < j < |SortedTags(d)| ==>
              StrLe(SortedTags(d)[i].0, SortedTags(d)[j].0) && SortedTags(d)[i].0 != SortedTags(d)[j].0
  {
    StrLeIsTotalOrder();
    SortByCorrect(d, EntryKey, StrLe);
    var s := SortedTags(d);
    forall i, j | 0 <= i < j < |s| ensures s[i].0 != s[j].0 {
      if s[i].0 == s[j].0 {
        var k := s[i].0;
        SortByStable(d, EntryKey, StrLe, k);
        FilterDistinct(d, k);
        FilterTwo(s, i, j, SameKey(EntryKey, k));
      }
    }
  }

  /** Two elements of a sequence that pass the filter make it at least two
      long. */
  lemma {:induction false} FilterTwo<T>(s: seq<T>, i: nat, j: nat, p: T -> bool)
    requires i < j < |s| && p(s[i]) && p(s[j])
    ensures |Filter(s, p)| >= 2
  {
    assert s == s[..j] + s[j..];
    FilterAppend(s[..j], s[j..], p);
    assert s[i] in s[..j];
    FilterMembers(s[..j], p, s[i]);
    assert s[j..] == [s[j]] + s[j + 1..];
    FilterCons(s[j], s[j + 1..], p);
  }

  /** A dict's entries with one key: the entry itself, or none. */
  lemma {:induction false} FilterDistinct(d: Dict, k: string)
    requires DistinctKeys(d)
    ensures Filter(d, SameKey(EntryKey, k)) == if Get(d, k).Some? then [(k, Get(d, k).value)] else []
    decreases |d|
  {
    if |d| > 0 {
      var t := d[1..];
      assert DistinctKeys(t) by {
        assert forall i :: 0 <= i < |t| ==> t[i] == d[i + 1];
      }
      FilterDistinct(t, k);
      assert d == [d[0]] + t;
      FilterCons(d[0], t, SameKey(EntryKey, k));
      SameKeyAt(EntryKey, k, d[0]);
      if d[0].0 == k {
        assert forall i :: 0 <= i < |t| ==> t[i].0 != k by {
          assert forall i :: 0 <= i < |t| ==> t[i] == d[i + 1];
        }
      }
    }
  }

  /** The JSON prefix depends on what the tags are, not on the order they
      were added in. */
  lemma DumpsDependsOnContents(d1: Dict, d2: Dict)
    requires DistinctKeys(d1) && DistinctKeys(d2)
    requires forall k :: Get(d1, k) == Get(d2, k)
    ensures Dumps(d1) == Dumps(d2)
  {
    StrLeIsTotalOrder();
    SortByCorrect(d1, EntryKey, StrLe);
    SortByCorrect(d2, EntryKey, StrLe);
    forall k
      ensures Filter(SortedTags(d1), SameKey(EntryKey, k)) == Filter(SortedTags(d2), SameKey(EntryKey, k))
    {
      SortByStable(d1, EntryKey, StrLe, k);
      SortByStable(d2, EntryKey, StrLe, k);
      FilterDistinct(d1, k);
      FilterDistinct(d2, k);
    }
    SortedByFilters(SortedTags(d1), SortedTags(d2), EntryKey, StrLe);
  }

  /** `"%s - %s" % (json.dumps(tags, sort_keys=True), msg)`. */
  function Message(tags: Dict, msg: string): string
  {
    Dumps(tags) + " - " + msg
  }

  /** An untagged logger writes `"{} - " + msg`. */
  lemma UntaggedMessage(msg: string)
    ensures Message([], msg) == "{} - " + msg
  {
  }

  // ---------------------------------------------------------------------
  // The adapter

  /** The shadowed `tags()` never returns the tags it documents, which
      the accessor does. */
  lemma TagsMethodShadowed(l: TaggedLogger)
    ensures l.CallTagsAsWritten() != Ok(l.CurrentTags())
  {
  }

  /** A plain `logging.Logger`; the adapter never changes it. */
  datatype Logger = Logger(name: string)

  /** What `TaggedLogger(logger)` is given: a plain logger or another
      tagged one. */
  datatype LoggerArg = Plain(logger: Logger) | Tagged(tagged: TaggedLogger)

  /** The logger a `TaggedLogger(parent)` ends up wrapping. */
  function Innermost(parent: LoggerArg): Logger
    reads if parent.Tagged? then {parent.tagged} else {}
  {
    if parent.Tagged? then parent.tagged.logger else parent.logger
  }

  class TaggedLogger {
    var tags: Dict
    var logger: Logger

    ghost predicate Valid()
      reads this
    {
      DistinctKeys(tags)
    }

    /** `__init__`: a copy of the parent's tags, or none, and the innermost
        plain logger. */
    constructor (parent: LoggerArg)
      requires parent.Tagged? ==> parent.tagged.Valid()
      ensures Valid()
      ensures tags == if parent.Tagged? then parent.tagged.tags else []
      ensures logger == Innermost(parent)
    {
      var t: Dict := [];
      if parent.Tagged? {
        t := Update(t, parent.tagged.tags);
        UpdateEmpty(parent.tagged.tags);
      }
      var l := parent;
      while l.Tagged?
        invariant l == parent || l == Plain(Innermost(parent))
        decreases if l.Tagged? then 1 else 0
      {
        l := Plain(l.tagged.logger);
      }
      tags := t;
      logger := l.logger;
    }

    /** `process`: the message with the tags in front; the keyword
        arguments pass through. */
    function Process<K>(msg: string, kwargs: K): (r: (string, K))
      reads this
      ensures r.1 == kwargs
    {
      (Message(tags, msg), kwargs)
    }

    /** `logger.tags()` as the class is written: `__init__` binds the
        instance attribute `tags` to the dict, which hides the method of
        the same name, so the call calls a dict and raises TypeError. */
    function CallTagsAsWritten(): (r: Result<Dict>)
      reads this
      ensures r.Err? && r.error == TypeError
    {
      Err(TypeError)
    }

    /** The accessor the method evidently means: the current tags. */
    function CurrentTags(): (r: Dict)
      reads this
      ensures Valid() ==> DistinctKeys(r)
      ensures forall k :: Get(r, k) == Get(tags, k)
    {
      tags
    }

    /** `add_tags`. */
    method AddTags(newTags: Dict)
      requires Valid()
      modifies this
      ensures Valid()
      ensures tags == Update(old(tags), newTags)
      ensures logger == old(logger)
    {
      tags := Update(tags, newTags);
      UpdateGet(old(tags), newTags);
    }

    /** `tag`: a new logger with this one's tags and the new ones; this
        logger is left as it was. */
    method Tag(newTags: Dict) returns (t: TaggedLogger)
      requires Valid()
      ensures fresh(t) && t.Valid()
      ensures t.tags == Update(tags, newTags)
      ensures t.logger == logger
    {
      t := new TaggedLogger(Tagged(this));
      t.AddTags(newTags);
    }
  }
}
