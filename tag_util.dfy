/** The tag wire codec of src/tagUtil.ts: a list of `name=value` tags is
    validated against the reserved characters, rendered as one tab-separated
    string handed to the engine in a foreign buffer, and parsed back. */
module TagUtil {
  import opened Wrappers

  /** `EncodeTag` of src/types.ts. */
  datatype EncodeTag = EncodeTag(name: string, value: string)

  /** The three validation errors `tagsToBuffer` throws, each carrying the
      offending name or value. */
  datatype TagError =
    | NameContainsEquals(name: string)
    | NameContainsTab(name: string)
    | ValueContainsTab(value: string)

  const TAB: char := '\t'
  const EQUALS: char := '='
  const NUL: char := '\0'

  /** `String.prototype.indexOf` for one character (and C's `strchr`): the
      position of the first occurrence of `c`, or -1 when there is none. */
  function IndexOf(s: string, c: char): (r: int)
    ensures -1 <= r < |s|
    ensures r == -1 <==> c !in s
    ensures r >= 0 ==> s[r] == c && c !in s[..r]
  {
    if s == [] then -1
    else if s[0] == c then 0
    else
      var k := IndexOf(s[1..], c);
      assert s[1..][..if k < 0 then 0 else k] == s[1..if k < 0 then 1 else k + 1];
      if k == -1 then -1 else k + 1
  }

  /** The first occurrence of `c` in `a + [c] + b` is the separator itself when
      `a` holds no `c`. */
  lemma IndexOfAfterPrefix(a: string, c: char, b: string)
    requires c !in a
    ensures IndexOf(a + [c] + b, c) == |a|
  {
    var s := a + [c] + b;
    var k := IndexOf(s, c);
    assert s[|a|] == c;
    assert forall j :: 0 <= j < |a| ==> s[j] == a[j];
  }

  /** A string is its prefix before `k`, the character at `k`, and the rest. */
  lemma SplitAround(s: string, k: nat)
    requires k < |s|
    ensures s == s[..k] + [s[k]] + s[k + 1..]
  {
    assert s[k..] == [s[k]] + s[k + 1..];
    assert s == s[..k] + s[k..];
  }

  /** `Array.prototype.join(sep)` over strings. */
  function Join(parts: seq<string>, sep: char): string {
    if |parts| == 0 then ""
    else if |parts| == 1 then parts[0]
    else parts[0] + [sep] + Join(parts[1..], sep)
  }

  /** `String.prototype.split(sep)` for a one-character separator: the pieces
      between separators, empty ones included, so there is always one piece
      more than there are separators. */
  function Split(s: string, sep: char): (r: seq<string>)
    ensures |r| >= 1
    ensures forall i :: 0 <= i < |r| ==> sep !in r[i]
    ensures Join(r, sep) == s
    decreases |s|
  {
    var k := IndexOf(s, sep);
    if k == -1 then [s]
    else
      var rest := Split(s[k + 1..], sep);
      SplitAround(s, k);
      [s[..k]] + rest
  }

  /** Number of occurrences of `c` in `s`. */
  function Occurrences(s: string, c: char): nat {
    if s == [] then 0 else (if s[0] == c then 1 else 0) + Occurrences(s[1..], c)
  }

  lemma {:induction false} OccurrencesAppend(a: string, b: string, c: char)
    ensures Occurrences(a + b, c) == Occurrences(a, c) + Occurrences(b, c)
  {
    if a != [] {
      assert (a + b)[0] == a[0];
      assert (a + b)[1..] == a[1..] + b;
      assert Occurrences(a + b, c) == (if a[0] == c then 1 else 0) + Occurrences(a[1..] + b, c);
      OccurrencesAppend(a[1..], b, c);
    } else {
      assert a + b == b;
    }
  }

  lemma {:induction false} OccurrencesAbsent(s: string, c: char)
    requires c !in s
    ensures Occurrences(s, c) == 0
  {
    if s != [] {
      OccurrencesAbsent(s[1..], c);
    }
  }

  /** `split` yields exactly one piece more than there are separators. */
  lemma {:induction false} SplitCount(s: string, sep: char)
    ensures |Split(s, sep)| == Occurrences(s, sep) + 1
    decreases |s|
  {
    var k := IndexOf(s, sep);
    if k == -1 {
      OccurrencesAbsent(s, sep);
    } else {
      SplitCount(s[k + 1..], sep);
      SplitAround(s, k);
      OccurrencesAppend(s[..k] + [sep], s[k + 1..], sep);
      OccurrencesAppend(s[..k], [sep], sep);
      OccurrencesAbsent(s[..k], sep);
      assert Occurrences([sep], sep) == 1 by { assert [sep][1..] == []; }
      assert Split(s, sep) == [s[..k]] + Split(s[k + 1..], sep);
    }
  }

  /** `split` undoes `join` when no part holds the separator. */
  lemma {:induction false} SplitJoin(parts: seq<string>, sep: char)
    requires |parts| >= 1
    requires forall i :: 0 <= i < |parts| ==> sep !in parts[i]
    ensures Split(Join(parts, sep), sep) == parts
  {
    if |parts| > 1 {
      var head, tail := parts[0], Join(parts[1..], sep);
      var s := head + [sep] + tail;
      assert Join(parts, sep) == s;
      IndexOfAfterPrefix(head, sep, tail);
      assert s[..|head|] == head;
      assert s[|head| + 1..] == tail;
      assert Split(s, sep) == [head] + Split(tail, sep);
      SplitJoin(parts[1..], sep);
      assert parts == [head] + parts[1..];
    }
  }

  /** What `Module.UTF8ToString` reads back from a foreign buffer holding `s`:
      the characters before the first NUL. (`Module.allocateUTF8` stores the
      string itself.) */
  function CString(s: string): (r: string)
    ensures NUL !in r
    ensures NUL !in s ==> r == s
    ensures NUL in s ==> r + [NUL] <= s
  {
    var k := IndexOf(s, NUL);
    if k == -1 then s else s[..k]
  }

  /** A tag `tagsToBuffer` accepts: no `=` and no tab in the name, no tab in
      the value (an `=` in the value is allowed). */
  predicate ValidTag(t: EncodeTag) {
    EQUALS !in t.name && TAB !in t.name && TAB !in t.value
  }

  /** The checks `tagsToBuffer` runs on one tag, in the order it runs them. */
  function CheckTag(t: EncodeTag): (r: Option<TagError>)
    ensures r == None <==> ValidTag(t)
    ensures EQUALS in t.name ==> r == Some(NameContainsEquals(t.name))
    ensures EQUALS !in t.name && TAB in t.name ==> r == Some(NameContainsTab(t.name))
    ensures EQUALS !in t.name && TAB !in t.name && TAB in t.value ==> r == Some(ValueContainsTab(t.value))
  {
    if IndexOf(t.name, EQUALS) != -1 then Some(NameContainsEquals(t.name))
    else if IndexOf(t.name, TAB) != -1 then Some(NameContainsTab(t.name))
    else if IndexOf(t.value, TAB) != -1 then Some(ValueContainsTab(t.value))
    else None
  }

  /** The `forEach` over the tags: the error of the first tag that fails a
      check, if any. */
  function FirstError(tags: seq<EncodeTag>): (r: Option<TagError>)
    ensures r == None <==> forall i :: 0 <= i < |tags| ==> ValidTag(tags[i])
    ensures r != None ==> exists i :: (0 <= i < |tags| && r == CheckTag(tags[i])
      && forall j :: 0 <= j < i ==> ValidTag(tags[j]))
  {
    if tags == [] then None
    else if CheckTag(tags[0]) != None then CheckTag(tags[0])
    else
      var r := FirstError(tags[1..]);
      assert forall i :: 1 <= i < |tags| ==> tags[i] == tags[1..][i - 1];
      r
  }

  /** `${tag.name}=${tag.value}` */
  function Render(t: EncodeTag): string {
    t.name + [EQUALS] + t.value
  }

  function RenderAll(tags: seq<EncodeTag>): (r: seq<string>)
    ensures |r| == |tags|
    ensures forall i :: 0 <= i < |tags| ==> r[i] == Render(tags[i])
  {
    if tags == [] then [] else [Render(tags[0])] + RenderAll(tags[1..])
  }

  /** `tagsToBuffer`: an empty list gives no buffer at all (`null`); otherwise
      every tag is checked and the first violation is thrown; otherwise the
      buffer holds the rendered tags joined by tabs. */
  function TagsToBuffer(tags: seq<EncodeTag>): (r: Result<Option<string>, TagError>)
    ensures |tags| == 0 ==> r == Success(None)
    ensures |tags| > 0 ==> (r.Failure? <==> exists i :: 0 <= i < |tags| && !ValidTag(tags[i]))
    ensures r.Failure? ==> exists i :: (0 <= i < |tags| && Some(r.error) == CheckTag(tags[i])
      && forall j :: 0 <= j < i ==> ValidTag(tags[j]))
    ensures r.Success? && |tags| > 0 ==> (r.value.Some? &&
      var pieces := Split(r.value.value, TAB);
      |pieces| == |tags| && forall i :: 0 <= i < |tags| ==> pieces[i] == tags[i].name + [EQUALS] + tags[i].value)
  {
    if |tags| == 0 then Success(None)
    else
      match FirstError(tags)
      case Some(e) => Failure(e)
      case None =>
        var rendered := RenderAll(tags);
        assert forall i :: 0 <= i < |rendered| ==> TAB !in rendered[i] by {
          forall i | 0 <= i < |rendered| ensures TAB !in rendered[i] {
            assert ValidTag(tags[i]);
          }
        }
        SplitJoin(rendered, TAB);
        Success(Some(Join(rendered, TAB)))
  }

  /** One segment of the buffer: split at the first `=`; a segment without
      `=` is a tag whose name is the whole segment and whose value is empty. */
  function ParseTag(segment: string): (r: EncodeTag)
    ensures EQUALS !in r.name
    ensures EQUALS in segment ==> Render(r) == segment
    ensures EQUALS !in segment ==> r == EncodeTag(segment, "")
    ensures TAB !in segment ==> TAB !in r.name && TAB !in r.value
  {
    var k := IndexOf(segment, EQUALS);
    if k == -1 then EncodeTag(segment, "")
    else
      SplitAround(segment, k);
      EncodeTag(segment[..k], segment[k + 1..])
  }

  function ParseAll(segments: seq<string>): (r: seq<EncodeTag>)
    ensures |r| == |segments|
    ensures forall i :: 0 <= i < |segments| ==> r[i] == ParseTag(segments[i])
  {
    if segments == [] then [] else [ParseTag(segments[0])] + ParseAll(segments[1..])
  }

  /** `bufferToTags`: no buffer, or a buffer that reads back as the empty
      string, gives no tags; otherwise one tag per tab-separated segment. */
  function BufferToTags(buffer: Option<string>): (r: seq<EncodeTag>)
    ensures buffer.None? ==> r == []
    ensures buffer.Some? && CString(buffer.value) == "" ==> r == []
    ensures buffer.Some? && CString(buffer.value) != "" ==>
      |r| == Occurrences(CString(buffer.value), TAB) + 1
    ensures buffer.Some? && CString(buffer.value) != "" ==>
      |r| == |Split(CString(buffer.value), TAB)| &&
      forall i :: 0 <= i < |r| ==> r[i] == ParseTag(Split(CString(buffer.value), TAB)[i])
    ensures forall i :: 0 <= i < |r| ==> EQUALS !in r[i].name && TAB !in r[i].name && TAB !in r[i].value
  {
    if buffer.None? then []
    else
      var serialized := CString(buffer.value);
      if serialized == "" then []
      else
        SplitCount(serialized, TAB);
        ParseAll(Split(serialized, TAB))
  }

  /** Parsing a rendered valid tag gives the tag back. */
  lemma ParseRender(t: EncodeTag)
    requires ValidTag(t)
    ensures ParseTag(Render(t)) == t
  {
    var s := Render(t);
    IndexOfAfterPrefix(t.name, EQUALS, t.value);
    assert s[..|t.name|] == t.name;
    assert s[|t.name| + 1..] == t.value;
  }

  /** Round trip: every tag list that passes validation, and holds no NUL the
      foreign string conversion would stop at, comes back from the buffer
      unchanged and in order. */
  lemma RoundTrip(tags: seq<EncodeTag>)
    requires forall i :: 0 <= i < |tags| ==> ValidTag(tags[i])
    requires forall i :: 0 <= i < |tags| ==> NUL !in tags[i].name && NUL !in tags[i].value
    ensures TagsToBuffer(tags).Success?
    ensures BufferToTags(TagsToBuffer(tags).value) == tags
  {
    if |tags| > 0 {
      var rendered := RenderAll(tags);
      var s := Join(rendered, TAB);
      assert TagsToBuffer(tags) == Success(Some(s));
      JoinHasNoNul(rendered, TAB);
      assert Render(tags[0]) <= s by { JoinStartsWithFirst(rendered, TAB); }
      assert s != "" by { assert |Render(tags[0])| > 0; }
      assert ParseAll(Split(s, TAB)) == tags by {
        forall i | 0 <= i < |tags| ensures TAB !in rendered[i] { assert ValidTag(tags[i]); }
        SplitJoin(rendered, TAB);
        forall i | 0 <= i < |tags| ensures ParseTag(rendered[i]) == tags[i] { ParseRender(tags[i]); }
      }
    }
  }

  lemma {:induction false} JoinStartsWithFirst(parts: seq<string>, sep: char)
    requires |parts| >= 1
    ensures parts[0] <= Join(parts, sep)
  {
  }

  lemma {:induction false} JoinHasNoNul(parts: seq<string>, sep: char)
    requires sep != NUL
    requires forall i :: 0 <= i < |parts| ==> NUL !in parts[i]
    ensures NUL !in Join(parts, sep)
  {
    if |parts| > 1 {
      JoinHasNoNul(parts[1..], sep);
    }
  }

  /** The buffer written for a tag whose value holds a NUL. */
  lemma NulTagBuffer()
    ensures TagsToBuffer([EncodeTag("a", "b\0c")]) == Success(Some("a=b" + [NUL] + "c"))
  {
    var tags := [EncodeTag("a", "b\0c")];
    assert ValidTag(tags[0]);
    assert Render(tags[0]) == "a=b" + [NUL] + "c";
    assert RenderAll(tags) == ["a=b" + [NUL] + "c"];
  }

  /** Reading that buffer back stops at the NUL. */
  lemma NulBufferReadsBack()
    ensures BufferToTags(Some("a=b" + [NUL] + "c")) == [EncodeTag("a", "b")]
  {
    var s := "a=b" + [NUL] + "c";
    assert CString(s) == "a=b" by {
      IndexOfAfterPrefix("a=b", NUL, "c");
      assert s[..3] == "a=b";
    }
    assert Split("a=b", TAB) == ["a=b"];
    assert ParseTag("a=b") == EncodeTag("a", "b") by {
      IndexOfAfterPrefix("a", EQUALS, "b");
    }
    assert ParseAll(["a=b"]) == [EncodeTag("a", "b")];
  }

  /** A NUL inside a value passes validation, but the buffer reads back only
      up to it, so the round trip loses the rest of the value. */
  lemma NulBreaksRoundTrip()
    ensures var tags := [EncodeTag("a", "b\0c")];
      TagsToBuffer(tags).Success? && BufferToTags(TagsToBuffer(tags).value) == [EncodeTag("a", "b")]
  {
    NulTagBuffer();
    NulBufferReadsBack();
  }
}
