/** The two readers of the tab-separated tag format side by side:
    `bufferToTags` of src/tagUtil.ts (`split('\t')`, then split at the first
    `=`) and `_addTags` of c-source/middle-layer.c (`strtok(…, "\t")`, then
    split at the first `=`). They agree on everything `tagsToBuffer` writes,
    and disagree on segments without `=` and on empty segments. The last
    lemmas connect the buffer `decodeComments` packs with the JavaScript
    reader. */
module TagParsers {
  import opened Wrappers
  import TagUtil
  import MiddleLayer

  /** A tag `tagsToBuffer` accepts and whose name and value hold no NUL. */
  predicate Clean(t: TagUtil.EncodeTag) {
    TagUtil.ValidTag(t) && TagUtil.NUL !in t.name && TagUtil.NUL !in t.value
  }

  /** The token that starts at `i` and is followed by a tab or the end ends
      there. */
  lemma {:induction false} TokenEndAt(s: string, i: nat, w: string)
    requires i + |w| <= |s| && s[i..i + |w|] == w && TagUtil.TAB !in w
    requires i + |w| == |s| || s[i + |w|] == TagUtil.TAB
    ensures MiddleLayer.TokenEnd(s, i) == i + |w|
    decreases |w|
  {
    if w != [] {
      assert s[i] == w[0];
      assert s[i + 1..i + |w|] == w[1..];
      TokenEndAt(s, i + 1, w[1..]);
    }
  }

  /** One `strtok` step over a token `p` that starts at `i` and is
      followed by a tab or the end. */
  lemma TokensStep(s: string, i: nat, p: string)
    requires i + |p| <= |s| && s[i..i + |p|] == p && p != [] && TagUtil.TAB !in p
    requires i + |p| == |s| || s[i + |p|] == TagUtil.TAB
    ensures MiddleLayer.Tokens(s, i) == [p] + MiddleLayer.Tokens(s, if i + |p| < |s| then i + |p| + 1 else i + |p|)
  {
    assert s[i] == p[0];
    TokenEndAt(s, i, p);
  }

  /** `strtok` skips a leading tab. */
  lemma TokensSkipTab(s: string, i: nat)
    requires i < |s| && s[i] == TagUtil.TAB
    ensures MiddleLayer.Tokens(s, i) == MiddleLayer.Tokens(s, i + 1)
  {
    assert MiddleLayer.TokenStart(s, i) == MiddleLayer.TokenStart(s, i + 1);
  }

  /** Where the pieces of `s[i..] == p + [sep] + rest` sit in `s`. */
  lemma SliceAround(s: string, i: nat, p: string, sep: char, rest: string)
    requires i <= |s| && s[i..] == p + [sep] + rest
    ensures i + |p| < |s| && s[i..i + |p|] == p && s[i + |p|] == sep && s[i + |p| + 1..] == rest
  {
    assert s[i..][..|p|] == p;
    assert s[i..][|p| + 1..] == rest;
  }

  /** `strtok` gives back the parts of a tab-join when none of them is empty
      or holds a tab. */
  lemma {:induction false} TokensOfJoin(s: string, i: nat, parts: seq<string>)
    requires i <= |s| && s[i..] == TagUtil.Join(parts, TagUtil.TAB)
    requires forall j :: 0 <= j < |parts| ==> parts[j] != [] && TagUtil.TAB !in parts[j]
    ensures MiddleLayer.Tokens(s, i) == parts
    decreases |parts|
  {
    if parts == [] {
      assert i == |s|;
      assert MiddleLayer.TokenStart(s, i) == |s|;
    } else if |parts| == 1 {
      var p := parts[0];
      assert s[i..i + |p|] == p;
      TokensStep(s, i, p);
      assert MiddleLayer.TokenStart(s, i + |p|) == |s|;
      assert MiddleLayer.Tokens(s, i) == [p];
    } else {
      var p, rest := parts[0], TagUtil.Join(parts[1..], TagUtil.TAB);
      SliceAround(s, i, p, TagUtil.TAB, rest);
      var next := i + |p| + 1;
      assert MiddleLayer.Tokens(s, i) == [p] + MiddleLayer.Tokens(s, next) by {
        assert p != [] && TagUtil.TAB !in p;
        assert i + |p| < |s| && s[i + |p|] == TagUtil.TAB;
        TokensStep(s, i, p);
      }
      TokensOfJoin(s, next, parts[1..]);
      assert parts == [p] + parts[1..];
    }
  }

  /** `_addTags` splitting a rendered valid tag gives the tag back. */
  lemma {:induction false} TagPairsOfRendered(tags: seq<TagUtil.EncodeTag>)
    requires forall i :: 0 <= i < |tags| ==> TagUtil.ValidTag(tags[i])
    ensures MiddleLayer.TagPairs(TagUtil.RenderAll(tags)) == tags
  {
    if tags != [] {
      var t := tags[0];
      var r := TagUtil.RenderAll(tags);
      assert TagUtil.ValidTag(t);
      assert r[0] == TagUtil.Render(t);
      TagUtil.IndexOfAfterPrefix(t.name, TagUtil.EQUALS, t.value);
      assert r[0][..|t.name|] == t.name;
      assert r[0][|t.name| + 1..] == t.value;
      assert r[1..] == TagUtil.RenderAll(tags[1..]);
      TagPairsOfRendered(tags[1..]);
      assert tags == [t] + tags[1..];
    }
  }

  /** What `tagsToBuffer` writes for clean tags, `_addTags` reads back
      unchanged and in order: no buffer for no tags, and the tags themselves
      otherwise. (A NUL cuts the C reader short: see `NulCutsBothReaders`.) */
  lemma CReadsWhatJavaScriptWrites(tags: seq<TagUtil.EncodeTag>)
    requires forall i :: 0 <= i < |tags| ==> Clean(tags[i])
    ensures TagUtil.TagsToBuffer(tags).Success?
    ensures tags == [] <==> TagUtil.TagsToBuffer(tags).value.None?
    ensures TagUtil.TagsToBuffer(tags).value.Some? ==> MiddleLayer.ParseTagsC(TagUtil.TagsToBuffer(tags).value.value) == tags
  {
    if tags != [] {
      var rendered := TagUtil.RenderAll(tags);
      var s := TagUtil.Join(rendered, TagUtil.TAB);
      assert TagUtil.TagsToBuffer(tags) == Success(Some(s));
      forall j | 0 <= j < |rendered|
        ensures rendered[j] != [] && TagUtil.TAB !in rendered[j] && TagUtil.NUL !in rendered[j]
      {
        assert Clean(tags[j]);
        RenderedTag(tags[j]);
      }
      TagUtil.JoinHasNoNul(rendered, TagUtil.TAB);
      assert TagUtil.CString(s) == s;
      assert s[0..] == s;
      TokensOfJoin(s, 0, rendered);
      TagPairsOfRendered(tags);
    }
  }

  /** `_addTags` on a buffer holding `a=b`, a NUL and `c` reads `a=b` only. */
  lemma CStopsAtNul()
    ensures MiddleLayer.ParseTagsC("a=b" + [TagUtil.NUL] + "c") == [TagUtil.EncodeTag("a", "b")]
  {
    var s := "a=b" + [TagUtil.NUL] + "c";
    assert TagUtil.CString(s) == "a=b" by {
      TagUtil.IndexOfAfterPrefix("a=b", TagUtil.NUL, "c");
      assert s[..3] == "a=b";
    }
    assert MiddleLayer.Tokens("a=b", 0) == ["a=b"] by {
      assert TagUtil.TAB !in "a=b";
      MiddleLayer.TokensOfOneSegment("a=b");
    }
    assert MiddleLayer.TagPairs(["a=b"]) == [TagUtil.EncodeTag("a", "b")] by {
      TagUtil.IndexOfAfterPrefix("a", TagUtil.EQUALS, "b");
      assert "a=b"[..1] == "a" && "a=b"[2..] == "b";
    }
  }

  /** A valid tag whose value holds a NUL: both readers of the buffer
      `tagsToBuffer` writes stop at the NUL, so both read `a=b`. */
  lemma NulCutsBothReaders()
    ensures var s := "a=b" + [TagUtil.NUL] + "c";
      && TagUtil.TagsToBuffer([TagUtil.EncodeTag("a", "b\0c")]) == Success(Some(s))
      && MiddleLayer.ParseTagsC(s) == [TagUtil.EncodeTag("a", "b")]
      && TagUtil.BufferToTags(Some(s)) == [TagUtil.EncodeTag("a", "b")]
  {
    TagUtil.NulTagBuffer();
    TagUtil.NulBufferReadsBack();
    CStopsAtNul();
  }

  /** A segment with no `=`: `bufferToTags` keeps it as a name with an empty
      value, `_addTags` drops it. */
  lemma SegmentWithoutEqualsDiverges(segment: string)
    requires segment != [] && TagUtil.EQUALS !in segment && TagUtil.TAB !in segment && TagUtil.NUL !in segment
    ensures TagUtil.BufferToTags(Some(segment)) == [TagUtil.EncodeTag(segment, "")]
    ensures MiddleLayer.ParseTagsC(segment) == []
  {
    assert TagUtil.Split(segment, TagUtil.TAB) == [segment];
    MiddleLayer.TokensOfOneSegment(segment);
  }

  /** A rendered valid tag is not empty and holds no tab; it holds a NUL
      only if its name or value does. */
  lemma RenderedTag(t: TagUtil.EncodeTag)
    requires TagUtil.ValidTag(t)
    ensures var r := TagUtil.Render(t);
      && r != [] && r[|t.name|] == TagUtil.EQUALS && TagUtil.TAB !in r
      && (TagUtil.NUL !in t.name && TagUtil.NUL !in t.value ==> TagUtil.NUL !in r)
  {
    var r := TagUtil.Render(t);
    assert forall k :: 0 <= k < |r| ==> r[k] == if k < |t.name| then t.name[k] else if k == |t.name| then TagUtil.EQUALS else t.value[k - |t.name| - 1];
  }

  /** `bufferToTags` on `a`, an empty segment and `b`. */
  lemma JavaScriptKeepsEmptySegment(a: TagUtil.EncodeTag, b: TagUtil.EncodeTag)
    requires TagUtil.ValidTag(a) && TagUtil.ValidTag(b)
    requires TagUtil.NUL !in TagUtil.Render(a) && TagUtil.NUL !in TagUtil.Render(b)
    ensures var s := TagUtil.Render(a) + [TagUtil.TAB, TagUtil.TAB] + TagUtil.Render(b);
      TagUtil.BufferToTags(Some(s)) == [a, TagUtil.EncodeTag("", ""), b]
  {
    var ra, rb := TagUtil.Render(a), TagUtil.Render(b);
    var s := ra + [TagUtil.TAB, TagUtil.TAB] + rb;
    var pieces := [ra, "", rb];
    RenderedTag(a);
    RenderedTag(b);
    assert pieces[1..] == ["", rb] && pieces[1..][1..] == [rb];
    assert TagUtil.Join(["", rb], TagUtil.TAB) == [TagUtil.TAB] + rb;
    assert TagUtil.Join(pieces, TagUtil.TAB) == ra + [TagUtil.TAB] + ([TagUtil.TAB] + rb);
    assert TagUtil.Join(pieces, TagUtil.TAB) == s;
    assert TagUtil.NUL !in s;
    TagUtil.SplitJoin(pieces, TagUtil.TAB);
    TagUtil.ParseRender(a);
    TagUtil.ParseRender(b);
    assert TagUtil.ParseAll(pieces) == [a, TagUtil.EncodeTag("", ""), b];
  }

  /** `strtok` on two tokens with an empty segment between them. */
  lemma TokensAroundEmptySegment(x: string, y: string)
    requires x != [] && y != [] && TagUtil.TAB !in x && TagUtil.TAB !in y
    ensures MiddleLayer.Tokens(x + [TagUtil.TAB, TagUtil.TAB] + y, 0) == [x, y]
  {
    var s := x + [TagUtil.TAB, TagUtil.TAB] + y;
    assert |s| == |x| + 2 + |y| && s[|x|] == TagUtil.TAB && s[|x| + 1] == TagUtil.TAB;
    assert MiddleLayer.Tokens(s, 0) == [x] + MiddleLayer.Tokens(s, |x| + 1) by {
      assert s[0..|x|] == x;
      TokensStep(s, 0, x);
    }
    assert MiddleLayer.Tokens(s, |x| + 1) == MiddleLayer.Tokens(s, |x| + 2) by {
      TokensSkipTab(s, |x| + 1);
    }
    assert MiddleLayer.Tokens(s, |x| + 2) == [y] by {
      assert s[|x| + 2..|x| + 2 + |y|] == y;
      TokensStep(s, |x| + 2, y);
      assert MiddleLayer.TokenStart(s, |s|) == |s|;
    }
  }

  /** `_addTags` on `a`, an empty segment and `b`. */
  lemma CSkipsEmptySegment(a: TagUtil.EncodeTag, b: TagUtil.EncodeTag)
    requires TagUtil.ValidTag(a) && TagUtil.ValidTag(b)
    requires TagUtil.NUL !in TagUtil.Render(a) && TagUtil.NUL !in TagUtil.Render(b)
    ensures var s := TagUtil.Render(a) + [TagUtil.TAB, TagUtil.TAB] + TagUtil.Render(b);
      MiddleLayer.ParseTagsC(s) == [a, b]
  {
    RenderedTag(a);
    RenderedTag(b);
    var s := TagUtil.Render(a) + [TagUtil.TAB, TagUtil.TAB] + TagUtil.Render(b);
    assert TagUtil.NUL !in s;
    TokensAroundEmptySegment(TagUtil.Render(a), TagUtil.Render(b));
    assert TagUtil.RenderAll([a, b]) == [TagUtil.Render(a), TagUtil.Render(b)];
    TagPairsOfRendered([a, b]);
  }

  /** Two tags with an empty segment between them: `bufferToTags` reads a
      third, empty tag in the middle, `_addTags` reads just the two. */
  lemma EmptySegmentDiverges(a: TagUtil.EncodeTag, b: TagUtil.EncodeTag)
    requires TagUtil.ValidTag(a) && TagUtil.ValidTag(b)
    requires TagUtil.NUL !in TagUtil.Render(a) && TagUtil.NUL !in TagUtil.Render(b)
    ensures var s := TagUtil.Render(a) + [TagUtil.TAB, TagUtil.TAB] + TagUtil.Render(b);
      && TagUtil.BufferToTags(Some(s)) == [a, TagUtil.EncodeTag("", ""), b]
      && MiddleLayer.ParseTagsC(s) == [a, b]
  {
    JavaScriptKeepsEmptySegment(a, b);
    CSkipsEmptySegment(a, b);
  }

  /** The buffer `decodeComments` hands back, once terminated, reads back in
      JavaScript as one tag per comment, each split at its first `=`, when no
      comment holds a tab or a NUL. */
  lemma PackedCommentsReadBack(comments: seq<string>)
    requires comments != []
    requires forall i :: 0 <= i < |comments| ==> TagUtil.TAB !in comments[i] && TagUtil.NUL !in comments[i]
    ensures var joined := TagUtil.Join(comments, TagUtil.TAB);
      TagUtil.BufferToTags(Some(joined + [TagUtil.NUL])) == if joined == "" then [] else TagUtil.ParseAll(comments)
  {
    var joined := TagUtil.Join(comments, TagUtil.TAB);
    TagUtil.JoinHasNoNul(comments, TagUtil.TAB);
    TagUtil.IndexOfAfterPrefix(joined, TagUtil.NUL, []);
    assert (joined + [TagUtil.NUL] + [])[..|joined|] == joined;
    assert TagUtil.CString(joined + [TagUtil.NUL]) == joined;
    TagUtil.SplitJoin(comments, TagUtil.TAB);
  }

  /** Clean tags, rendered, tab-joined and NUL-terminated, read back in
      JavaScript as themselves. */
  lemma TerminatedTagsReadBack(tags: seq<TagUtil.EncodeTag>)
    requires tags != []
    requires forall i :: 0 <= i < |tags| ==> Clean(tags[i])
    ensures TagUtil.BufferToTags(Some(TagUtil.Join(TagUtil.RenderAll(tags), TagUtil.TAB) + [TagUtil.NUL])) == tags
  {
    var comments := TagUtil.RenderAll(tags);
    forall i | 0 <= i < |tags|
      ensures TagUtil.TAB !in comments[i] && TagUtil.NUL !in comments[i]
      ensures TagUtil.ParseTag(comments[i]) == tags[i]
    {
      assert Clean(tags[i]);
      RenderedTag(tags[i]);
      TagUtil.ParseRender(tags[i]);
    }
    assert TagUtil.ParseAll(comments) == tags;
    var joined := TagUtil.Join(comments, TagUtil.TAB);
    assert joined != "" by {
      RenderedTag(tags[0]);
      TagUtil.JoinStartsWithFirst(comments, TagUtil.TAB);
    }
    PackedCommentsReadBack(comments);
  }

  /** The `ENCODER` tag is clean, so putting it in front of clean tags keeps
      them clean. */
  lemma EncoderTagFirstIsClean(tags: seq<TagUtil.EncodeTag>)
    requires forall i :: 0 <= i < |tags| ==> Clean(tags[i])
    ensures forall i :: 0 <= i < |tags| + 1 ==> Clean(([MiddleLayer.ENCODER_TAG] + tags)[i])
  {
    assert Clean(MiddleLayer.ENCODER_TAG);
    forall i | 1 <= i < |tags| + 1
      ensures Clean(([MiddleLayer.ENCODER_TAG] + tags)[i])
    {
      assert ([MiddleLayer.ENCODER_TAG] + tags)[i] == tags[i - 1];
    }
  }

  /** From `initEncoder` to `bufferToTags`: the comment list written at
      encode time, packed as `decodeComments` packs it, reads back in
      JavaScript as the `ENCODER` tag followed by the caller's tags. */
  lemma EncoderCommentsReadBack(tags: seq<TagUtil.EncodeTag>)
    requires forall i :: 0 <= i < |tags| ==> Clean(tags[i])
    ensures var comments := TagUtil.RenderAll([MiddleLayer.ENCODER_TAG] + tags);
      TagUtil.BufferToTags(Some(TagUtil.Join(comments, TagUtil.TAB) + [TagUtil.NUL])) == [MiddleLayer.ENCODER_TAG] + tags
  {
    EncoderTagFirstIsClean(tags);
    TerminatedTagsReadBack([MiddleLayer.ENCODER_TAG] + tags);
  }
}
