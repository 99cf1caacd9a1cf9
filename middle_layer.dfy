/** The encode side of c-source/middle-layer.c: the `EncoderState` output
    buffer that grows page by page and is handed over to the caller, the
    tab-separated tag parser `_addTags` built on `strtok`, and the comment
    list and header pages `initEncoder` sets up.

    libogg and libvorbis are not modelled: the pages they hand out are
    parameters, and `vorbis_comment_add_tag` is the one libvorbis call whose
    effect (appending `tag=value` to the comment list) the model spells out. */
module MiddleLayer {
  import opened Wrappers
  import opened Memory
  import TagUtil

  /** An `ogg_page`: the header and body bytes libogg hands out. */
  datatype Page = Page(header: seq<byte>, body: seq<byte>)

  /** The bytes of `pages`, each header followed by its body, in order. */
  function PageBytes(pages: seq<Page>): (r: seq<byte>)
    ensures pages == [] ==> r == []
  {
    if pages == [] then [] else PageBytes(pages[..|pages| - 1]) + pages[|pages| - 1].header + pages[|pages| - 1].body
  }

  /** The tag every encoded file's comment list starts with. */
  const ENCODER_TAG: TagUtil.EncodeTag := TagUtil.EncodeTag("ENCODER", "sl-web-ogg")

  /** Whether `realloc` leaves a block that is already large enough where it
      is (as it may for a block that shrinks or keeps its size) or moves it.
      The allocator's choice is an input: `stays(k)` for its `k`-th call.
      A block that grows always moves here. */
  type Allocator = nat -> bool

  /** Whether `realloc(p, len)` returns `p` itself. */
  predicate InPlace(p: array?<byte>, len: nat, stays: bool)
  {
    p != null && stays && len <= p.Length
  }

  /** `realloc`: a block of at least `len` bytes whose first bytes are those
      of `p`, as many as both hold. Either `p` itself, unchanged, or a new
      block of exactly `len` bytes. */
  method Realloc(p: array?<byte>, len: nat, stays: bool) returns (q: array<byte>)
    ensures len <= q.Length
    ensures InPlace(p, len, stays) ==> q == p
    ensures !InPlace(p, len, stays) ==> fresh(q) && q.Length == len
    ensures p != null ==> forall i :: 0 <= i < len && i < p.Length ==> q[i] == p[i]
  {
    if InPlace(p, len, stays) {
      return p;
    }
    q := new byte[len](_ => 0);
    if p != null {
      var i := 0;
      while i < len && i < p.Length
        invariant 0 <= i <= len
        invariant forall k :: 0 <= k < i && k < p.Length ==> q[k] == p[k]
      {
        q[i] := p[i];
        i := i + 1;
      }
    }
  }

  /** The two `memcpy` calls of `_addEncoderData`: the header at `at`,
      then the body right after it. */
  method WritePage(dst: array<byte>, at: nat, page: Page)
    requires at + |page.header| + |page.body| <= dst.Length
    modifies dst
    ensures dst[..] == WriteAt(old(dst[..]), at, page.header + page.body)
  {
    Blit(dst, at, page.header);
    Blit(dst, at + |page.header|, page.body);
    assert forall k :: 0 <= k < dst.Length ==> dst[k] == WriteAt(old(dst[..]), at, page.header + page.body)[k];
  }

  // ---------------------------------------------------------------------
  // The tokens `strtok(s, "\t")` returns (c-source/middle-layer.c:67-75)
  // ---------------------------------------------------------------------

  /** The first position at or after `i` that is not a tab. */
  function TokenStart(s: string, i: nat): (r: nat)
    requires i <= |s|
    ensures i <= r <= |s|
    ensures r < |s| ==> s[r] != TagUtil.TAB
    ensures forall k :: i <= k < r ==> s[k] == TagUtil.TAB
    decreases |s| - i
  {
    if i == |s| || s[i] != TagUtil.TAB then i else TokenStart(s, i + 1)
  }

  /** The first tab at or after `i`, or the end. */
  function TokenEnd(s: string, i: nat): (r: nat)
    requires i <= |s|
    ensures i <= r <= |s|
    ensures r < |s| ==> s[r] == TagUtil.TAB
    decreases |s| - i
  {
    if i == |s| || s[i] == TagUtil.TAB then i else TokenEnd(s, i + 1)
  }

  /** The tokens successive `strtok` calls return from position `i` on: the
      maximal runs of non-tab characters, never an empty one. */
  function Tokens(s: string, i: nat): (r: seq<string>)
    requires i <= |s|
    decreases |s| - i
  {
    var start := TokenStart(s, i);
    if start == |s| then []
    else
      var end := TokenEnd(s, start);
      [s[start..end]] + Tokens(s, if end < |s| then end + 1 else end)
  }

  /** No tab lies between a position and the token end found from it. */
  lemma {:induction false} TokenEndHasNoTab(s: string, i: nat, k: nat)
    requires i <= |s| && i <= k < TokenEnd(s, i)
    ensures s[k] != TagUtil.TAB
    decreases |s| - i
  {
    if k > i {
      TokenEndHasNoTab(s, i + 1, k);
    }
  }

  /** `strtok` never returns an empty token, and no token holds a tab. */
  lemma {:induction false} TokensAreNonEmptyWithoutTabs(s: string, i: nat)
    requires i <= |s|
    ensures forall j :: 0 <= j < |Tokens(s, i)| ==> Tokens(s, i)[j] != [] && TagUtil.TAB !in Tokens(s, i)[j]
    decreases |s| - i
  {
    var start := TokenStart(s, i);
    if start < |s| {
      var end := TokenEnd(s, start);
      var next := if end < |s| then end + 1 else end;
      TokensAreNonEmptyWithoutTabs(s, next);
      var token := s[start..end];
      forall k | 0 <= k < |token|
        ensures token[k] != TagUtil.TAB
      {
        TokenEndHasNoTab(s, start, start + k);
      }
      assert Tokens(s, i) == [token] + Tokens(s, next);
    }
  }

  /** One `strtok(…, "\t")` call continuing at `save`: skips tabs, returns the
      token up to the next tab or the end, and continues after that tab.
      `strtok` writes a NUL over that tab in its private copy; here the copy
      is left as it is and the token is returned as a string. */
  method Strtok(s: string, save: nat) returns (token: Option<string>, next: nat)
    requires save <= |s|
    ensures save <= next <= |s|
    ensures token.Some? ==> save < next
    ensures Tokens(s, save) == if token.None? then [] else [token.value] + Tokens(s, next)
  {
    var start := save;
    while start < |s| && s[start] == TagUtil.TAB
      invariant save <= start <= |s|
      invariant TokenStart(s, start) == TokenStart(s, save)
    {
      start := start + 1;
    }
    if start == |s| {
      return None, start;
    }
    var end := start;
    while end < |s| && s[end] != TagUtil.TAB
      invariant start <= end <= |s|
      invariant TokenEnd(s, end) == TokenEnd(s, start)
    {
      end := end + 1;
    }
    token := Some(s[start..end]);
    next := if end < |s| then end + 1 else end;
  }

  /** The tags `_addTags` adds from `tokens`: each token holding `=` is split
      at its first `=`; a token without `=` is dropped. */
  function TagPairs(tokens: seq<string>): (r: seq<TagUtil.EncodeTag>)
    ensures |r| <= |tokens|
    ensures forall j :: 0 <= j < |r| ==> TagUtil.EQUALS !in r[j].name
  {
    if tokens == [] then []
    else
      var k := TagUtil.IndexOf(tokens[0], TagUtil.EQUALS);
      (if k == -1 then [] else [TagUtil.EncodeTag(tokens[0][..k], tokens[0][k + 1..])]) + TagPairs(tokens[1..])
  }

  /** The tags the C side reads from a tab-separated string held in a foreign
      buffer: `strlen` and `strcpy` stop at the first NUL, so only the
      characters before it are split into tokens. */
  function ParseTagsC(s: string): seq<TagUtil.EncodeTag> {
    TagPairs(Tokens(TagUtil.CString(s), 0))
  }

  /** Each comment `_addTags` adds is the token it came from: splitting at
      the first `=` and joining with `=` again gives the token back. So the
      comments added are exactly the tokens holding `=`, in order. */
  lemma {:induction false} TagPairsRenderTokens(tokens: seq<string>)
    ensures TagUtil.RenderAll(TagPairs(tokens)) == WithEquals(tokens)
  {
    if tokens != [] {
      TagPairsRenderTokens(tokens[1..]);
      var t := tokens[0];
      var k := TagUtil.IndexOf(t, TagUtil.EQUALS);
      var head := if k == -1 then [] else [TagUtil.EncodeTag(t[..k], t[k + 1..])];
      assert TagPairs(tokens) == head + TagPairs(tokens[1..]);
      RenderAllAppend(head, TagPairs(tokens[1..]));
      if k != -1 {
        TagUtil.SplitAround(t, k);
      }
    }
  }

  /** The tokens that hold `=`. */
  function WithEquals(tokens: seq<string>): seq<string> {
    if tokens == [] then []
    else (if TagUtil.EQUALS in tokens[0] then [tokens[0]] else []) + WithEquals(tokens[1..])
  }

  /** Splitting at the first `=` and joining with `=` gives the string back. */
  lemma JoinAtFirstEquals(t: string)
    requires TagUtil.EQUALS in t
    ensures var k := TagUtil.IndexOf(t, TagUtil.EQUALS); t[..k] + [TagUtil.EQUALS] + t[k + 1..] == t
  {
    var k := TagUtil.IndexOf(t, TagUtil.EQUALS);
    TagUtil.SplitAround(t, k);
  }

  lemma WithEqualsCons(t: string, rest: seq<string>)
    ensures WithEquals([t] + rest) == (if TagUtil.EQUALS in t then [t] else []) + WithEquals(rest)
  {
    assert ([t] + rest)[1..] == rest;
  }

  lemma {:induction false} RenderAllAppend(a: seq<TagUtil.EncodeTag>, b: seq<TagUtil.EncodeTag>)
    ensures TagUtil.RenderAll(a + b) == TagUtil.RenderAll(a) + TagUtil.RenderAll(b)
  {
    assert forall i :: 0 <= i < |a + b| ==> TagUtil.RenderAll(a + b)[i] == (TagUtil.RenderAll(a) + TagUtil.RenderAll(b))[i];
  }

  /** Tokens of a string with no tab in it: none when it is empty, else the
      string itself. */
  lemma TokensOfOneSegment(s: string)
    requires TagUtil.TAB !in s
    ensures Tokens(s, 0) == if s == [] then [] else [s]
  {
    if s != [] {
      assert forall k :: 0 <= k < |s| ==> s[k] != TagUtil.TAB;
      assert TokenEnd(s, 0) == |s|;
      assert s[0..|s|] == s;
    }
  }

  // ---------------------------------------------------------------------
  // `EncoderState` (c-source/middle-layer.c:40-50)
  // ---------------------------------------------------------------------

  /** The parts of `EncoderState` the middle layer itself manages: the
      comment list (`comment.user_comments`) and the encoded-data buffer
      with its length. The libogg and libvorbis structures are not modelled. */
  class EncoderState {
    var userComments: seq<string>
    var pEncodedData: array?<byte>
    var encodedDataLen: nat

    /** The length never exceeds the buffer, and there is nothing to count
        before a buffer exists. */
    predicate Valid()
      reads this
    {
      if pEncodedData == null then encodedDataLen == 0 else encodedDataLen <= pEncodedData.Length
    }

    /** The encoded bytes not yet transferred. */
    function EncodedData(): seq<byte>
      reads this, pEncodedData
      requires Valid()
    {
      if pEncodedData == null then [] else pEncodedData[..encodedDataLen]
    }

    /** The state `initEncoder` sets up before adding any comment or page:
        `vorbis_comment_init` empties the list, and the buffer is `NULL` with
        length 0. */
    constructor ()
      ensures Valid() && userComments == [] && pEncodedData == null && encodedDataLen == 0
    {
      userComments, pEncodedData, encodedDataLen := [], null, 0;
    }

    /** `vorbis_comment_add_tag`: appends `tag=value`. */
    method CommentAddTag(tag: string, value: string)
      modifies this
      ensures userComments == old(userComments) + [tag + [TagUtil.EQUALS] + value]
      ensures pEncodedData == old(pEncodedData) && encodedDataLen == old(encodedDataLen)
    {
      userComments := userComments + [tag + [TagUtil.EQUALS] + value];
    }

    /** `_addEncoderData`: appends a page's header and then its body to
        the encoded data, growing the buffer with `realloc`. A page with no
        bytes, when no bytes are pending either, changes nothing. When
        `realloc` keeps the block in place, the page is written into the
        block itself, over whatever it held from position `encodedDataLen`
        on; otherwise the old block is left as it was. */
    method AddEncoderData(page: Page, stays: bool)
      requires Valid()
      modifies this, pEncodedData
      ensures Valid() && userComments == old(userComments)
      ensures encodedDataLen == old(encodedDataLen) + |page.header| + |page.body|
      ensures EncodedData() == old(EncodedData()) + page.header + page.body
      ensures var len := encodedDataLen;
        if len == 0 then pEncodedData == old(pEncodedData)
        else if InPlace(old(pEncodedData), len, stays) then
          pEncodedData == old(pEncodedData)
          && pEncodedData[..] == WriteAt(old(pEncodedData[..]), old(encodedDataLen), page.header + page.body)
        else fresh(pEncodedData)
      ensures old(pEncodedData) != null && !InPlace(old(pEncodedData), old(encodedDataLen) + |page.header| + |page.body|, stays) ==>
        old(pEncodedData)[..] == old(pEncodedData[..])
    {
      var len := encodedDataLen + |page.header| + |page.body|;
      if len == 0 {
        return;
      }
      ghost var before := EncodedData();
      pEncodedData := Realloc(pEncodedData, len, stays);
      assert pEncodedData[..encodedDataLen] == before;
      WritePage(pEncodedData, encodedDataLen, page);
      encodedDataLen := encodedDataLen + |page.header| + |page.body|;
      assert pEncodedData[..encodedDataLen] == before + page.header + page.body;
    }

    /** The loops that call `_addEncoderData` once per page libogg hands out
        (`ogg_stream_flush` in `initEncoder`, `ogg_stream_pageout` in
        `processEncoding`): the pages are appended in order. `stays(i)` is
        what `realloc` does on page `i`. */
    method AddPages(pages: seq<Page>, stays: Allocator)
      requires Valid()
      modifies this, pEncodedData
      ensures Valid() && userComments == old(userComments)
      ensures EncodedData() == old(EncodedData()) + PageBytes(pages)
    {
      ghost var base := EncodedData();
      var i := 0;
      while i < |pages|
        invariant 0 <= i <= |pages|
        invariant Valid() && userComments == old(userComments)
        invariant pEncodedData == old(pEncodedData) || (pEncodedData != null && fresh(pEncodedData))
        invariant EncodedData() == base + PageBytes(pages[..i])
      {
        ghost var done := PageBytes(pages[..i]);
        AddEncoderData(pages[i], stays(i));
        assert PageBytes(pages[..i + 1]) == (done + pages[i].header) + pages[i].body by {
          assert pages[..i + 1][..i] == pages[..i];
        }
        AppendAssoc(base, done, pages[i].header);
        AppendAssoc(base, done + pages[i].header, pages[i].body);
        i := i + 1;
      }
      assert pages[..i] == pages;
    }

    /** `getEncodedDataLen` */
    method GetEncodedDataLen() returns (len: nat)
      requires Valid()
      ensures len == encodedDataLen == |EncodedData()|
    {
      return encodedDataLen;
    }

    /** `transferEncodedData`: hands over the buffer and forgets its
        contents, so the next page is written from offset 0. */
    method TransferEncodedData() returns (p: array?<byte>)
      requires Valid()
      modifies this
      ensures p == pEncodedData == old(pEncodedData) && encodedDataLen == 0
      ensures Valid() && EncodedData() == [] && userComments == old(userComments)
      ensures p != null ==> p[..old(encodedDataLen)] == old(EncodedData())
    {
      encodedDataLen := 0;
      return pEncodedData;
    }

    /** `transferEncodedData` followed by `_addEncoderData` of a page that
        fits in the block, where `realloc` keeps the block in place: the
        block handed out is the one written next, so the bytes it held are
        overwritten from position 0 on by the new page. */
    method ReuseAfterTransfer(page: Page) returns (handed: array?<byte>)
      requires Valid() && pEncodedData != null
      requires 0 < |page.header| + |page.body| <= pEncodedData.Length
      modifies this, pEncodedData
      ensures handed != null && handed == pEncodedData == old(pEncodedData)
      ensures handed[..|page.header| + |page.body|] == page.header + page.body
    {
      handed := TransferEncodedData();
      AddEncoderData(page, true);
    }

    /** `_addTags`: no tag string adds nothing; otherwise one comment per
        tab-separated token holding `=`, split at its first `=`, in order.
        Empty tokens and tokens without `=` add nothing, and nothing after a
        NUL is read. */
    method AddTags(tags: Option<string>)
      modifies this
      ensures tags.None? ==> userComments == old(userComments)
      ensures tags.Some? ==> userComments == old(userComments) + TagUtil.RenderAll(ParseTagsC(tags.value))
      ensures pEncodedData == old(pEncodedData) && encodedDataLen == old(encodedDataLen)
    {
      if tags.None? {
        return;
      }
      // `malloc(strlen(tags) + 1)` and `strcpy`: the copy ends at the first NUL.
      var tagsCopy := TagUtil.CString(tags.value);
      AddTokens(tagsCopy);
      AddedCommentsAreTokens(tags.value);
    }

    /** The `strtok` loop of `_addTags` over the copy: each token holding `=`
        is added, split at its first `=`, in order. */
    method AddTokens(tagsCopy: string)
      modifies this
      ensures userComments == old(userComments) + WithEquals(Tokens(tagsCopy, 0))
      ensures pEncodedData == old(pEncodedData) && encodedDataLen == old(encodedDataLen)
    {
      var tag, save := Strtok(tagsCopy, 0);
      ghost var pending := if tag.None? then [] else [tag.value] + Tokens(tagsCopy, save);
      while tag.Some?
        invariant save <= |tagsCopy|
        invariant pending == if tag.None? then [] else [tag.value] + Tokens(tagsCopy, save)
        invariant old(userComments) + WithEquals(Tokens(tagsCopy, 0)) == userComments + WithEquals(pending)
        invariant pEncodedData == old(pEncodedData) && encodedDataLen == old(encodedDataLen)
        decreases |tagsCopy| - save + (if tag.Some? then 1 else 0)
      {
        var t := tag.value;
        var value := TagUtil.IndexOf(t, TagUtil.EQUALS);
        ghost var rest := Tokens(tagsCopy, save);
        ghost var added := if TagUtil.EQUALS in t then [t] else [];
        ghost var before := userComments;
        WithEqualsCons(t, rest);
        assert WithEquals(pending) == added + WithEquals(rest);
        if value != -1 {
          JoinAtFirstEquals(t);
          CommentAddTag(t[..value], t[value + 1..]);
        }
        assert userComments == before + added;
        tag, save := Strtok(tagsCopy, save);
        pending := if tag.None? then [] else [tag.value] + Tokens(tagsCopy, save);
        assert pending == rest;
        AppendAssoc(before, added, WithEquals(rest));
      }
    }
  }

  /** `initEncoder`: the comment list is `ENCODER=sl-web-ogg` followed by the
      tags parsed from `tags`, and the encoded data, empty before the header
      pages, is exactly those pages. `headerPages` are the pages
      `ogg_stream_flush` hands out for the three header packets. */
  method InitEncoder(channelCount: int, sampleRate: real, quality: real, tags: Option<string>, headerPages: seq<Page>,
                     stays: Allocator)
      returns (pEnc: EncoderState)
    ensures fresh(pEnc) && pEnc.Valid()
    ensures pEnc.userComments == TagUtil.RenderAll([ENCODER_TAG] + (if tags.None? then [] else ParseTagsC(tags.value)))
    ensures pEnc.EncodedData() == PageBytes(headerPages)
  {
    pEnc := new EncoderState();
    pEnc.CommentAddTag(ENCODER_TAG.name, ENCODER_TAG.value);
    assert pEnc.userComments == TagUtil.RenderAll([ENCODER_TAG]);
    pEnc.AddTags(tags);
    ghost var parsed := if tags.None? then [] else ParseTagsC(tags.value);
    assert pEnc.userComments == TagUtil.RenderAll([ENCODER_TAG]) + TagUtil.RenderAll(parsed);
    RenderAllAppend([ENCODER_TAG], parsed);
    ghost var comments := pEnc.userComments;
    pEnc.pEncodedData := null;
    pEnc.encodedDataLen := 0;
    assert pEnc.Valid() && pEnc.EncodedData() == [];
    pEnc.AddPages(headerPages, stays);
    assert pEnc.userComments == comments;
  }

  /** Each comment `_addTags` adds has a name with no `=`, and the comments
      are the tokens holding `=`: a value keeps any later `=` literally. */
  lemma AddedCommentsAreTokens(s: string)
    ensures TagUtil.RenderAll(ParseTagsC(s)) == WithEquals(Tokens(TagUtil.CString(s), 0))
    ensures forall j :: 0 <= j < |ParseTagsC(s)| ==> TagUtil.EQUALS !in ParseTagsC(s)[j].name
  {
    TagPairsRenderTokens(Tokens(TagUtil.CString(s), 0));
  }
}
