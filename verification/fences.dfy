/**
  `_strip_code_fences`: the tolerance layer between the local model's reply and
  the JSON parser. The reply is trimmed; only when it then opens with a Markdown
  fence are the fence, an optional case-insensitive `json` language tag and a
  closing fence removed, each together with the whitespace next to it.
*/
module Fences {
  import opened Text

  const Fence: string := "```"

  /** The one language tag recognised after the opening fence, in lower case. */
  const JsonTag: string := "json"

  /** A four-character tag that reads `json` in any mixture of cases. */
  ghost predicate IsJsonTag(tag: string) {
    |tag| == |JsonTag| && StartsWithIgnoringCase(tag, JsonTag)
  }

  function StripCodeFences(text: string): (r: string)
    ensures |r| <= |text|
    ensures IsTrimmed(r)
    ensures !StartsWith(Strip(text), Fence) ==> r == Strip(text)
  {
    var stripped := Strip(text);
    if !StartsWith(stripped, Fence) then stripped
    else
      OpenedStaysTrimmed(stripped);
      DropClosingFence(AfterOpening(stripped))
  }

  /** Dropping the opening of a trimmed text leaves a trimmed text. */
  lemma OpenedStaysTrimmed(stripped: string)
    requires StartsWith(stripped, Fence) && IsTrimmed(stripped)
    ensures IsTrimmed(AfterOpening(stripped))
  {
  }

  /** The opening fence, then an optional `json` tag, each with the blanks
      after it, are dropped; what is left ends where `stripped` ends. */
  function AfterOpening(stripped: string): (r: string)
    requires StartsWith(stripped, Fence)
    ensures |r| <= |stripped| - |Fence|
    ensures r == [] || !IsWhitespace(r[0])
    ensures r == [] || r[|r| - 1] == stripped[|stripped| - 1]
  {
    var afterFence := LStripFrom(stripped, |Fence|);
    if StartsWithIgnoringCase(afterFence, JsonTag) then LStripFrom(afterFence, |JsonTag|)
    else afterFence
  }

  /** `s[k:].lstrip()`: it ends where `s` ends. */
  function LStripFrom(s: string, k: nat): (r: string)
    requires k <= |s|
    ensures |r| <= |s| - k
    ensures r == [] || !IsWhitespace(r[0])
    ensures r == [] || r[|r| - 1] == s[|s| - 1]
  {
    var rest := s[k..];
    SuffixKeepsLast(rest, LStrip(rest));
    LStrip(rest)
  }

  /** A closing fence and the blanks before it are dropped; what is
      left is a head of `s`, and a trimmed `s` stays trimmed. */
  function DropClosingFence(s: string): (r: string)
    ensures |r| <= |s| && r == s[..|r|]
    ensures !EndsWith(s, Fence) ==> r == s
    ensures IsTrimmed(s) ==> IsTrimmed(r)
  {
    if EndsWith(s, Fence) then
      var r := RStrip(s[..|s| - |Fence|]);
      PrefixKeepsFirst(s, r);
      r
    else s
  }

  // ---------------------------------------------------------------------------
  // Facts about the characters involved

  lemma WhitespaceIsNotTagLetter(c: char, i: nat)
    requires i < |JsonTag|
    requires IsWhitespace(c) || c == '`'
    ensures AsciiLower(c) != JsonTag[i]
  {
  }

  /** The four characters of a `json` tag are letters, never whitespace. */
  lemma TagHasNoWhitespace(s: string)
    requires StartsWithIgnoringCase(s, JsonTag)
    ensures forall i :: 0 <= i < |JsonTag| ==> !IsWhitespace(s[i])
  {
    forall i | 0 <= i < |JsonTag| ensures !IsWhitespace(s[i]) {
      if IsWhitespace(s[i]) {
        WhitespaceIsNotTagLetter(s[i], i);
      }
    }
  }

  /** A payload that does not read `json` keeps not reading it when whitespace
      or a fence follows it. */
  lemma NoTagBeforeWhitespaceOrFence(p: string, rest: string)
    requires !StartsWithIgnoringCase(p, JsonTag)
    requires p != []
    requires rest != [] && (IsWhitespace(rest[0]) || rest[0] == '`')
    ensures !StartsWithIgnoringCase(p + rest, JsonTag)
  {
    if |p| < |JsonTag| && StartsWithIgnoringCase(p + rest, JsonTag) {
      assert (p + rest)[|p|] == rest[0];
      WhitespaceIsNotTagLetter(rest[0], |p|);
    }
  }

  // ---------------------------------------------------------------------------
  // Round trips

  /** What is left once the opening fence and any tag are gone: the payload, the
      whitespace after it and the closing fence, which is then removed. */
  lemma ClosingFenceRemovedAfterPayload(gap: string, p: string, pad: string)
    requires AllWhitespace(gap) && AllWhitespace(pad) && IsTrimmed(p) && p != []
    ensures LStrip(gap + p + pad + Fence) == p + pad + Fence
    ensures DropClosingFence(p + pad + Fence) == p
  {
    assert gap + p + pad + Fence == gap + (p + pad + Fence);
    LStripPadded(gap, p + pad + Fence);
    var a := p + pad + Fence;
    assert a[|a| - |Fence|..] == Fence;
    assert a[..|a| - |Fence|] == p + pad;
    RStripPadded(p, pad);
  }

  /** With no payload only the closing fence is left, and removing it leaves nothing. */
  lemma ClosingFenceRemovedNoPayload(gap: string, p: string, pad: string)
    requires AllWhitespace(gap) && AllWhitespace(pad) && p == []
    ensures LStrip(gap + p + pad + Fence) == Fence
    ensures DropClosingFence(Fence) == p
  {
    assert gap + p + pad + Fence == (gap + pad) + Fence;
    assert AllWhitespace(gap + pad);
    LStripPadded(gap + pad, Fence);
  }

  /** Whatever the payload, removing the closing fence gives it back. */
  lemma PayloadRecovered(gap: string, p: string, pad: string)
    requires AllWhitespace(gap) && AllWhitespace(pad) && IsTrimmed(p)
    ensures DropClosingFence(LStrip(gap + p + pad + Fence)) == p
  {
    if p != [] {
      ClosingFenceRemovedAfterPayload(gap, p, pad);
    } else {
      ClosingFenceRemovedNoPayload(gap, p, pad);
    }
  }

  /** A fenced block: opening fence, contents, closing fence. */
  function Block(inner: string): string {
    Fence + inner + Fence
  }

  /** A reply as pieces: blanks, fence, blanks, tag, blanks, payload, blanks,
      fence, blanks. */
  function Wrapped(lead: string, gap1: string, tag: string, gap2: string,
                   p: string, pad: string, trail: string): string
  {
    lead + Block(gap1 + tag + gap2 + p + pad) + trail
  }

  /** Trimming a fenced reply leaves the fenced block, which is then unwrapped. */
  lemma PaddedFencedBlock(lead: string, inner: string, trail: string)
    requires AllWhitespace(lead) && AllWhitespace(trail)
    ensures StartsWith(Block(inner), Fence)
    ensures StripCodeFences(lead + Block(inner) + trail) == DropClosingFence(AfterOpening(Block(inner)))
  {
    var m := Block(inner);
    assert m[..|Fence|] == Fence;
    assert m[0] == '`' && m[|m| - 1] == '`';
    StripPadded(lead, m, trail);
  }

  /** What follows the opening fence of a block. */
  lemma BlockAfterFence(inner: string, m: string)
    requires m == Block(inner)
    ensures StartsWith(m, Fence) && m[|Fence|..] == inner + Fence
  {
    assert m[..|Fence|] == Fence;
  }

  /** A tag followed by anything still reads `json`, and dropping four
      characters leaves what followed. */
  lemma TagThenRest(tag: string, rest: string)
    requires IsJsonTag(tag)
    ensures StartsWithIgnoringCase(tag + rest, JsonTag)
    ensures (tag + rest)[|JsonTag|..] == rest
  {
    assert forall i :: 0 <= i < |JsonTag| ==> (tag + rest)[i] == tag[i];
  }

  /** After the opening fence, blanks and a `json` tag in any case are dropped. */
  lemma TaggedOpeningRemoved(gap1: string, tag: string, gap2: string, p: string, pad: string)
    requires AllWhitespace(gap1) && IsJsonTag(tag)
    ensures AfterOpening(Block(gap1 + tag + gap2 + p + pad)) == LStrip(gap2 + p + pad + Fence)
  {
    var rest := gap2 + p + pad + Fence;
    var m := Block(gap1 + tag + gap2 + p + pad);
    TaggedBlockAfterFence(gap1, tag, gap2, p, pad);
    TagHasNoWhitespace(tag);
    LStripPadded(gap1, tag + rest);
    TagThenRest(tag, rest);
    AfterOpeningWithTag(m, tag + rest);
  }

  lemma TaggedBlockAfterFence(gap1: string, tag: string, gap2: string, p: string, pad: string)
    ensures var m := Block(gap1 + tag + gap2 + p + pad);
            StartsWith(m, Fence) && m[|Fence|..] == gap1 + (tag + (gap2 + p + pad + Fence))
  {
    BlockAfterFence(gap1 + tag + gap2 + p + pad, Block(gap1 + tag + gap2 + p + pad));
  }

  /** With a `json` tag after the opening fence: the tag and the blanks after it are dropped. */
  lemma AfterOpeningWithTag(m: string, afterFence: string)
    requires StartsWith(m, Fence) && afterFence == LStrip(m[|Fence|..])
    requires StartsWithIgnoringCase(afterFence, JsonTag)
    ensures AfterOpening(m) == LStrip(afterFence[|JsonTag|..])
  {
  }

  /** After the opening fence only blanks are dropped when the payload that
      follows does not read `json`. */
  lemma UntaggedOpeningRemoved(gap: string, p: string, pad: string)
    requires AllWhitespace(gap) && AllWhitespace(pad) && IsTrimmed(p)
    requires !StartsWithIgnoringCase(p, JsonTag)
    ensures AfterOpening(Block(gap + p + pad)) == LStrip(gap + p + pad + Fence)
  {
    if p != [] {
      UntaggedOpeningBeforePayload(gap, p, pad);
    } else {
      UntaggedOpeningNoPayload(gap, p, pad);
    }
  }

  lemma UntaggedOpeningBeforePayload(gap: string, p: string, pad: string)
    requires AllWhitespace(gap) && AllWhitespace(pad) && IsTrimmed(p) && p != []
    requires !StartsWithIgnoringCase(p, JsonTag)
    ensures AfterOpening(Block(gap + p + pad)) == LStrip(gap + p + pad + Fence)
  {
    var m := Block(gap + p + pad);
    BlockAfterFence(gap + p + pad, m);
    ClosingFenceRemovedAfterPayload(gap, p, pad);
    NoTagBeforePadAndFence(p, pad);
    AfterOpeningWithoutTag(m, p + pad + Fence);
  }

  lemma NoTagBeforePadAndFence(p: string, pad: string)
    requires AllWhitespace(pad) && p != [] && !StartsWithIgnoringCase(p, JsonTag)
    ensures !StartsWithIgnoringCase(p + pad + Fence, JsonTag)
  {
    assert p + pad + Fence == p + (pad + Fence);
    if pad != [] {
      NoTagBeforeWhitespaceOrFence(p, pad + Fence);
    } else {
      NoTagBeforeWhitespaceOrFence(p, Fence);
    }
  }

  /** Without a `json` tag: only the fence and the blanks after it are dropped. */
  lemma AfterOpeningWithoutTag(m: string, afterFence: string)
    requires StartsWith(m, Fence) && afterFence == LStrip(m[|Fence|..])
    requires !StartsWithIgnoringCase(afterFence, JsonTag)
    ensures AfterOpening(m) == afterFence
  {
  }

  lemma UntaggedOpeningNoPayload(gap: string, p: string, pad: string)
    requires AllWhitespace(gap) && AllWhitespace(pad) && p == []
    ensures AfterOpening(Block(gap + p + pad)) == LStrip(gap + p + pad + Fence)
  {
    BlockAfterFence(gap + p + pad, Block(gap + p + pad));
    ClosingFenceRemovedNoPayload(gap, p, pad);
  }

  /** A trimmed payload wrapped in a fence, with any whitespace between the
      pieces, comes back exactly when the fence carries a `json` tag in any case,
      or carries no tag and the payload does not itself begin with `json`. */
  lemma FencedRoundTrip(lead: string, gap1: string, tag: string, gap2: string,
                        p: string, pad: string, trail: string)
    requires AllWhitespace(lead) && AllWhitespace(gap1) && AllWhitespace(gap2)
    requires AllWhitespace(pad) && AllWhitespace(trail)
    requires IsTrimmed(p)
    requires IsJsonTag(tag) || (tag == [] && !StartsWithIgnoringCase(p, JsonTag))
    ensures StripCodeFences(Wrapped(lead, gap1, tag, gap2, p, pad, trail)) == p
  {
    if tag != [] {
      TaggedRoundTrip(lead, gap1, tag, gap2, p, pad, trail);
    } else {
      UntaggedRoundTrip(lead, gap1, gap2, p, pad, trail);
    }
  }

  lemma TaggedRoundTrip(lead: string, gap1: string, tag: string, gap2: string,
                        p: string, pad: string, trail: string)
    requires AllWhitespace(lead) && AllWhitespace(gap1) && AllWhitespace(gap2)
    requires AllWhitespace(pad) && AllWhitespace(trail)
    requires IsTrimmed(p) && IsJsonTag(tag)
    ensures StripCodeFences(Wrapped(lead, gap1, tag, gap2, p, pad, trail)) == p
  {
    PaddedFencedBlock(lead, gap1 + tag + gap2 + p + pad, trail);
    TaggedOpeningRemoved(gap1, tag, gap2, p, pad);
    PayloadRecovered(gap2, p, pad);
  }

  lemma UntaggedRoundTrip(lead: string, gap1: string, gap2: string,
                          p: string, pad: string, trail: string)
    requires AllWhitespace(lead) && AllWhitespace(gap1) && AllWhitespace(gap2)
    requires AllWhitespace(pad) && AllWhitespace(trail)
    requires IsTrimmed(p) && !StartsWithIgnoringCase(p, JsonTag)
    ensures StripCodeFences(Wrapped(lead, gap1, [], gap2, p, pad, trail)) == p
  {
    var gap := gap1 + gap2;
    assert AllWhitespace(gap);
    assert gap1 + [] + gap2 + p + pad == gap + p + pad;
    PaddedFencedBlock(lead, gap + p + pad, trail);
    UntaggedOpeningRemoved(gap, p, pad);
    PayloadRecovered(gap, p, pad);
  }

  /** The docstring's first case: a ```json fenced payload. */
  lemma JsonFenceRoundTrip(p: string)
    requires IsTrimmed(p)
    ensures StripCodeFences("```json\n" + p + "\n```") == p
  {
    assert IsJsonTag("json");
    FencedRoundTrip("", "", "json", "\n", p, "\n", "");
    JsonFenceIsWrapped(p);
  }

  lemma JsonFenceIsWrapped(p: string)
    ensures "```json\n" + p + "\n```" == Wrapped("", "", "json", "\n", p, "\n", "")
  {
  }

  /** The docstring's second case: a fence without a language tag. */
  lemma BareFenceRoundTrip(p: string)
    requires IsTrimmed(p) && !StartsWithIgnoringCase(p, JsonTag)
    ensures StripCodeFences("```\n" + p + "\n```") == p
  {
    FencedRoundTrip("", "\n", "", "", p, "\n", "");
    BareFenceIsWrapped(p);
  }

  lemma BareFenceIsWrapped(p: string)
    ensures "```\n" + p + "\n```" == Wrapped("", "\n", "", "", p, "\n", "")
  {
  }

  /** Inside a bare fence a payload that itself begins with `json` (in any case)
      loses that word: the tag is looked for wherever the first non-blank
      character after the fence is. */
  lemma BareFenceTakesLeadingJsonAsTag(p: string)
    requires IsTrimmed(p) && StartsWithIgnoringCase(p, JsonTag)
    ensures StripCodeFences("```\n" + p + "\n```") == LStrip(p[|JsonTag|..])
    ensures |StripCodeFences("```\n" + p + "\n```")| < |p|
  {
    var tag, gap, q := SplitLeadingTag(p);
    FencedRoundTrip("", "\n", tag, gap, q, "\n", "");
    BareFenceAroundSplit(p, tag, gap, q);
  }

  lemma BareFenceAroundSplit(p: string, tag: string, gap: string, q: string)
    requires p == tag + gap + q
    ensures "```\n" + p + "\n```" == Wrapped("", "\n", tag, gap, q, "\n", "")
  {
  }

  /** A trimmed text that reads `json` at its start is that tag, blanks, and a
      trimmed rest. */
  lemma SplitLeadingTag(p: string) returns (tag: string, gap: string, q: string)
    requires IsTrimmed(p) && StartsWithIgnoringCase(p, JsonTag)
    ensures p == tag + gap + q && IsJsonTag(tag)
    ensures AllWhitespace(gap) && IsTrimmed(q) && q == LStrip(p[|JsonTag|..])
  {
    tag := p[..|JsonTag|];
    TagIsJsonTag(p);
    var rest := p[|JsonTag|..];
    q := LStrip(rest);
    gap := LStripSplit(rest);
    Regroup(p, |JsonTag|, gap, q);
    SuffixKeepsLast(rest, q);
  }

  lemma TagIsJsonTag(p: string)
    requires StartsWithIgnoringCase(p, JsonTag)
    ensures IsJsonTag(p[..|JsonTag|])
  {
  }

  /** For a trimmed payload the bare-fence round trip holds exactly when the
      payload does not begin with `json`. */
  lemma BareFenceRoundTripIff(p: string)
    requires IsTrimmed(p)
    ensures StripCodeFences("```\n" + p + "\n```") == p <==> !StartsWithIgnoringCase(p, JsonTag)
  {
    if StartsWithIgnoringCase(p, JsonTag) {
      BareFenceTakesLeadingJsonAsTag(p);
    } else {
      BareFenceRoundTrip(p);
    }
  }

  /** The docstring's third case: an unfenced trimmed payload is returned as is. */
  lemma UnfencedRoundTrip(p: string)
    requires IsTrimmed(p) && !StartsWith(p, Fence)
    ensures StripCodeFences(p) == p
  {
    StripOfTrimmed(p);
  }

  /** A closing fence is only removed after an opening one: a trimmed text that
      does not open with a fence and is not empty keeps a fence put after it on a
      line of its own. */
  lemma UnopenedClosingFenceKept(p: string)
    requires IsTrimmed(p) && p != [] && !StartsWith(p, Fence)
    ensures StripCodeFences(p + "\n" + Fence) == p + "\n" + Fence
  {
    UnopenedShape(p);
    UnfencedRoundTrip(p + "\n" + Fence);
  }

  lemma UnopenedShape(p: string)
    requires IsTrimmed(p) && p != [] && !StartsWith(p, Fence)
    ensures IsTrimmed(p + "\n" + Fence) && !StartsWith(p + "\n" + Fence, Fence)
  {
    var s := p + "\n" + Fence;
    assert s[0] == p[0] && s[|s| - 1] == '`';
    if |p| >= |Fence| {
      assert s[..|Fence|] == p[..|Fence|];
    } else {
      assert s[|p|] == '\n';
    }
  }

  // ---------------------------------------------------------------------------
  // Only the wrapper is removed

  /** One fence, or one fence followed by one `json` tag. */
  ghost predicate IsFenceWithOptionalTag(n: string) {
    n == Fence || (|n| == |Fence| + |JsonTag| && n[..|Fence|] == Fence && IsJsonTag(n[|Fence|..]))
  }

  /** `text[lo..hi]` is the result; before it lie blanks around at most one
      fence and one tag; after it lie blanks around at most one fence, which is
      only there when an opening fence was dropped too. */
  ghost predicate RemovesOnlyWrapper(text: string, lo: nat, hi: nat) {
    && lo <= hi <= |text|
    && StripCodeFences(text) == text[lo..hi]
    && var opening := NonWhitespace(text[..lo]);
       var closing := NonWhitespace(text[hi..]);
       && (opening == [] || IsFenceWithOptionalTag(opening))
       && (closing == [] || (closing == Fence && opening != []))
  }

  /** The result of `StripCodeFences` is a contiguous piece of its input, and
      the only non-blank characters removed are one opening fence, one tag and
      one closing fence. */
  lemma StripCodeFencesRemovesOnlyWrapper(text: string)
    ensures exists lo: nat, hi: nat :: RemovesOnlyWrapper(text, lo, hi)
  {
    var lead, trail := StripSplit(text);
    if StartsWith(Strip(text), Fence) {
      FencedRemovesOnlyWrapper(text, lead, trail);
    } else {
      UnfencedRemovesOnlyWrapper(text, lead, trail);
    }
  }

  lemma UnfencedRemovesOnlyWrapper(text: string, lead: string, trail: string)
    requires text == lead + Strip(text) + trail && AllWhitespace(lead) && AllWhitespace(trail)
    requires !StartsWith(Strip(text), Fence)
    ensures exists lo: nat, hi: nat :: RemovesOnlyWrapper(text, lo, hi)
  {
    NonWhitespaceOfBlank(lead);
    NonWhitespaceOfBlank(trail);
    WrapperFromPieces(text, lead, Strip(text), trail);
  }

  lemma FencedRemovesOnlyWrapper(text: string, lead: string, trail: string)
    requires text == lead + Strip(text) + trail && AllWhitespace(lead) && AllWhitespace(trail)
    requires StartsWith(Strip(text), Fence)
    ensures exists lo: nat, hi: nat :: RemovesOnlyWrapper(text, lo, hi)
  {
    var r := StripCodeFences(text);
    FencedResult(text);
    var head, tail := FencedSplit(Strip(text));
    ConcatFive(text, lead, Strip(text), trail, head, r, tail);
    BlanksAroundPieces(lead, head, tail, trail);
    WrapperFromPieces(text, lead + head, r, tail + trail);
  }

  /** When the trimmed text opens with a fence, the result is what removing the
      opening and then the closing fence makes of it. */
  lemma FencedResult(text: string)
    requires StartsWith(Strip(text), Fence)
    ensures StripCodeFences(text) == DropClosingFence(AfterOpening(Strip(text)))
  {
  }

  lemma BlanksAroundPieces(lead: string, head: string, tail: string, trail: string)
    requires AllWhitespace(lead) && AllWhitespace(trail)
    ensures NonWhitespace(lead + head) == NonWhitespace(head)
    ensures NonWhitespace(tail + trail) == NonWhitespace(tail)
  {
    NonWhitespaceOfBlank(lead);
    NonWhitespaceOfBlank(trail);
    NonWhitespaceAppend(lead, head);
    NonWhitespaceAppend(tail, trail);
  }

  /** The fenced branch splits the trimmed text into the dropped opening, the
      result, and the dropped closing fence. */
  lemma FencedSplit(stripped: string) returns (head: string, tail: string)
    requires StartsWith(stripped, Fence)
    ensures stripped == head + (DropClosingFence(AfterOpening(stripped)) + tail)
    ensures IsFenceWithOptionalTag(NonWhitespace(head))
    ensures NonWhitespace(tail) == [] || NonWhitespace(tail) == Fence
  {
    head := AfterOpeningSplit(stripped);
    tail := DropClosingFenceSplit(AfterOpening(stripped));
  }

  lemma WrapperFromPieces(text: string, a: string, r: string, b: string)
    requires text == a + r + b && r == StripCodeFences(text)
    requires NonWhitespace(a) == [] || IsFenceWithOptionalTag(NonWhitespace(a))
    requires NonWhitespace(b) == [] || (NonWhitespace(b) == Fence && NonWhitespace(a) != [])
    ensures RemovesOnlyWrapper(text, |a|, |a| + |r|)
  {
    PiecesAtOffsets(text, a, r, b);
  }

  lemma ConcatFive(text: string, lead: string, mid: string, trail: string,
                   head: string, r: string, tail: string)
    requires text == lead + mid + trail && mid == head + (r + tail)
    ensures text == (lead + head) + r + (tail + trail)
  {
  }

  /** Where the three pieces of a concatenation sit. */
  lemma PiecesAtOffsets(text: string, a: string, r: string, b: string)
    requires text == a + r + b
    ensures text[..|a|] == a && text[|a|..|a| + |r|] == r && text[|a| + |r|..] == b
  {
  }

  /** One fence and the blanks after it are removed first. */
  lemma FenceSplit(stripped: string) returns (opening: string)
    requires StartsWith(stripped, Fence)
    ensures stripped == opening + LStrip(stripped[|Fence|..])
    ensures NonWhitespace(opening) == Fence
  {
    opening := FenceAndBlanks(stripped);
    FenceHasNoWhitespace();
    SolidThenBlank(Fence, opening);
  }

  lemma FenceHasNoWhitespace()
    ensures forall i :: 0 <= i < |Fence| ==> !IsWhitespace(Fence[i])
  {
  }

  lemma FenceAndBlanks(stripped: string) returns (opening: string)
    requires StartsWith(stripped, Fence)
    ensures stripped == opening + LStrip(stripped[|Fence|..])
    ensures |Fence| <= |opening| && opening[..|Fence|] == Fence && AllWhitespace(opening[|Fence|..])
  {
    opening := HeadAndBlanks(stripped, |Fence|);
  }

  /** The first `k` characters and the blanks after them, in front of the rest. */
  lemma HeadAndBlanks(s: string, k: nat) returns (head: string)
    requires k <= |s|
    ensures s == head + LStrip(s[k..])
    ensures k <= |head| && head[..k] == s[..k] && AllWhitespace(head[k..])
  {
    var gap := LStripSplit(s[k..]);
    Regroup(s, k, gap, LStrip(s[k..]));
    head := s[..k] + gap;
  }

  lemma Regroup(s: string, k: nat, gap: string, r: string)
    requires k <= |s| && s[k..] == gap + r
    ensures s == (s[..k] + gap) + r
    ensures (s[..k] + gap)[..k] == s[..k] && (s[..k] + gap)[k..] == gap
  {
    assert s == s[..k] + s[k..];
  }

  /** Non-blank characters followed by blanks. */
  lemma SolidThenBlank(solid: string, s: string)
    requires forall i :: 0 <= i < |solid| ==> !IsWhitespace(solid[i])
    requires |solid| <= |s| && s[..|solid|] == solid && AllWhitespace(s[|solid|..])
    ensures NonWhitespace(s) == solid
  {
    assert s == solid + s[|solid|..];
    NonWhitespaceOfSolid(solid);
    NonWhitespaceOfBlank(s[|solid|..]);
    NonWhitespaceAppend(solid, s[|solid|..]);
  }

  /** Removing the opening drops blanks, one fence and at most one tag. */
  lemma AfterOpeningSplit(stripped: string) returns (head: string)
    requires StartsWith(stripped, Fence)
    ensures stripped == head + AfterOpening(stripped)
    ensures IsFenceWithOptionalTag(NonWhitespace(head))
  {
    if StartsWithIgnoringCase(LStrip(stripped[|Fence|..]), JsonTag) {
      head := TaggedOpeningSplit(stripped);
    } else {
      head := FenceSplit(stripped);
      AfterOpeningWithoutTag(stripped, LStrip(stripped[|Fence|..]));
    }
  }

  lemma TaggedOpeningSplit(stripped: string) returns (head: string)
    requires StartsWith(stripped, Fence)
    requires StartsWithIgnoringCase(LStrip(stripped[|Fence|..]), JsonTag)
    ensures stripped == head + AfterOpening(stripped)
    ensures IsFenceWithOptionalTag(NonWhitespace(head))
  {
    var afterFence := LStrip(stripped[|Fence|..]);
    var opening := FenceSplit(stripped);
    var tagged := TagSplit(afterFence);
    AfterOpeningWithTag(stripped, afterFence);
    head := opening + tagged;
    FenceThenTag(opening, tagged);
    Associate(stripped, opening, tagged, LStrip(afterFence[|JsonTag|..]));
  }

  lemma Associate(s: string, a: string, b: string, c: string)
    requires s == a + (b + c)
    ensures s == (a + b) + c
  {
  }

  lemma FenceThenTag(opening: string, tagged: string)
    requires NonWhitespace(opening) == Fence
    requires |NonWhitespace(tagged)| == |JsonTag| && IsJsonTag(NonWhitespace(tagged))
    ensures IsFenceWithOptionalTag(NonWhitespace(opening + tagged))
  {
    NonWhitespaceAppend(opening, tagged);
    var n := NonWhitespace(opening + tagged);
    assert n[..|Fence|] == Fence;
    assert n[|Fence|..] == NonWhitespace(tagged);
  }

  /** A `json` tag and the blanks after it, in front of the rest. */
  lemma TagSplit(s: string) returns (tagged: string)
    requires StartsWithIgnoringCase(s, JsonTag)
    ensures s == tagged + LStrip(s[|JsonTag|..])
    ensures |NonWhitespace(tagged)| == |JsonTag| && IsJsonTag(NonWhitespace(tagged))
  {
    tagged := TagAndBlanks(s);
    TagHasNoWhitespace(s);
    SolidThenBlank(s[..|JsonTag|], tagged);
  }

  lemma TagAndBlanks(s: string) returns (tagged: string)
    requires StartsWithIgnoringCase(s, JsonTag)
    ensures s == tagged + LStrip(s[|JsonTag|..])
    ensures |JsonTag| <= |tagged| && tagged[..|JsonTag|] == s[..|JsonTag|]
    ensures AllWhitespace(tagged[|JsonTag|..])
  {
    tagged := HeadAndBlanks(s, |JsonTag|);
  }

  /** Removing the closing fence drops at most one fence and blanks. */
  lemma DropClosingFenceSplit(s: string) returns (tail: string)
    ensures s == DropClosingFence(s) + tail
    ensures NonWhitespace(tail) == [] || NonWhitespace(tail) == Fence
    ensures !EndsWith(s, Fence) ==> tail == []
  {
    if EndsWith(s, Fence) {
      var body := s[..|s| - |Fence|];
      var pad := RStripSplit(body);
      tail := pad + Fence;
      SplitOffSuffix(s, Fence, RStrip(body), pad);
      BlanksThenFence(pad);
    } else {
      tail := [];
    }
  }

  /** A text ending in `suffix`, whose rest is `head + pad`, is `head + (pad + suffix)`. */
  lemma SplitOffSuffix(s: string, suffix: string, head: string, pad: string)
    requires EndsWith(s, suffix) && s[..|s| - |suffix|] == head + pad
    ensures s == head + (pad + suffix)
  {
    assert s == s[..|s| - |suffix|] + s[|s| - |suffix|..];
  }

  lemma FenceIsSolid()
    ensures NonWhitespace(Fence) == Fence
  {
    NonWhitespaceOfSolid(Fence);
  }

  lemma BlanksThenFence(pad: string)
    requires AllWhitespace(pad)
    ensures NonWhitespace(pad + Fence) == Fence
  {
    NonWhitespaceOfBlank(pad);
    FenceIsSolid();
    NonWhitespaceAppend(pad, Fence);
  }
}
