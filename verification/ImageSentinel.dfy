/**
 In-band images: user text may carry `@@IMAGE:<media type>:<data>@@`, which the
 context assembler turns into image blocks.
 */
module ImageSentinel {
  import opened Prelude
  import opened Messages

  const PREFIX: string := "@@IMAGE:"
  const SUFFIX: string := "@@"

  predicate OccursAt(s: string, pattern: string, i: nat) {
    i + |pattern| <= |s| && s[i..i + |pattern|] == pattern
  }

  /** The first occurrence of `pattern` in `s`. */
  function Find(s: string, pattern: string): (at: Option<nat>)
    ensures at.Some? ==> at.value + |pattern| <= |s|
    ensures at.Some? ==> OccursAt(s, pattern, at.value) && forall i: nat :: i < at.value ==> !OccursAt(s, pattern, i)
    ensures at.None? ==> forall i: nat :: !OccursAt(s, pattern, i)
  {
    FindFrom(s, pattern, 0)
  }

  function FindFrom(s: string, pattern: string, from: nat): (at: Option<nat>)
    requires from <= |s|
    ensures at.Some? ==> from <= at.value && OccursAt(s, pattern, at.value)
    ensures forall i: nat :: from <= i && (at.Some? ==> i < at.value) ==> !OccursAt(s, pattern, i)
    decreases |s| - from
  {
    if OccursAt(s, pattern, from) then Some(from)
    else if from == |s| then None
    else FindFrom(s, pattern, from + 1)
  }

  lemma FindIs(s: string, pattern: string, at: nat)
    requires OccursAt(s, pattern, at) && forall i: nat :: i < at ==> !OccursAt(s, pattern, i)
    ensures Find(s, pattern) == Some(at)
  {
    var found := Find(s, pattern);
    assert found.Some? ==> at >= found.value;
  }

  predicate IsContent(b: ContentBlock) {
    b.Text? || b.Image?
  }

  /** The image named by the text between prefix and suffix, if it has a colon. */
  function Payload(payload: string): (blocks: seq<ContentBlock>)
    ensures forall b :: b in blocks ==> IsContent(b)
  {
    match Find(payload, ":")
    case None => []
    case Some(colon) => [Image(payload[..colon], payload[colon + 1..])]
  }

  function TextUnlessEmpty(s: string): (blocks: seq<ContentBlock>)
    ensures forall b :: b in blocks ==> IsContent(b)
  {
    if |s| == 0 then [] else [Text(s)]
  }

  /** The blocks of `s`, sentinel by sentinel. */
  function Blocks(s: string): (blocks: seq<ContentBlock>)
    ensures forall b :: b in blocks ==> IsContent(b)
    decreases |s|, 1
  {
    match Find(s, PREFIX)
    case None => TextUnlessEmpty(s)
    case Some(pos) => TextUnlessEmpty(s[..pos]) + SentinelBlocks(s[pos..])
  }

  /** The blocks of `s`, which opens with the prefix. An unclosed sentinel is text. */
  function SentinelBlocks(s: string): (blocks: seq<ContentBlock>)
    requires |PREFIX| <= |s|
    ensures forall b :: b in blocks ==> IsContent(b)
    decreases |s|, 0
  {
    var rest := s[|PREFIX|..];
    match Find(rest, SUFFIX)
    case None => [Text(s)]
    case Some(close) => Payload(rest[..close]) + Blocks(rest[close + |SUFFIX|..])
  }

  function Decode(text: string): (blocks: seq<ContentBlock>)
    ensures forall b :: b in blocks ==> IsContent(b)
    ensures |blocks| > 0
  {
    if Find(text, PREFIX).None? || |Blocks(text)| == 0 then [Text(text)] else Blocks(text)
  }

  /** The scanning loop: each turn consumes a sentinel from `remaining`. */
  method DecodeUserContent(text: string) returns (blocks: seq<ContentBlock>)
    ensures blocks == Decode(text)
  {
    hide Find, OccursAt, Payload, TextUnlessEmpty;
    if Find(text, PREFIX).None? { return [Text(text)]; }
    blocks := [];
    var remaining, scanning := text, true;
    while scanning
      invariant scanning ==> blocks + Blocks(remaining) == Blocks(text)
      invariant !scanning ==> blocks == Blocks(text)
      decreases scanning, |remaining|
    {
      match Find(remaining, PREFIX)
      case None =>
        blocks := blocks + TextUnlessEmpty(remaining);
        scanning := false;
      case Some(pos) =>
        ghost var was := remaining;
        blocks := blocks + TextUnlessEmpty(remaining[..pos]);
        var rest := remaining[pos..][|PREFIX|..];
        match Find(rest, SUFFIX)
        case None =>
          blocks := blocks + [Text(remaining[pos..])];
          scanning := false;
        case Some(close) =>
          blocks := blocks + Payload(rest[..close]);
          remaining := rest[close + |SUFFIX|..];
          assert SentinelBlocks(was[pos..]) == Payload(rest[..close]) + Blocks(remaining);
    }
    if |blocks| == 0 { blocks := [Text(text)]; }
  }

  // ----- Round trip -----

  function Print(blocks: seq<ContentBlock>): string
    requires forall b :: b in blocks ==> IsContent(b)
  {
    if |blocks| == 0 then ""
    else
      assert blocks[0] in blocks && IsContent(blocks[0]);
      if blocks[0].Text? then blocks[0].text + Print(blocks[1..])
      else PREFIX + (blocks[0].mediaType + ":" + blocks[0].data) + SUFFIX + Print(blocks[1..])
  }

  /** The blocks that the documented format can carry. */
  ghost predicate Printable(blocks: seq<ContentBlock>) {
    && (forall b :: b in blocks ==> IsContent(b) && PrintableBlock(b))
    && (forall i :: 0 <= i < |blocks| - 1 ==> !(blocks[i].Text? && blocks[i + 1].Text?))
  }

  ghost predicate PrintableBlock(b: ContentBlock)
    requires IsContent(b)
  {
    match b
    case Text(t) => |t| > 0 && forall i: nat :: !OccursAt(t, PREFIX, i)
    case Image(mediaType, data) => ':' !in mediaType && '@' !in mediaType && '@' !in data
  }

  /** An occurrence that starts in `t` and reaches into `tail` would make two of the prefix's letters agree. */
  lemma BorderFree(s: string, t: string, tail: string, i: nat)
    requires s == t + tail && OccursAt(tail, PREFIX, 0) && i < |t| < i + |PREFIX|
    ensures !OccursAt(s, PREFIX, i)
  {
    var k := |t| - i;
    assert tail[0] == tail[0..|PREFIX|][0] == '@' && tail[1] == tail[0..|PREFIX|][1] == '@';
    if i + |PREFIX| <= |s| {
      var w := s[i..i + |PREFIX|];
      assert w[k] == s[|t|] == '@';
      if k == 1 { assert w[2] == s[|t| + 1] == '@'; }
    }
  }

  /** The prefix has no proper border, so no occurrence of it straddles the end of a text without one. */
  lemma PrefixStartsAfter(t: string, tail: string)
    requires forall i: nat :: !OccursAt(t, PREFIX, i)
    requires OccursAt(tail, PREFIX, 0)
    ensures Find(t + tail, PREFIX) == Some(|t|)
  {
    var s := t + tail;
    assert s[|t|..|t| + |PREFIX|] == tail[..|PREFIX|];
    forall i: nat | i < |t|
      ensures !OccursAt(s, PREFIX, i)
    {
      if OccursAt(s, PREFIX, i) {
        if i + |PREFIX| <= |t| {
          assert t[i..i + |PREFIX|] == s[i..i + |PREFIX|];
          assert OccursAt(t, PREFIX, i);
        } else {
          BorderFree(s, t, tail, i);
        }
      }
    }
    FindIs(s, PREFIX, |t|);
  }

  lemma SuffixEnds(payload: string, tail: string)
    requires '@' !in payload
    ensures Find(payload + SUFFIX + tail, SUFFIX) == Some(|payload|)
  {
    var s := payload + SUFFIX + tail;
    assert s[|payload|..|payload| + 2] == SUFFIX;
    forall i: nat | i < |payload|
      ensures !OccursAt(s, SUFFIX, i)
    {
      assert payload[i] in payload && s[i] == payload[i];
      assert i + 2 <= |s| && s[i..i + 2][0] == s[i];
    }
    FindIs(s, SUFFIX, |payload|);
  }

  lemma PayloadSplits(mediaType: string, data: string)
    requires ':' !in mediaType
    ensures Payload(mediaType + ":" + data) == [Image(mediaType, data)]
  {
    var s := mediaType + ":" + data;
    assert s[|mediaType|..|mediaType| + 1] == ":";
    forall i: nat | i < |mediaType|
      ensures !OccursAt(s, ":", i)
    {
      assert mediaType[i] in mediaType && s[i] == mediaType[i];
      assert i + 1 <= |s| && s[i..i + 1][0] == s[i];
    }
    FindIs(s, ":", |mediaType|);
    assert s[..|mediaType|] == mediaType && s[|mediaType| + 1..] == data;
  }

  /** Taking a text of four pieces apart again. */
  lemma Pieces(a: string, b: string, c: string, d: string)
    ensures OccursAt(a + b + c + d, a, 0)
    ensures (a + b + c + d)[|a|..] == b + c + d
    ensures (b + c + d)[..|b|] == b && (b + c + d)[|b| + |c|..] == d
  {
    assert (a + b + c + d)[0..0 + |a|] == a;
  }

  lemma ImageDecodes(mediaType: string, data: string, tail: string)
    requires ':' !in mediaType && '@' !in mediaType && '@' !in data
    ensures var s := PREFIX + (mediaType + ":" + data) + SUFFIX + tail;
            OccursAt(s, PREFIX, 0) && Blocks(s) == [Image(mediaType, data)] + Blocks(tail)
  {
    hide Payload, FindFrom, Find;
    var payload := mediaType + ":" + data;
    var s := PREFIX + payload + SUFFIX + tail;
    Pieces(PREFIX, payload, SUFFIX, tail);
    FindIs(s, PREFIX, 0);
    SuffixEnds(payload, tail);
    PayloadSplits(mediaType, data);
    assert s[0..] == s;
    assert Blocks(s) == TextUnlessEmpty(s[..0]) + SentinelBlocks(s);
  }

  lemma TextDecodes(t: string, tail: string)
    requires |t| > 0 && forall i: nat :: !OccursAt(t, PREFIX, i)
    requires OccursAt(tail, PREFIX, 0)
    ensures Blocks(t + tail) == [Text(t)] + Blocks(tail)
  {
    hide SentinelBlocks, Find, OccursAt;
    PrefixStartsAfter(t, tail);
    StartIsFound(tail);
    assert (t + tail)[..|t|] == t && (t + tail)[|t|..] == tail && tail[0..] == tail;
    assert Blocks(tail) == TextUnlessEmpty(tail[..0]) + SentinelBlocks(tail);
  }

  lemma StartIsFound(s: string)
    requires OccursAt(s, PREFIX, 0)
    ensures |PREFIX| <= |s| && Find(s, PREFIX) == Some(0)
  {
    FindIs(s, PREFIX, 0);
  }

  lemma {:induction false} PrintDecodes(blocks: seq<ContentBlock>)
    requires Printable(blocks)
    ensures Blocks(Print(blocks)) == blocks
    ensures |blocks| > 0 && blocks[0].Image? ==> OccursAt(Print(blocks), PREFIX, 0)
  {
    if |blocks| > 0 {
      var b, rest := blocks[0], blocks[1..];
      assert PrintableBlock(b);
      assert forall i :: 0 <= i < |rest| ==> rest[i] == blocks[i + 1];
      PrintDecodes(rest);
      assert blocks == [b] + rest;
      if b.Image? {
        ImageDecodes(b.mediaType, b.data, Print(rest));
      } else if |rest| > 0 {
        assert !(blocks[0].Text? && blocks[1].Text?);
        TextDecodes(b.text, Print(rest));
      } else {
        assert b.text + "" == b.text;
      }
    }
  }

  lemma {:induction false} ImagesShow(blocks: seq<ContentBlock>)
    requires Printable(blocks) && |blocks| > 1
    ensures Find(Print(blocks), PREFIX).Some?
  {
    if blocks[0].Image? {
      PrintDecodes(blocks);
    } else {
      assert !(blocks[0].Text? && blocks[1].Text?);
      var rest := blocks[1..];
      assert forall i :: 0 <= i < |rest| ==> rest[i] == blocks[i + 1];
      PrintDecodes(rest);
      assert PrintableBlock(blocks[0]);
      PrefixStartsAfter(blocks[0].text, Print(rest));
    }
  }

  /** Printing any list the format can carry and decoding it gives the list back. */
  lemma DecodeInvertsPrint(blocks: seq<ContentBlock>)
    requires |blocks| > 0 && Printable(blocks)
    ensures Decode(Print(blocks)) == blocks
  {
    PrintDecodes(blocks);
    if |blocks| > 1 {
      ImagesShow(blocks);
    } else if blocks[0].Text? {
      assert PrintableBlock(blocks[0]);
      assert blocks[0].text + "" == blocks[0].text;
    }
  }
}
