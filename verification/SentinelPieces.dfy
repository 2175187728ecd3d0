/** Any user text, well formed or not, piece by piece: which pieces become blocks and which do not. */
module SentinelPieces {
  import opened Prelude
  import opened Messages
  import opened ImageSentinel

  /** A stretch of text, or what stands between the prefix and the suffix of a sentinel. */
  datatype Piece = Words(text: string) | Inner(payload: string)

  ghost predicate NoPrefix(s: string) {
    forall i: nat :: !OccursAt(s, "@@IMAGE:", i)
  }

  ghost predicate ClosesAtEnd(payload: string) {
    forall i: nat :: i < |payload| ==> !OccursAt(payload + "@@", "@@", i)
  }

  ghost predicate GoodPiece(p: Piece) {
    match p
    case Words(text) => |text| > 0 && NoPrefix(text)
    case Inner(payload) => ClosesAtEnd(payload)
  }

  /** No two texts in a row, and a sentinel left open only behind all pieces. */
  ghost predicate Good(pieces: seq<Piece>, open: Option<string>) {
    && (forall k :: 0 <= k < |pieces| ==> GoodPiece(pieces[k]))
    && (forall k :: 0 <= k < |pieces| - 1 ==> !(pieces[k].Words? && pieces[k + 1].Words?))
    && (open.Some? ==> forall i: nat :: !OccursAt(open.value, "@@", i))
  }

  function Show(pieces: seq<Piece>, open: Option<string>): string {
    if |pieces| == 0 then if open.Some? then "@@IMAGE:" + open.value else ""
    else if pieces[0].Words? then pieces[0].text + Show(pieces[1..], open)
    else "@@IMAGE:" + pieces[0].payload + "@@" + Show(pieces[1..], open)
  }

  /** The blocks of a piece: a sentinel without a colon has none. */
  ghost predicate BlocksOf(p: Piece, blocks: seq<ContentBlock>) {
    match p
    case Words(text) => blocks == [Text(text)]
    case Inner(payload) =>
      if ':' in payload then
        && |blocks| == 1 && blocks[0].Image? && ':' !in blocks[0].mediaType
        && payload == blocks[0].mediaType + ":" + blocks[0].data
      else |blocks| == 0
  }

  /** `blocks` are those of the pieces, and the open sentinel as text. */
  ghost predicate Means(pieces: seq<Piece>, open: Option<string>, blocks: seq<ContentBlock>) {
    if |pieces| == 0 then blocks == if open.Some? then [Text("@@IMAGE:" + open.value)] else []
    else exists n: nat :: n <= |blocks| && BlocksOf(pieces[0], blocks[..n]) && Means(pieces[1..], open, blocks[n..])
  }

  lemma {:induction false} PayloadIs(payload: string)
    ensures BlocksOf(Inner(payload), Payload(payload))
  {
    var at := Find(payload, ":");
    if at.Some? {
      var colon := at.value;
      assert payload[colon..colon + 1] == ":" && payload[colon] == ':';
      forall i | 0 <= i < colon
        ensures payload[i] != ':'
      {
        assert !OccursAt(payload, ":", i) && payload[i..i + 1] == [payload[i]];
      }
      assert payload == payload[..colon] + ":" + payload[colon + 1..];
    } else {
      forall i | 0 <= i < |payload|
        ensures payload[i] != ':'
      {
        assert !OccursAt(payload, ":", i) && payload[i..i + 1] == [payload[i]];
      }
    }
  }

  lemma {:induction false} SuffixFound(payload: string, tail: string)
    requires ClosesAtEnd(payload)
    ensures Find(payload + "@@" + tail, "@@") == Some(|payload|)
  {
    var s, closed := payload + "@@" + tail, payload + "@@";
    assert s[|payload|..|payload| + 2] == "@@";
    forall i: nat | i < |payload|
      ensures !OccursAt(s, "@@", i)
    {
      assert !OccursAt(closed, "@@", i) && s[i..i + 2] == closed[i..i + 2];
    }
    FindIs(s, "@@", |payload|);
  }

  lemma {:induction false} InnerDecodes(payload: string, tail: string)
    requires ClosesAtEnd(payload)
    ensures var s := "@@IMAGE:" + payload + "@@" + tail;
            OccursAt(s, PREFIX, 0) && Blocks(s) == Payload(payload) + Blocks(tail)
  {
    hide Payload, FindFrom, Find;
    var s := "@@IMAGE:" + payload + "@@" + tail;
    Pieces(PREFIX, payload, SUFFIX, tail);
    FindIs(s, PREFIX, 0);
    SuffixFound(payload, tail);
    assert s[0..] == s;
    assert Blocks(s) == TextUnlessEmpty(s[..0]) + SentinelBlocks(s);
  }

  lemma {:induction false} OpenDecodes(rest: string)
    requires forall i: nat :: !OccursAt(rest, "@@", i)
    ensures var s := "@@IMAGE:" + rest;
            OccursAt(s, PREFIX, 0) && Blocks(s) == [Text(s)]
  {
    var s := "@@IMAGE:" + rest;
    assert s[0..0 + |PREFIX|] == PREFIX && s[|PREFIX|..] == rest;
    FindIs(s, PREFIX, 0);
    assert s[0..] == s;
    assert Blocks(s) == TextUnlessEmpty(s[..0]) + SentinelBlocks(s);
  }

  /** The scan of any text shown piece by piece, with or without an open sentinel at its end. */
  lemma {:induction false} PiecesDecode(pieces: seq<Piece>, open: Option<string>)
    requires Good(pieces, open)
    ensures Means(pieces, open, Blocks(Show(pieces, open)))
    ensures (|pieces| > 0 && pieces[0].Inner?) || (|pieces| == 0 && open.Some?) ==>
              OccursAt(Show(pieces, open), PREFIX, 0)
  {
    var s := Show(pieces, open);
    if |pieces| == 0 {
      if open.Some? { OpenDecodes(open.value); } else { assert Find("", PREFIX).None?; }
    } else {
      var p, rest := pieces[0], pieces[1..];
      assert GoodPiece(p);
      assert forall k :: 0 <= k < |rest| ==> rest[k] == pieces[k + 1];
      PiecesDecode(rest, open);
      var tail := Show(rest, open);
      var first := if p.Words? then [Text(p.text)] else Payload(p.payload);
      if p.Inner? {
        InnerDecodes(p.payload, tail);
        PayloadIs(p.payload);
      } else if |rest| > 0 || open.Some? {
        assert |rest| > 0 ==> !(pieces[0].Words? && pieces[1].Words?);
        TextDecodes(p.text, tail);
      } else {
        assert p.text + "" == p.text;
        assert Find(p.text, PREFIX).None?;
      }
      assert Blocks(s) == first + Blocks(tail);
      assert BlocksOf(p, Blocks(s)[..|first|]) && Means(rest, open, Blocks(s)[|first|..]);
    }
  }

  /** Every text is such a sequence of pieces. */
  lemma {:induction false} EveryTextIsPieces(s: string) returns (pieces: seq<Piece>, open: Option<string>)
    ensures Good(pieces, open) && Show(pieces, open) == s
    decreases |s|
  {
    hide Good, GoodPiece, FindFrom;
    match Find(s, PREFIX)
    case None =>
      open := None;
      pieces := if |s| == 0 then [] else [Words(s)];
      WordsAreGood(s);
    case Some(pos) =>
      var rest := s[pos + |PREFIX|..];
      assert s[pos..pos + |PREFIX|] == PREFIX;
      match Find(rest, SUFFIX) {
        case None =>
          pieces, open := [], Some(rest);
          OpenIsGood(rest);
          assert s[pos..] == Show(pieces, open);
        case Some(close) =>
          var payload, tail := rest[..close], rest[close + 2..];
          var later;
          later, open := EveryTextIsPieces(tail);
          pieces := [Inner(payload)] + later;
          InnerIsGood(rest, close, later, open);
          assert rest[close..close + 2] == "@@";
          assert pieces[1..] == later;
          assert s[pos..] == "@@IMAGE:" + payload + "@@" + tail;
      }
      if pos > 0 {
        BeforePrefix(s, pos);
        WordsBefore(s[..pos], pieces, open);
        assert ([Words(s[..pos])] + pieces)[1..] == pieces;
        pieces := [Words(s[..pos])] + pieces;
        assert s == s[..pos] + s[pos..];
      }
  }

  lemma {:induction false} WordsAreGood(s: string)
    requires NoPrefix(s)
    ensures Good(if |s| == 0 then [] else [Words(s)], None)
    ensures Show(if |s| == 0 then [] else [Words(s)], None) == s
  {
    assert s + "" == s;
  }

  lemma {:induction false} OpenIsGood(rest: string)
    requires forall i: nat :: !OccursAt(rest, "@@", i)
    ensures Good([], Some(rest))
  {
  }

  lemma {:induction false} InnerIsGood(rest: string, close: nat, later: seq<Piece>, open: Option<string>)
    requires OccursAt(rest, "@@", close) && (forall i: nat :: i < close ==> !OccursAt(rest, "@@", i))
    requires Good(later, open)
    ensures close <= |rest| && Good([Inner(rest[..close])] + later, open)
  {
    var payload := rest[..close];
    assert rest[close..close + 2] == "@@";
    forall i: nat | i < |payload|
      ensures !OccursAt(payload + "@@", "@@", i)
    {
      assert (payload + "@@")[i..i + 2] == rest[i..i + 2];
      assert !OccursAt(rest, "@@", i);
    }
    assert GoodPiece(Inner(payload));
  }

  lemma {:induction false} BeforePrefix(s: string, pos: nat)
    requires pos <= |s| && forall i: nat :: i < pos ==> !OccursAt(s, PREFIX, i)
    ensures NoPrefix(s[..pos])
  {
    forall i: nat
      ensures !OccursAt(s[..pos], "@@IMAGE:", i)
    {
      if i + 8 <= pos { assert s[..pos][i..i + 8] == s[i..i + 8] && !OccursAt(s, PREFIX, i); }
    }
  }

  lemma {:induction false} WordsBefore(text: string, pieces: seq<Piece>, open: Option<string>)
    requires |text| > 0 && NoPrefix(text) && Good(pieces, open) && (|pieces| > 0 ==> pieces[0].Inner?)
    ensures Good([Words(text)] + pieces, open)
  {
    var all := [Words(text)] + pieces;
    assert GoodPiece(Words(text));
    forall k | 0 <= k < |all| - 1
      ensures !(all[k].Words? && all[k + 1].Words?)
    {
      if k > 0 { assert !(pieces[k - 1].Words? && pieces[k].Words?); }
    }
  }

  /**
   What any user text is decoded to: the blocks of its pieces in order, an open sentinel as text, and the
   text itself if that leaves nothing.
   */
  lemma {:induction false} DecodeIs(text: string) returns (pieces: seq<Piece>, open: Option<string>)
    ensures Good(pieces, open) && Show(pieces, open) == text
    ensures Means(pieces, open, if Means(pieces, open, []) then [] else Decode(text))
    ensures Means(pieces, open, []) ==> Decode(text) == [Text(text)]
  {
    pieces, open := EveryTextIsPieces(text);
    PiecesDecode(pieces, open);
    MeaningIsUnique(pieces, open, Blocks(text), []);
    if Find(text, PREFIX).None? && |Blocks(text)| > 0 { assert Blocks(text) == Decode(text); }
  }

  lemma {:induction false} BlocksUnique(p: Piece, a: seq<ContentBlock>, b: seq<ContentBlock>)
    requires BlocksOf(p, a) && BlocksOf(p, b)
    ensures a == b
  {
    if p.Inner? && ':' in p.payload {
      var x, y := a[0].mediaType, b[0].mediaType;
      assert p.payload[|x|] == ':' && p.payload[|y|] == ':';
      assert x == p.payload[..|x|] && y == p.payload[..|y|];
      assert a[0].data == p.payload[|x| + 1..] && b[0].data == p.payload[|y| + 1..];
    }
  }

  /** The pieces determine the blocks. */
  lemma {:induction false} MeaningIsUnique(pieces: seq<Piece>, open: Option<string>, a: seq<ContentBlock>,
                                           b: seq<ContentBlock>)
    requires Means(pieces, open, a)
    ensures Means(pieces, open, b) <==> a == b
  {
    hide BlocksOf;
    if |pieces| > 0 && Means(pieces, open, b) {
      var m: nat :| m <= |a| && BlocksOf(pieces[0], a[..m]) && Means(pieces[1..], open, a[m..]);
      var n: nat :| n <= |b| && BlocksOf(pieces[0], b[..n]) && Means(pieces[1..], open, b[n..]);
      BlocksUnique(pieces[0], a[..m], b[..n]);
      MeaningIsUnique(pieces[1..], open, a[m..], b[n..]);
      assert a == a[..m] + a[m..] && b == b[..n] + b[n..];
    }
  }
}
