/** The reverse paragraph splitter of src/client/features/chat/working-paragraphs.ts. */
module WorkingParagraphs {
  import opened Wrappers

  /** Top-level lexer tokens: only spaces and headings are special. */
  datatype Kind = Space | Heading | Block
  datatype Token = Token(kind: Kind, raw: string)
  datatype Paragraph = Paragraph(offset: nat, text: string)

  /** The source text the tokens came from. */
  function Source(tokens: seq<Token>): string {
    if tokens == [] then "" else Source(tokens[..|tokens| - 1]) + tokens[|tokens| - 1].raw
  }

  // ----- Which tokens make which paragraph -----

  /** Paragraphs as token ranges in source order, and where the pending heading began. */
  datatype Scan = Scan(ranges: seq<(nat, nat)>, heading: Option<nat>)

  function ScanTokens(tokens: seq<Token>): Scan {
    if tokens == [] then Scan([], None)
    else ScanNext(ScanTokens(tokens[..|tokens| - 1]), |tokens| - 1, tokens[|tokens| - 1].kind)
  }

  function ScanNext(s: Scan, k: nat, kind: Kind): Scan {
    match kind
    case Space => s
    case Heading => if s.heading.Some? then s else s.(heading := Some(k))
    case Block => Scan(s.ranges + [(s.heading.GetOr(k), k + 1)], None)
  }

  function Ranges(tokens: seq<Token>): seq<(nat, nat)> {
    var s := ScanTokens(tokens);
    if s.heading.Some? then s.ranges + [(s.heading.value, |tokens|)] else s.ranges
  }

  function ParagraphOf(tokens: seq<Token>, range: (nat, nat)): Paragraph
    requires range.0 <= range.1 <= |tokens|
  {
    Paragraph(|Source(tokens[..range.0])|, Source(tokens[range.0..range.1]))
  }

  /** Ordered, disjoint, non-empty and within the first n tokens. */
  predicate Ordered(ranges: seq<(nat, nat)>, n: nat) {
    && (forall i | 0 <= i < |ranges| :: ranges[i].0 < ranges[i].1 <= n)
    && (forall i, j | 0 <= i < j < |ranges| :: ranges[i].1 <= ranges[j].0)
  }

  /** A heading is waiting for the block it introduces just before token k. */
  predicate HeadingPending(tokens: seq<Token>, k: nat)
    requires k <= |tokens|
  {
    exists h | 0 <= h < k :: tokens[h].kind == Heading && forall i | h < i < k :: tokens[i].kind != Block
  }

  predicate Covered(ranges: seq<(nat, nat)>, k: nat) {
    exists i | 0 <= i < |ranges| :: ranges[i].0 <= k < ranges[i].1
  }

  /** The scan knows exactly when a heading is pending, and where its run of headings began. */
  lemma {:induction false} HeadingShape(tokens: seq<Token>)
    ensures var heading := ScanTokens(tokens).heading;
      && (heading.Some? <==> HeadingPending(tokens, |tokens|))
      && (heading.Some? ==>
            && heading.value < |tokens| && tokens[heading.value].kind == Heading
            && (forall i | heading.value <= i < |tokens| :: tokens[i].kind != Block))
  {
    if tokens != [] {
      var before := tokens[..|tokens| - 1];
      HeadingShape(before);
      if tokens[|tokens| - 1].kind == Space && HeadingPending(before, |before|) {
        var h :| 0 <= h < |before| && before[h].kind == Heading && forall i | h < i < |before| :: before[i].kind != Block;
        assert tokens[h].kind == Heading;
      }
    }
  }

  lemma {:induction false} ScanOrdered(tokens: seq<Token>)
    ensures var s := ScanTokens(tokens);
      && Ordered(s.ranges, |tokens|)
      && (s.heading.Some? ==> Ordered(s.ranges, s.heading.value))
  {
    if tokens != [] {
      HeadingShape(tokens[..|tokens| - 1]);
      ScanOrdered(tokens[..|tokens| - 1]);
    }
  }

  lemma {:induction false} ScanCovers(tokens: seq<Token>, k: nat)
    requires k < |tokens|
    requires var s := ScanTokens(tokens); s.heading.Some? ==> k < s.heading.value
    ensures Covered(ScanTokens(tokens).ranges, k) <==> tokens[k].kind != Space || HeadingPending(tokens, k)
  {
    var n := |tokens| - 1;
    var before := tokens[..n];
    var s := ScanTokens(before);
    HeadingShape(before);
    ScanOrdered(before);
    assert forall j | 0 <= j <= n :: HeadingPending(before, j) <==> HeadingPending(tokens, j);
    if k < n && (s.heading.Some? ==> k < s.heading.value) {
      ScanCovers(before, k);
    }
    if tokens[n].kind == Block {
      var range := (s.heading.GetOr(n), n + 1);
      CoveredByLast(s.ranges, range, k);
      if s.heading.Some? && s.heading.value <= k < n {
        if s.heading.value < k { assert HeadingPending(tokens, k); }
      }
    } else if k == n {
      assert !Covered(s.ranges, k);
    }
  }

  lemma CoveredByLast(ranges: seq<(nat, nat)>, last: (nat, nat), k: nat)
    ensures Covered(ranges + [last], k) <==> Covered(ranges, k) || last.0 <= k < last.1
  {
    var all := ranges + [last];
    assert all[|ranges|] == last;
    if Covered(ranges, k) {
      var i :| 0 <= i < |ranges| && ranges[i].0 <= k < ranges[i].1;
      assert all[i].0 <= k < all[i].1;
    }
  }

  /**
    The paragraphs partition the tokens: ranges are ordered and disjoint, and a token is in one
    exactly when it is no space, or a space that follows a pending heading.
  */
  lemma ParagraphsPartition(tokens: seq<Token>)
    ensures Ordered(Ranges(tokens), |tokens|)
    ensures forall k: nat | k < |tokens| ::
      Covered(Ranges(tokens), k) <==> tokens[k].kind != Space || HeadingPending(tokens, k)
  {
    RangesOrdered(tokens);
    forall k: nat | k < |tokens|
      ensures Covered(Ranges(tokens), k) <==> tokens[k].kind != Space || HeadingPending(tokens, k)
    {
      RangesCover(tokens, k);
    }
  }

  lemma RangesOrdered(tokens: seq<Token>)
    ensures Ordered(Ranges(tokens), |tokens|)
  {
    HeadingShape(tokens);
    ScanOrdered(tokens);
  }

  lemma RangesCover(tokens: seq<Token>, k: nat)
    requires k < |tokens|
    ensures Covered(Ranges(tokens), k) <==> tokens[k].kind != Space || HeadingPending(tokens, k)
  {
    var heading := ScanTokens(tokens).heading;
    HeadingShape(tokens);
    if heading.Some? {
      CoveredByLast(ScanTokens(tokens).ranges, (heading.value, |tokens|), k);
    }
    if heading.Some? && heading.value <= k {
      if heading.value < k { assert HeadingPending(tokens, k); }
    } else {
      ScanCovers(tokens, k);
    }
  }

  /** Every paragraph holds at most one block, its last token; the rest are its headings and spaces. */
  lemma {:induction false} ParagraphsEndAtBlocks(tokens: seq<Token>, i: nat, k: nat)
    requires i < |Ranges(tokens)| && Ranges(tokens)[i].0 <= k && k + 1 < Ranges(tokens)[i].1
    ensures k < |tokens| && tokens[k].kind != Block
  {
    HeadingShape(tokens);
    ScanOrdered(tokens);
    var s := ScanTokens(tokens);
    if i < |s.ranges| {
      var n := |tokens| - 1;
      var before := ScanTokens(tokens[..n]);
      if i < |before.ranges| {
        assert s.ranges[i] == before.ranges[i] == Ranges(tokens[..n])[i];
        ParagraphsEndAtBlocks(tokens[..n], i, k);
      } else {
        HeadingShape(tokens[..n]);
        assert tokens[k] == tokens[..n][k];
      }
    }
  }

  /** A paragraph ends behind a block, or with the text: headings never end one. */
  lemma {:induction false} ParagraphsEndOnlyThere(tokens: seq<Token>, i: nat)
    requires i < |Ranges(tokens)|
    ensures var end := Ranges(tokens)[i].1;
      1 <= end <= |tokens| && (tokens[end - 1].kind == Block || end == |tokens|)
  {
    HeadingShape(tokens);
    ScanOrdered(tokens);
    var s := ScanTokens(tokens);
    if i < |s.ranges| {
      BlocksEndRanges(tokens, i);
    }
  }

  lemma {:induction false} BlocksEndRanges(tokens: seq<Token>, i: nat)
    requires i < |ScanTokens(tokens).ranges|
    ensures var end := ScanTokens(tokens).ranges[i].1; 1 <= end <= |tokens| && tokens[end - 1].kind == Block
  {
    var before := tokens[..|tokens| - 1];
    if i < |ScanTokens(before).ranges| {
      BlocksEndRanges(before, i);
    }
  }

  // ----- Offsets in the source -----

  lemma {:induction false} SourceSplit(tokens: seq<Token>, k: nat)
    requires k <= |tokens|
    ensures Source(tokens) == Source(tokens[..k]) + Source(tokens[k..])
  {
    if k == |tokens| {
      assert tokens[..k] == tokens;
    } else {
      var n := |tokens| - 1;
      SourceSplit(tokens[..n], k);
      assert tokens[..n][..k] == tokens[..k];
      assert tokens[..n][k..] == tokens[k..][..|tokens[k..]| - 1];
    }
  }

  lemma SourceOfRange(tokens: seq<Token>, range: (nat, nat))
    requires range.0 <= range.1 <= |tokens|
    ensures Source(tokens[..range.1]) == Source(tokens[..range.0]) + Source(tokens[range.0..range.1])
  {
    SourceSplit(tokens[..range.1], range.0);
    assert tokens[..range.1][..range.0] == tokens[..range.0];
    assert tokens[..range.1][range.0..] == tokens[range.0..range.1];
  }

  /** A paragraph is the piece of the source at its offset. */
  lemma ParagraphIsSubstring(tokens: seq<Token>, range: (nat, nat))
    requires range.0 <= range.1 <= |tokens|
    ensures var p := ParagraphOf(tokens, range);
      && p.offset == |Source(tokens[..range.0])|
      && p.offset + |p.text| == |Source(tokens[..range.1])| <= |Source(tokens)|
      && Source(tokens)[p.offset..p.offset + |p.text|] == p.text
  {
    SourceOfRange(tokens, range);
    SourceSplit(tokens, range.1);
  }

  lemma EarlierEndsBefore(tokens: seq<Token>, a: nat, b: nat)
    requires a <= b <= |tokens|
    ensures |Source(tokens[..a])| <= |Source(tokens[..b])|
  {
    SourceOfRange(tokens, (a, b));
  }

  /** How the scan's paragraphs take in token k, alone and behind a pending heading. */
  lemma TokenAdded(tokens: seq<Token>, k: nat)
    requires k < |tokens|
    ensures ScanTokens(tokens[..k + 1]) == ScanNext(ScanTokens(tokens[..k]), k, tokens[k].kind)
    ensures |Source(tokens[..k + 1])| == |Source(tokens[..k])| + |tokens[k].raw|
    ensures ParagraphOf(tokens, (k, k + 1)) == Paragraph(|Source(tokens[..k])|, tokens[k].raw)
    ensures var s := ScanTokens(tokens[..k]);
      && Ordered(ScanTokens(tokens[..k + 1]).ranges, k + 1)
      && (s.heading.Some? ==>
            && s.heading.value < k
            && ParagraphOf(tokens, (s.heading.value, k + 1))
               == Paragraph(|Source(tokens[..s.heading.value])|, Source(tokens[s.heading.value..k]) + tokens[k].raw))
  {
    assert tokens[..k + 1][..k] == tokens[..k];
    SourceOfRange(tokens, (k, k + 1));
    assert tokens[k..k + 1] == [tokens[k]] && [tokens[k]][..0] == [];
    HeadingShape(tokens[..k]);
    ScanOrdered(tokens[..k + 1]);
    var heading := ScanTokens(tokens[..k]).heading;
    if heading.Some? {
      var run := tokens[heading.value..k + 1];
      assert run[..|run| - 1] == tokens[heading.value..k];
    }
  }

  // ----- The splitter -----

  /** Range j counted from the newest. */
  function Newest(ranges: seq<(nat, nat)>, j: nat): (nat, nat)
    requires j < |ranges|
  {
    ranges[|ranges| - 1 - j]
  }

  /** Each result is the source substring at its offset; results are disjoint, newest first. */
  predicate NewestFirst(source: string, paragraphs: seq<Paragraph>) {
    && (forall i | 0 <= i < |paragraphs| ::
          && paragraphs[i].offset + |paragraphs[i].text| <= |source|
          && source[paragraphs[i].offset..paragraphs[i].offset + |paragraphs[i].text|] == paragraphs[i].text)
    && (forall i, j | 0 <= i < j < |paragraphs| ::
          paragraphs[j].offset + |paragraphs[j].text| <= paragraphs[i].offset)
  }

  /** The token loop, before the final reversal. */
  method SplitParagraphs(tokens: seq<Token>) returns (paragraphs: seq<Paragraph>)
    ensures |paragraphs| == |Ranges(tokens)| && Ordered(Ranges(tokens), |tokens|)
    ensures forall i | 0 <= i < |paragraphs| :: paragraphs[i] == ParagraphOf(tokens, Ranges(tokens)[i])
  {
    paragraphs := [];
    var offset: nat := 0;
    var heading: Option<Paragraph> := None;
    for k := 0 to |tokens|
      invariant Tracks(tokens, k, paragraphs, offset, heading)
    {
      var token := tokens[k];
      var start := offset;
      ghost var earlier, pending := paragraphs, heading;
      offset := offset + |token.raw|;
      if token.kind == Space {
        if heading.Some? {
          heading := Some(heading.value.(text := heading.value.text + token.raw));
        }
      } else if token.kind == Heading {
        if heading.Some? {
          heading := Some(heading.value.(text := heading.value.text + token.raw));
        } else {
          heading := Some(Paragraph(start, token.raw));
        }
      } else {
        var paragraph := if heading.Some?
          then Paragraph(heading.value.offset, heading.value.text + token.raw)
          else Paragraph(start, token.raw);
        paragraphs := paragraphs + [paragraph];
        heading := None;
      }
      TracksNext(tokens, k, earlier, start, pending, paragraphs, heading);
    }
    assert tokens[..|tokens|] == tokens;
    RangesOrdered(tokens);
    if heading.Some? {
      paragraphs := paragraphs + [heading.value];
    }
  }

  method NewestFirstWorkingParagraphs(tokens: seq<Token>) returns (r: seq<Paragraph>)
    ensures |r| == |Ranges(tokens)| && Ordered(Ranges(tokens), |tokens|)
    ensures forall j | 0 <= j < |r| :: r[j] == ParagraphOf(tokens, Newest(Ranges(tokens), j))
    ensures NewestFirst(Source(tokens), r)
  {
    var paragraphs := SplitParagraphs(tokens);
    r := seq(|paragraphs|, j requires 0 <= j < |paragraphs| => paragraphs[|paragraphs| - 1 - j]);
    RangesNewestFirst(tokens, r);
  }

  /** The loop state after k tokens, in terms of the scan. */
  ghost predicate Tracks(tokens: seq<Token>, k: nat, paragraphs: seq<Paragraph>, offset: nat, heading: Option<Paragraph>) {
    && k <= |tokens|
    && offset == |Source(tokens[..k])|
    && (var s := ScanTokens(tokens[..k]);
        && Ordered(s.ranges, k) && |paragraphs| == |s.ranges|
        && (forall i | 0 <= i < |paragraphs| :: paragraphs[i] == ParagraphOf(tokens, s.ranges[i]))
        && (s.heading.Some? ==> s.heading.value < k)
        && heading == (if s.heading.Some? then Some(ParagraphOf(tokens, (s.heading.value, k))) else None))
  }

  lemma TracksNext(tokens: seq<Token>, k: nat, paragraphs: seq<Paragraph>, offset: nat, heading: Option<Paragraph>,
                   paragraphs': seq<Paragraph>, heading': Option<Paragraph>)
    requires k < |tokens| && Tracks(tokens, k, paragraphs, offset, heading)
    requires
      var raw := tokens[k].raw;
      var run := if heading.Some? then Paragraph(heading.value.offset, heading.value.text + raw) else Paragraph(offset, raw);
      match tokens[k].kind
      case Space => paragraphs' == paragraphs && heading' == if heading.Some? then Some(run) else None
      case Heading => paragraphs' == paragraphs && heading' == Some(run)
      case Block => paragraphs' == paragraphs + [run] && heading'.None?
    ensures Tracks(tokens, k + 1, paragraphs', offset + |tokens[k].raw|, heading')
  {
    TokenAdded(tokens, k);
  }

  lemma RangesNewestFirst(tokens: seq<Token>, r: seq<Paragraph>)
    requires |r| == |Ranges(tokens)| && Ordered(Ranges(tokens), |tokens|)
    requires forall j | 0 <= j < |r| :: r[j] == ParagraphOf(tokens, Newest(Ranges(tokens), j))
    ensures NewestFirst(Source(tokens), r)
  {
    forall i | 0 <= i < |r|
      ensures r[i].offset + |r[i].text| == |Source(tokens[..Newest(Ranges(tokens), i).1])| <= |Source(tokens)|
      ensures Source(tokens)[r[i].offset..r[i].offset + |r[i].text|] == r[i].text
    {
      ParagraphIsSubstring(tokens, Newest(Ranges(tokens), i));
    }
    forall i, j | 0 <= i < j < |r| ensures r[j].offset + |r[j].text| <= r[i].offset {
      EarlierEndsBefore(tokens, Newest(Ranges(tokens), j).1, Newest(Ranges(tokens), i).0);
    }
  }
}
