/** The whitespace normalisation pass of postprocess.py
    (`space_normalize` and its helpers). */
module PostprocessPasses {
  import opened Wrappers
  import opened PyStr
  import opened Internal
  import opened Postprocess
  import opened Seqs
  import HtmlParser

  // ---------------------------------------------------------------------
  // space_normalize

  /** `(REAL_BLOCK_TAG, _, _)`: a block element other than a footnote. */
  predicate RealBlock(n: Node)
  {
    n.Elem? && n.tag in BLOCK_TAGS && n.tag != ".footnote"
  }

  /** `es[j:j+1] == [(REAL_BLOCK_TAG, _, _)]`. */
  predicate RealBlockAt(es: seq<Node>, j: int)
  {
    0 <= j < |es| && RealBlock(es[j])
  }

  /** The string case of `_space_normalize1`: fold, then strip as asked
      (`FoldStrip`), with the flag that says whether the next item may be
      left-stripped (`NextLStrip`). */
  function NormalizeText(s: string, lstrip: bool, rstrip: bool): (string, bool)
  {
    var t := FoldStrip(s, lstrip, rstrip);
    (t, NextLStrip(t, lstrip))
  }

  /** `not s and lstrip or bool(re.search('[\n\r\t ]$', s))` on a folded
      string. */
  function NextLStrip(t: string, lstrip: bool): (b: bool)
    requires Folded(t)
    ensures b <==> (|t| == 0 && lstrip) || (|t| > 0 && t[|t| - 1] == ' ')
  {
    if |t| > 0 then
      FoldedLast(t);
      IsFoldSpace(t[|t| - 1])
    else lstrip
  }

  /** The string of `NormalizeText`: folded, then stripped as asked. */
  function FoldStrip(s: string, lstrip: bool, rstrip: bool): (r: string)
    ensures Folded(r) && Visible(r) == Visible(s)
    ensures lstrip ==> NoLeadSpace(r)
    ensures rstrip ==> NoTrailSpace(r)
  {
    VisibleCollapse(s);
    var s2 := StripIf(CollapseSpace(s), lstrip, true);
    var s3 := StripIf(s2, rstrip, false);
    assert |s3| > 0 ==> s3[0] == s2[0];
    s3
  }

  /** Empty, or not starting with whitespace. */
  predicate NoLeadSpace(s: string) { |s| > 0 ==> !IsSpace(s[0]) }

  /** Empty, or not ending in whitespace. */
  predicate NoTrailSpace(s: string) { |s| > 0 ==> !IsSpace(s[|s| - 1]) }

  /** A conditional `lstrip` (`left`) or `rstrip`. */
  function StripIf(s: string, strip: bool, left: bool): (r: string)
    requires Folded(s)
    ensures Folded(r) && Visible(r) == Visible(s)
    ensures strip && left ==> NoLeadSpace(r)
    ensures strip && !left ==> NoTrailSpace(r)
    ensures !left ==> |r| <= |s| && r == s[..|r|]
  {
    if !strip then s
    else if left then (LStripFolded(s); VisibleStrip(s); LStrip(s))
    else (RStripFolded(s); VisibleStrip(s); RStrip(s))
  }

  lemma FoldedLast(s: string)
    requires Folded(s) && |s| > 0
    ensures IsFoldSpace(s[|s| - 1]) <==> s[|s| - 1] == ' '
  {
    var c := s[|s| - 1];
    assert c != '\n' && c != '\r' && c != '\t';
  }

  /** `_space_normalize1(e, lstrip, rstrip)`. */
  function SpaceNormalize1(e: Node, lstrip: bool, rstrip: bool): (Node, bool)
    decreases e, 1
  {
    match e
    case Text(s) =>
      var t := NormalizeText(s, lstrip, rstrip);
      (Text(t.0), t.1)
    case Elem(h, a, b) =>
      if h == "pre" then (e, true)
      else
        var blockEl := h in BLOCK_TAGS;
        var nb := SpaceNormalizeFrom(b, 0, lstrip, rstrip, blockEl);
        (Elem(h, a, nb.0), nb.1 || (blockEl && h != ".footnote"))
  }

  /** Empty strings are dropped from the result (`if new_e`). */
  predicate Dropped(n: Node) { n.Text? && n.text == "" }

  /** The loop of `_space_normalize(es, lstrip, rstrip, parent_was_block_el)`
      from index `i` on: the first item is left-stripped inside a block, the
      last one right-stripped inside a block, and so is every item followed
      by a real block element. */
  function SpaceNormalizeFrom(es: seq<Node>, i: nat, lstrip: bool, rstrip: bool, parentBlock: bool): (seq<Node>, bool)
    requires i <= |es|
    decreases es, |es| - i
  {
    if i == |es| then ([], lstrip)
    else
      var ne := SpaceNormalize1(es[i], L0(lstrip, parentBlock, i), R0(es, i, rstrip, parentBlock));
      var rest := SpaceNormalizeFrom(es, i + 1, ne.1, rstrip, parentBlock);
      (if Dropped(ne.0) then rest.0 else [ne.0] + rest.0, rest.1)
  }

  /** Item `i` is left-stripped when asked to or when it is the first item
      of a block. */
  function L0(lstrip: bool, parentBlock: bool, i: nat): bool
  {
    lstrip || (parentBlock && i == 0)
  }

  /** Item `i` is right-stripped when it is the last item and asked to or in
      a block, and when a real block element follows it. */
  function R0(es: seq<Node>, i: nat, rstrip: bool, parentBlock: bool): bool
  {
    ((rstrip || parentBlock) && i == |es| - 1) || RealBlockAt(es, i + 1)
  }

  /** One turn of the loop. */
  lemma FromItem(es: seq<Node>, i: nat, lstrip: bool, rstrip: bool, parentBlock: bool)
    requires i < |es|
    ensures var ne := SpaceNormalize1(es[i], L0(lstrip, parentBlock, i), R0(es, i, rstrip, parentBlock));
      var rest := SpaceNormalizeFrom(es, i + 1, ne.1, rstrip, parentBlock);
      SpaceNormalizeFrom(es, i, lstrip, rstrip, parentBlock) == (if Dropped(ne.0) then rest.0 else [ne.0] + rest.0, rest.1)
  {
  }

  /** `space_normalize(es)`. */
  function SpaceNormalize(es: seq<Node>): seq<Node>
  {
    SpaceNormalizeFrom(es, 0, false, false, false).0
  }

  /** The elements of a body without its text, `pre` subtrees kept whole. */
  function Skeleton(b: seq<Node>): seq<Node>
    decreases b
  {
    if b == [] then [] else SkeletonOf(b[0]) + Skeleton(b[1..])
  }

  function SkeletonOf(n: Node): seq<Node>
    decreases n
  {
    match n
    case Text(_) => []
    case Elem(h, a, c) => [if h == "pre" then n else Elem(h, a, Skeleton(c))]
  }

  /** The non-whitespace characters of all text of a body, in order. */
  function VisibleText(b: seq<Node>): string
    decreases b
  {
    if b == [] then [] else VisibleOf(b[0]) + VisibleText(b[1..])
  }

  function VisibleOf(n: Node): string
    decreases n
  {
    match n
    case Text(s) => Visible(s)
    case Elem(_, _, c) => VisibleText(c)
  }

  /** Every string outside `pre` is non-empty and folded. */
  ghost predicate NormalBody(b: seq<Node>)
    decreases b
  {
    b == [] || (NormalNode(b[0]) && NormalBody(b[1..]))
  }

  ghost predicate NormalNode(n: Node)
    decreases n
  {
    match n
    case Text(s) => s != "" && Folded(s)
    case Elem(h, _, c) => h == "pre" || NormalBody(c)
  }

  lemma SplitAt(es: seq<Node>, i: nat)
    requires i < |es|
    ensures es[i..] == [es[i]] + es[i + 1..]
    ensures es[i..][0] == es[i] && es[i..][1..] == es[i + 1..]
  {
  }

  lemma ConsParts(x: Node, rest: seq<Node>)
    ensures ([x] + rest)[0] == x && ([x] + rest)[1..] == rest
  {
  }

  /** space_normalize changes only text: the elements, their tags, their
      attributes and every `pre` subtree are kept. */
  lemma {:induction false} SpaceNormalize1Skeleton(e: Node, lstrip: bool, rstrip: bool)
    ensures SkeletonOf(SpaceNormalize1(e, lstrip, rstrip).0) == SkeletonOf(e)
    ensures e.Elem? ==> SpaceNormalize1(e, lstrip, rstrip).0.Elem?
    decreases e, 1
  {
    if e.Elem? && e.tag != "pre" {
      SpaceNormalizeFromSkeleton(e.body, 0, lstrip, rstrip, e.tag in BLOCK_TAGS);
      assert e.body[0..] == e.body;
    }
  }

  lemma {:induction false} SpaceNormalizeFromSkeleton(es: seq<Node>, i: nat, lstrip: bool, rstrip: bool, parentBlock: bool)
    requires i <= |es|
    ensures Skeleton(SpaceNormalizeFrom(es, i, lstrip, rstrip, parentBlock).0) == Skeleton(es[i..])
    decreases es, |es| - i
  {
    if i < |es| {
      var l0 := L0(lstrip, parentBlock, i);
      var r0 := R0(es, i, rstrip, parentBlock);
      var (ne, l) := SpaceNormalize1(es[i], l0, r0);
      SpaceNormalize1Skeleton(es[i], l0, r0);
      SpaceNormalizeFromSkeleton(es, i + 1, l, rstrip, parentBlock);
      SplitAt(es, i);
      var rest := SpaceNormalizeFrom(es, i + 1, l, rstrip, parentBlock).0;
      if !Dropped(ne) {
        ConsParts(ne, rest);
      }
    }
  }

  lemma SpaceNormalizeKeepsSkeleton(es: seq<Node>)
    ensures Skeleton(SpaceNormalize(es)) == Skeleton(es)
  {
    SpaceNormalizeFromSkeleton(es, 0, false, false, false);
    assert es[0..] == es;
  }

  /** space_normalize changes only whitespace: the visible characters of the
      text are kept, in order. */
  lemma {:induction false} SpaceNormalize1Visible(e: Node, lstrip: bool, rstrip: bool)
    ensures VisibleOf(SpaceNormalize1(e, lstrip, rstrip).0) == VisibleOf(e)
    decreases e, 1
  {
    if e.Elem? && e.tag != "pre" {
      SpaceNormalizeFromVisible(e.body, 0, lstrip, rstrip, e.tag in BLOCK_TAGS);
      assert e.body[0..] == e.body;
    }
  }

  lemma {:induction false} SpaceNormalizeFromVisible(es: seq<Node>, i: nat, lstrip: bool, rstrip: bool, parentBlock: bool)
    requires i <= |es|
    ensures VisibleText(SpaceNormalizeFrom(es, i, lstrip, rstrip, parentBlock).0) == VisibleText(es[i..])
    decreases es, |es| - i
  {
    if i < |es| {
      var l0 := L0(lstrip, parentBlock, i);
      var r0 := R0(es, i, rstrip, parentBlock);
      var (ne, l) := SpaceNormalize1(es[i], l0, r0);
      SpaceNormalize1Visible(es[i], l0, r0);
      SpaceNormalizeFromVisible(es, i + 1, l, rstrip, parentBlock);
      SplitAt(es, i);
      var rest := SpaceNormalizeFrom(es, i + 1, l, rstrip, parentBlock).0;
      if Dropped(ne) {
        assert VisibleOf(ne) == "";
      } else {
        ConsParts(ne, rest);
      }
    }
  }

  lemma SpaceNormalizeKeepsVisibleText(es: seq<Node>)
    ensures VisibleText(SpaceNormalize(es)) == VisibleText(es)
  {
    SpaceNormalizeFromVisible(es, 0, false, false, false);
    assert es[0..] == es;
  }

  /** Outside `pre`, every string of the result is non-empty and folded. */
  lemma {:induction false} SpaceNormalize1Normal(e: Node, lstrip: bool, rstrip: bool)
    ensures var ne := SpaceNormalize1(e, lstrip, rstrip).0; Dropped(ne) || NormalNode(ne)
    decreases e, 1
  {
    if e.Elem? && e.tag != "pre" {
      SpaceNormalizeFromNormal(e.body, 0, lstrip, rstrip, e.tag in BLOCK_TAGS);
    }
  }

  lemma {:induction false} SpaceNormalizeFromNormal(es: seq<Node>, i: nat, lstrip: bool, rstrip: bool, parentBlock: bool)
    requires i <= |es|
    ensures NormalBody(SpaceNormalizeFrom(es, i, lstrip, rstrip, parentBlock).0)
    decreases es, |es| - i
  {
    if i < |es| {
      var l0 := L0(lstrip, parentBlock, i);
      var r0 := R0(es, i, rstrip, parentBlock);
      var (ne, l) := SpaceNormalize1(es[i], l0, r0);
      SpaceNormalize1Normal(es[i], l0, r0);
      SpaceNormalizeFromNormal(es, i + 1, l, rstrip, parentBlock);
      var rest := SpaceNormalizeFrom(es, i + 1, l, rstrip, parentBlock).0;
      if !Dropped(ne) {
        ConsParts(ne, rest);
      }
    }
  }

  lemma SpaceNormalizeFolds(es: seq<Node>)
    ensures NormalBody(SpaceNormalize(es))
  {
    SpaceNormalizeFromNormal(es, 0, false, false, false);
  }

  /** Inside a block element the first string of the result has no leading
      whitespace: a first string that strips to nothing is dropped and passes
      the left-strip on. */
  lemma {:induction false} LeadingTextStripped(es: seq<Node>, i: nat, lstrip: bool, rstrip: bool, parentBlock: bool)
    requires i <= |es| && L0(lstrip, parentBlock, i)
    ensures HeadLStripped(SpaceNormalizeFrom(es, i, lstrip, rstrip, parentBlock).0)
    decreases |es| - i
  {
    if i < |es| {
      var dropped, next := LeadStep(es, i, lstrip, rstrip, parentBlock);
      if dropped {
        LeadingTextStripped(es, i + 1, next, rstrip, parentBlock);
      }
    } else {
      FromEnd(es, i, lstrip, rstrip, parentBlock);
    }
  }

  /** One left-stripped item: kept, it heads the result and is stripped;
      dropped, it passes the left-strip on. */
  lemma LeadStep(es: seq<Node>, i: nat, lstrip: bool, rstrip: bool, parentBlock: bool) returns (dropped: bool, next: bool)
    requires i < |es| && L0(lstrip, parentBlock, i)
    ensures dropped ==> (L0(next, parentBlock, i + 1) &&
      (HeadLStripped(SpaceNormalizeFrom(es, i + 1, next, rstrip, parentBlock).0) ==>
       HeadLStripped(SpaceNormalizeFrom(es, i, lstrip, rstrip, parentBlock).0)))
    ensures !dropped ==> HeadLStripped(SpaceNormalizeFrom(es, i, lstrip, rstrip, parentBlock).0)
  {
    var r0 := R0(es, i, rstrip, parentBlock);
    var p := SpaceNormalize1(es[i], true, r0);
    LeftStripped(es[i], r0);
    FromItem(es, i, lstrip, rstrip, parentBlock);
    var rest := SpaceNormalizeFrom(es, i + 1, p.1, rstrip, parentBlock).0;
    dropped, next := Dropped(p.0), p.1;
    if !dropped {
      LStrippedHead([p.0] + rest, rest, p.0);
    }
  }

  /** The loop ends with no items and the flag it was given. */
  lemma FromEnd(es: seq<Node>, i: nat, lstrip: bool, rstrip: bool, parentBlock: bool)
    requires i == |es|
    ensures SpaceNormalizeFrom(es, i, lstrip, rstrip, parentBlock) == ([], lstrip)
  {
  }

  /** If the list starts with a string, that string is non-empty and has
      no leading whitespace. */
  predicate HeadLStripped(out: seq<Node>)
  {
    out != [] && out[0].Text? ==> |out[0].text| > 0 && !IsSpace(out[0].text[0])
  }

  lemma LStrippedHead(out: seq<Node>, rest: seq<Node>, n: Node)
    requires out == [n] + rest && (n.Text? ==> |n.text| > 0 && !IsSpace(n.text[0]))
    ensures HeadLStripped(out)
  {
    assert out[0] == n;
  }

  /** A left-stripped item is an element, a string without leading
      whitespace, or dropped, and then it passes the left-strip on. */
  lemma LeftStripped(e: Node, rstrip: bool)
    ensures var p := SpaceNormalize1(e, true, rstrip);
      (e.Elem? ==> p.0.Elem?) && (p.0.Text? && !Dropped(p.0) ==> |p.0.text| > 0 && !IsSpace(p.0.text[0])) &&
      (Dropped(p.0) ==> p.1)
  {
  }

  lemma BlockFirstTextStripped(h: string, a: WAttrs, b: seq<Node>, lstrip: bool, rstrip: bool)
    requires h in BLOCK_TAGS && h != "pre"
    ensures var out := SpaceNormalize1(Elem(h, a, b), lstrip, rstrip).0;
      out.Elem? && (out.body != [] && out.body[0].Text? ==> |out.body[0].text| > 0 && !IsSpace(out.body[0].text[0]))
  {
    LeadingTextStripped(b, 0, lstrip, rstrip, true);
  }

  /** The last item of a block is right-stripped: when it is a string with
      visible characters, the result ends in that string, without trailing
      whitespace. */
  lemma {:induction false} TrailingTextStripped(es: seq<Node>, i: nat, lstrip: bool, rstrip: bool, parentBlock: bool)
    requires i < |es| && es[|es| - 1].Text? && Visible(es[|es| - 1].text) != ""
    requires rstrip || parentBlock
    ensures LastRStripped(SpaceNormalizeFrom(es, i, lstrip, rstrip, parentBlock).0)
    decreases |es| - i
  {
    var p := SpaceNormalize1(es[i], L0(lstrip, parentBlock, i), R0(es, i, rstrip, parentBlock));
    FromItem(es, i, lstrip, rstrip, parentBlock);
    var rest := SpaceNormalizeFrom(es, i + 1, p.1, rstrip, parentBlock).0;
    if i == |es| - 1 {
      LastItemRStripped(es, i, lstrip, rstrip, parentBlock);
      assert rest == [];
      RStrippedLast([p.0] + rest, p.0);
    } else {
      TrailingTextStripped(es, i + 1, p.1, rstrip, parentBlock);
      if !Dropped(p.0) {
        LastOfCons(p.0, rest);
      }
    }
  }

  /** The list is non-empty and ends in a string without trailing
      whitespace. */
  predicate LastRStripped(out: seq<Node>)
  {
    out != [] && out[|out| - 1].Text? && |out[|out| - 1].text| > 0 &&
    !IsSpace(out[|out| - 1].text[|out[|out| - 1].text| - 1])
  }

  lemma LastItemRStripped(es: seq<Node>, i: nat, lstrip: bool, rstrip: bool, parentBlock: bool)
    requires i == |es| - 1 && es[i].Text? && Visible(es[i].text) != "" && (rstrip || parentBlock)
    ensures var p := SpaceNormalize1(es[i], L0(lstrip, parentBlock, i), R0(es, i, rstrip, parentBlock)).0;
      RStrippedText(p) && p.text != ""
  {
    assert R0(es, i, rstrip, parentBlock);
    TextRStripped(es[i].text, L0(lstrip, parentBlock, i));
    TextKept(es[i].text, L0(lstrip, parentBlock, i));
  }

  /** A string with visible characters is never dropped. */
  lemma TextKept(s: string, lstrip: bool)
    requires Visible(s) != ""
    ensures SpaceNormalize1(Text(s), lstrip, true).0 != Text("")
  {
  }

  lemma RStrippedLast(out: seq<Node>, n: Node)
    requires out == [n] && RStrippedText(n) && n.text != ""
    ensures LastRStripped(out)
  {
  }

  lemma LastOfCons(n: Node, rest: seq<Node>)
    requires LastRStripped(rest)
    ensures LastRStripped([n] + rest)
  {
    assert ([n] + rest)[|rest|] == rest[|rest| - 1];
  }

  lemma BlockLastTextStripped(h: string, a: WAttrs, b: seq<Node>, lstrip: bool, rstrip: bool)
    requires h in BLOCK_TAGS && h != "pre" && b != [] && b[|b| - 1].Text? && Visible(b[|b| - 1].text) != ""
    ensures var out := SpaceNormalize1(Elem(h, a, b), lstrip, rstrip).0;
      out.Elem? && LastRStripped(out.body)
  {
    TrailingTextStripped(b, 0, lstrip, rstrip, true);
  }

  /** A string directly before a real block element loses its trailing
      whitespace (or is dropped). */
  lemma TextBeforeBlockStripped(es: seq<Node>, i: nat, lstrip: bool, rstrip: bool, parentBlock: bool)
    requires TextBeforeBlock(es, i)
    ensures HeadRStripped(SpaceNormalizeFrom(es, i, lstrip, rstrip, parentBlock).0)
  {
    var next := TextItemRStripped(es, i, lstrip, rstrip, parentBlock);
    HeadElemKept(es, i + 1, next, rstrip, parentBlock);
    RStripStep(es, i, lstrip, rstrip, parentBlock);
  }

  /** Item `i` is a string and a real block element follows it. */
  predicate TextBeforeBlock(es: seq<Node>, i: nat)
  {
    i + 1 < |es| && es[i].Text? && RealBlock(es[i + 1])
  }

  /** The head of the result from `i` on: the item at `i` when it is kept,
      otherwise the head of the rest. */
  lemma RStripStep(es: seq<Node>, i: nat, lstrip: bool, rstrip: bool, parentBlock: bool)
    requires i < |es|
    ensures var p := SpaceNormalize1(es[i], L0(lstrip, parentBlock, i), R0(es, i, rstrip, parentBlock));
      var rest := SpaceNormalizeFrom(es, i + 1, p.1, rstrip, parentBlock).0;
      var out := SpaceNormalizeFrom(es, i, lstrip, rstrip, parentBlock).0;
      (Dropped(p.0) && rest != [] && rest[0].Elem? ==> HeadRStripped(out)) &&
      (!Dropped(p.0) && RStrippedText(p.0) ==> HeadRStripped(out))
  {
    var p := SpaceNormalize1(es[i], L0(lstrip, parentBlock, i), R0(es, i, rstrip, parentBlock));
    FromItem(es, i, lstrip, rstrip, parentBlock);
    var rest := SpaceNormalizeFrom(es, i + 1, p.1, rstrip, parentBlock).0;
    if !Dropped(p.0) && RStrippedText(p.0) {
      RStrippedHead([p.0] + rest, rest, p.0.text);
    }
  }

  /** A string before a real block element is right-stripped; `next` is the
      flag it passes on. */
  lemma TextItemRStripped(es: seq<Node>, i: nat, lstrip: bool, rstrip: bool, parentBlock: bool) returns (next: bool)
    requires TextBeforeBlock(es, i)
    ensures i + 1 < |es| && es[i + 1].Elem?
    ensures var p := SpaceNormalize1(es[i], L0(lstrip, parentBlock, i), R0(es, i, rstrip, parentBlock));
      RStrippedText(p.0) && next == p.1
  {
    assert R0(es, i, rstrip, parentBlock);
    TextRStripped(es[i].text, L0(lstrip, parentBlock, i));
    next := SpaceNormalize1(es[i], L0(lstrip, parentBlock, i), R0(es, i, rstrip, parentBlock)).1;
  }

  /** A string, empty or without trailing whitespace. */
  predicate RStrippedText(n: Node)
  {
    n.Text? && (n.text != "" ==> !IsSpace(n.text[|n.text| - 1]))
  }

  lemma TextRStripped(s: string, lstrip: bool)
    ensures RStrippedText(SpaceNormalize1(Text(s), lstrip, true).0)
  {
  }

  /** The list is non-empty, and if it starts with a string, that string
      has no trailing whitespace. */
  predicate HeadRStripped(out: seq<Node>)
  {
    out != [] && (out[0].Text? ==> |out[0].text| > 0 && !IsSpace(out[0].text[|out[0].text| - 1]))
  }

  lemma RStrippedHead(out: seq<Node>, rest: seq<Node>, s: string)
    requires out == [Text(s)] + rest && s != "" && !IsSpace(s[|s| - 1])
    ensures HeadRStripped(out)
  {
    assert out[0] == Text(s);
  }

  /** An element is never dropped. */
  lemma HeadElemKept(es: seq<Node>, i: nat, lstrip: bool, rstrip: bool, parentBlock: bool)
    requires i < |es| && es[i].Elem?
    ensures var out := SpaceNormalizeFrom(es, i, lstrip, rstrip, parentBlock).0;
      out != [] && out[0].Elem?
  {
    var ne := SpaceNormalize1(es[i], L0(lstrip, parentBlock, i), R0(es, i, rstrip, parentBlock));
    assert ne.0.Elem?;
  }

  /** The footnote case of the doctest: inside a paragraph, a footnote's own
      text is stripped at both ends, while the space before it and after it
      is kept because a footnote is not a real block. */
  lemma FootnoteKeepsSurroundingSpace(a: WAttrs, x: string, y: string, z: string)
    requires Word(x) && Word(y) && Word(z)
    ensures SpaceNormalize([Elem("p", map[], [Text(x + " "), Elem(".footnote", a, [Text(" " + y + " ")]), Text(" " + z)])]) ==
      [Elem("p", map[], [Text(x + " "), Elem(".footnote", a, [Text(y)]), Text(" " + z)])]
  {
    FootnoteParagraph(a, x, y, z);
    ParagraphIsBlock();
    LoneBlock("p", map[], [Text(x + " "), Elem(".footnote", a, [Text(" " + y + " ")]), Text(" " + z)],
      [Text(x + " "), Elem(".footnote", a, [Text(y)]), Text(" " + z)]);
  }

  lemma ParagraphIsBlock()
    ensures "p" in BLOCK_TAGS
  {
    assert BLOCK_TAGS[14] == "p";
  }

  /** A lone block element is normalised with its body stripped at both
      ends. */
  lemma LoneBlock(h: string, a: WAttrs, b: seq<Node>, nb: seq<Node>)
    requires h in BLOCK_TAGS && h != "pre"
    requires SpaceNormalizeFrom(b, 0, false, false, true).0 == nb
    ensures SpaceNormalize([Elem(h, a, b)]) == [Elem(h, a, nb)]
  {
    var e := Elem(h, a, b);
    assert !RealBlockAt([e], 1);
    assert SpaceNormalize1(e, false, false).0 == Elem(h, a, nb);
    assert SpaceNormalizeFrom([e], 1, SpaceNormalize1(e, false, false).1, false, false).0 == [];
    assert [Elem(h, a, nb)] + [] == [Elem(h, a, nb)];
  }

  lemma FootnoteParagraph(a: WAttrs, x: string, y: string, z: string)
    requires Word(x) && Word(y) && Word(z)
    ensures SpaceNormalizeFrom([Text(x + " "), Elem(".footnote", a, [Text(" " + y + " ")]), Text(" " + z)], 0, false, false, true).0 ==
      [Text(x + " "), Elem(".footnote", a, [Text(y)]), Text(" " + z)]
  {
    FirstWordText(x);
    FootnoteInner(a, y);
    LastWordText(z);
    ThreeKept(Text(x + " "), Elem(".footnote", a, [Text(" " + y + " ")]), Text(" " + z),
      Text(x + " "), Elem(".footnote", a, [Text(y)]), Text(" " + z));
  }

  /** `n` becomes `o` under a left-strip, is kept and passes a left-strip on. */
  predicate LeadKept(n: Node, o: Node)
  {
    SpaceNormalize1(n, true, false) == (o, true) && !Dropped(o)
  }

  /** `n` is no real block, becomes `o` under a left-strip, is kept and
      passes no left-strip on. */
  predicate MidKept(n: Node, o: Node)
  {
    !RealBlock(n) && SpaceNormalize1(n, true, false) == (o, false) && !Dropped(o)
  }

  /** The string `n` becomes `o` under a right-strip and is kept. */
  predicate LastKeptText(n: Node, o: Node)
  {
    n.Text? && SpaceNormalize1(n, false, true).0 == o && !Dropped(o)
  }

  /** Three items inside a block, none of them dropped and the last two no
      real blocks: the first is left-stripped and passes a left-strip on to
      the second, and the last is right-stripped. */
  lemma ThreeKept(n0: Node, n1: Node, n2: Node, o0: Node, o1: Node, o2: Node)
    requires LeadKept(n0, o0) && MidKept(n1, o1) && LastKeptText(n2, o2)
    ensures SpaceNormalizeFrom([n0, n1, n2], 0, false, false, true).0 == [o0, o1, o2]
  {
    var b := [n0, n1, n2];
    LastKept(b, o2);
    MiddleKept(b, o1, [o2]);
    FirstKept(b, o0, [o1] + [o2]);
    Triple(o0, o1, o2);
  }

  /** A footnote is no real block. */
  lemma FootnoteNotReal(n: Node)
    requires n.Elem? && n.tag == ".footnote"
    ensures !RealBlock(n)
  {
  }

  lemma FirstKept(b: seq<Node>, o0: Node, rest: seq<Node>)
    requires |b| == 3 && !RealBlock(b[1])
    requires SpaceNormalize1(b[0], true, false) == (o0, true) && !Dropped(o0)
    requires SpaceNormalizeFrom(b, 1, true, false, true).0 == rest
    ensures SpaceNormalizeFrom(b, 0, false, false, true).0 == [o0] + rest
  {
  }

  lemma MiddleKept(b: seq<Node>, o1: Node, rest: seq<Node>)
    requires |b| == 3 && b[2].Text?
    requires SpaceNormalize1(b[1], true, false) == (o1, false) && !Dropped(o1)
    requires SpaceNormalizeFrom(b, 2, false, false, true).0 == rest
    ensures SpaceNormalizeFrom(b, 1, true, false, true).0 == [o1] + rest
  {
  }

  lemma LastKept(b: seq<Node>, o2: Node)
    requires |b| == 3
    requires SpaceNormalize1(b[2], false, true).0 == o2 && !Dropped(o2)
    ensures SpaceNormalizeFrom(b, 2, false, false, true).0 == [o2]
  {
    var f2 := SpaceNormalize1(b[2], false, true).1;
    assert SpaceNormalizeFrom(b, 3, f2, false, true).0 == [];
    assert [o2] + [] == [o2];
  }

  /** 'x ' keeps its trailing space and asks for the next item to be
      left-stripped. */
  lemma FirstWordText(x: string)
    requires Word(x)
    ensures LeadKept(Text(x + " "), Text(x + " "))
  {
    WordSpace(x);
    assert NormalizeText(x + " ", true, false) == (x + " ", true);
  }

  /** Inside the footnote ' y ' is stripped at both ends. */
  lemma FootnoteInner(a: WAttrs, y: string)
    requires Word(y)
    ensures MidKept(Elem(".footnote", a, [Text(" " + y + " ")]), Elem(".footnote", a, [Text(y)]))
  {
    FootnoteNotReal(Elem(".footnote", a, [Text(" " + y + " ")]));
    InnerWord(y);
    SingletonBody(Text(" " + y + " "), true, false, true, Text(y), false);
    FootnoteElem(a, [Text(" " + y + " ")], [Text(y)]);
  }

  lemma FootnoteElem(a: WAttrs, b: seq<Node>, nb: seq<Node>)
    requires SpaceNormalizeFrom(b, 0, true, false, true) == (nb, false)
    ensures SpaceNormalize1(Elem(".footnote", a, b), true, false) == (Elem(".footnote", a, nb), false)
  {
  }

  lemma SingletonBody(n: Node, lstrip: bool, rstrip: bool, parentBlock: bool, out: Node, flag: bool)
    requires SpaceNormalize1(n, lstrip || parentBlock, rstrip || parentBlock) == (out, flag) && !Dropped(out)
    ensures SpaceNormalizeFrom([n], 0, lstrip, rstrip, parentBlock) == ([out], flag)
  {
    assert !RealBlockAt([n], 1);
    assert SpaceNormalizeFrom([n], 1, flag, rstrip, parentBlock) == ([], flag);
    assert [out] + [] == [out];
  }

  lemma InnerWord(y: string)
    requires Word(y)
    ensures SpaceNormalize1(Text(" " + y + " "), true, true) == (Text(y), false)
  {
    SpaceWordSpace(y);
    var s := " " + y + " ";
    assert StripIf(CollapseSpace(s), true, true) == y + " ";
    assert StripIf(y + " ", true, false) == y;
    assert !IsFoldSpace(y[|y| - 1]);
    assert NormalizeText(s, true, true) == (y, false);
  }

  lemma LastWordText(z: string)
    requires Word(z)
    ensures LastKeptText(Text(" " + z), Text(" " + z))
  {
    SpaceWord(z);
    assert NormalizeText(" " + z, false, true).0 == " " + z;
  }

  /** A non-empty folded word with no whitespace at its ends. */
  ghost predicate Word(s: string)
  {
    |s| > 0 && Folded(s) && !IsSpace(s[0]) && !IsSpace(s[|s| - 1])
  }

  lemma WordSpace(x: string)
    requires Word(x)
    ensures CollapseSpace(x + " ") == x + " " && LStrip(x + " ") == x + " "
  {
    var s := x + " ";
    assert Folded(s) by {
      NoDoubleSpaceSnoc(x, ' ');
      assert forall i :: 0 <= i < |x| ==> s[i] == x[i];
    }
    CollapseFolded(s);
    assert s[0] == x[0];
  }

  lemma SpaceWord(z: string)
    requires Word(z)
    ensures CollapseSpace(" " + z) == " " + z && RStrip(" " + z) == " " + z
  {
    var s := " " + z;
    assert Folded(s) by {
      NoDoubleSpaceCons(' ', z);
      assert forall i :: 1 <= i < |s| ==> s[i] == z[i - 1];
    }
    CollapseFolded(s);
    assert s[|s| - 1] == z[|z| - 1];
  }

  lemma SpaceWordSpace(y: string)
    requires Word(y)
    ensures CollapseSpace(" " + y + " ") == " " + y + " "
    ensures LStrip(" " + y + " ") == y + " " && RStrip(y + " ") == y
  {
    SpaceWordSpaceFolded(y);
    CollapseFolded(" " + y + " ");
    LStripSpaceWord(y);
    RStripWordSpace(y);
  }

  lemma SpaceWordSpaceFolded(y: string)
    requires Word(y)
    ensures Folded(" " + y + " ")
  {
    var s := " " + y + " ";
    NoDoubleSpaceCons(' ', y);
    NoDoubleSpaceSnoc(" " + y, ' ');
    assert forall i :: 1 <= i < |s| - 1 ==> s[i] == y[i - 1];
  }

  lemma LStripSpaceWord(y: string)
    requires Word(y)
    ensures LStrip(" " + y + " ") == y + " "
  {
    var s := " " + y + " ";
    assert s[1..] == y + " ";
    assert LStrip(s) == LStrip(y + " ");
    assert (y + " ")[0] == y[0];
  }

  lemma RStripWordSpace(y: string)
    requires Word(y)
    ensures RStrip(y + " ") == y
  {
    assert (y + " ")[..|y|] == y;
    assert RStrip(y + " ") == RStrip(y);
  }

  /** The first example of `space_normalize`'s documentation,
      `['2  spaces:  ', ('pre', {}, [...]), ' here.']`, with words `x`, `y`
      and `z` for `2`, `spaces:` and `here.`: the string before the `pre`
      is folded and right-stripped, the `pre` is kept whole, and the string
      after it is left-stripped. */
  lemma PreBetweenWords(x: string, y: string, z: string, a: WAttrs, b: seq<Node>)
    requires HtmlParser.Solid(x) && HtmlParser.Solid(y) && HtmlParser.Solid(z)
    requires y != [] && !IsSpace(y[|y| - 1]) && z != [] && !IsSpace(z[0])
    ensures SpaceNormalize([Text(x + "  " + y + "  "), Elem("pre", a, b), Text(" " + z)]) ==
      [Text(x + " " + y), Elem("pre", a, b), Text(z)]
  {
    TwoWordsRStripped(x, y);
    WordLStripped(z);
    AroundPre(x + "  " + y + "  ", a, b, " " + z, x + " " + y, z);
  }

  /** A string, a `pre` and a string at the top level: the first is
      right-stripped, since a real block follows it, and the last is
      left-stripped, since `pre` asks for it. */
  lemma AroundPre(s0: string, a: WAttrs, b: seq<Node>, s2: string, o0: string, o2: string)
    requires NormalizeText(s0, false, true) == (o0, false) && o0 != ""
    requires NormalizeText(s2, true, false) == (o2, false) && o2 != ""
    ensures SpaceNormalize([Text(s0), Elem("pre", a, b), Text(s2)]) == [Text(o0), Elem("pre", a, b), Text(o2)]
  {
    var es := [Text(s0), Elem("pre", a, b), Text(s2)];
    PreIsBlock();
    assert RealBlockAt(es, 1);
    assert SpaceNormalize1(es[0], false, true) == (Text(o0), false);
    assert SpaceNormalize1(es[2], true, false) == (Text(o2), false);
    assert SpaceNormalizeFrom(es, 3, false, false, false).0 == [];
    assert SpaceNormalizeFrom(es, 2, true, false, false).0 == [Text(o2)];
    assert SpaceNormalizeFrom(es, 1, false, false, false).0 == [Elem("pre", a, b), Text(o2)];
  }

  lemma PreIsBlock()
    ensures "pre" in BLOCK_TAGS
  {
    assert BLOCK_TAGS[19] == "pre";
  }

  /** `'x  y  '` folds to `'x y '` and is right-stripped to `'x y'`. */
  lemma TwoWordsRStripped(x: string, y: string)
    requires HtmlParser.Solid(x) && HtmlParser.Solid(y) && y != [] && !IsSpace(y[|y| - 1])
    ensures NormalizeText(x + "  " + y + "  ", false, true) == (x + " " + y, false)
  {
    var s := x + "  " + y + "  ";
    TwoWordsFold(x, y);
    RStripSpaced(x + " " + y);
    assert FoldStrip(s, false, true) == x + " " + y;
  }

  lemma TwoWordsFold(x: string, y: string)
    requires HtmlParser.Solid(x) && HtmlParser.Solid(y) && y != []
    ensures CollapseSpace(x + "  " + y + "  ") == x + " " + y + " "
  {
    var sp, t := "  ", y + "  ";
    AppendAssoc(x + sp, y, sp);
    AppendAssoc(x, sp, t);
    HtmlParser.CollapseSolidPrefix(x, sp + t);
    RunThenWord(y);
    AppendAssoc(x, " ", y + " ");
    AppendAssoc(x + " ", y, " ");
  }

  lemma RunThenWord(y: string)
    requires HtmlParser.Solid(y) && y != []
    ensures CollapseSpace("  " + (y + "  ")) == " " + (y + " ")
  {
    var t := y + "  ";
    assert ("  " + t)[1..] == " " + t;
    HtmlParser.CollapseFoldHead("  " + t);
    HtmlParser.DropRun(" ", t);
    WordThenRun(y);
  }

  lemma WordThenRun(y: string)
    requires HtmlParser.Solid(y)
    ensures CollapseSpace(y + "  ") == y + " "
  {
    HtmlParser.CollapseSolidPrefix(y, "  ");
    TwoSpacesCollapse();
  }

  lemma TwoSpacesCollapse()
    ensures CollapseSpace("  ") == " "
  {
    var w := "  ";
    assert w[1..] == [' '] && [' '][1..] == [];
    assert DropFoldSpace(w[1..]) == [];
    HtmlParser.CollapseFoldHead(w);
  }

  /** `' z'` is left-stripped to `'z'`. */
  lemma WordLStripped(z: string)
    requires HtmlParser.Solid(z) && z != [] && !IsSpace(z[0])
    ensures NormalizeText(" " + z, true, false) == (z, false)
  {
    HtmlParser.CollapseRun(" ", z);
    assert (" " + z)[1..] == z;
    assert !IsFoldSpace(z[|z| - 1]);
  }

  lemma RStripSpaced(w: string)
    requires w != [] && !IsSpace(w[|w| - 1])
    ensures RStrip(w + " ") == w
  {
    assert (w + " ")[..|w|] == w;
  }
}
