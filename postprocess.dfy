/** The normaliser of postprocess.py: the recursive clean-up passes over the
    internal tree that follow parsing (`blank`, `whack`, `tidy`,
    `space_normalize`, citation and command recognition, captions and
    figures) and the extraction of the document's metadata. */
module Postprocess {
  import opened Wrappers
  import opened PyStr
  import opened Internal

  const CAN_OCCUR_IN_H: seq<string> :=
    ["a", ".footnote", "aside", "code", "u", "CMD", "LIT", "figure", "img"]
  const NEVER_BLANK: seq<string> := ["figure", "img", "CMD", "LIT", ".pagebreak"]

  // ---------------------------------------------------------------------
  // Size of a tree: the measure under which `tidy` terminates.  A `.block`
  // weighs 4 so that the wrappers `_coalesce_blocks` puts around its body
  // (a `p`, or a `footer` holding a `cite`, inside one `blockquote`) never
  // outweigh it.

  function Weight(tag: string): nat { if tag == ".block" then 4 else 1 }

  function NodeSize(n: Node): nat
    decreases n
  {
    match n
    case Text(_) => 1
    case Elem(t, _, b) => Weight(t) + BodySize(b)
  }

  function BodySize(b: seq<Node>): nat
    decreases b
  {
    if b == [] then 0 else NodeSize(b[0]) + BodySize(b[1..])
  }

  lemma {:induction false} BodySizeAppend(a: seq<Node>, b: seq<Node>)
    ensures BodySize(a + b) == BodySize(a) + BodySize(b)
    decreases |a|
  {
    if a != [] {
      assert (a + b)[0] == a[0];
      assert (a + b)[1..] == a[1..] + b;
      BodySizeAppend(a[1..], b);
    } else {
      assert a + b == b;
    }
  }

  lemma SizeSingleton(n: Node)
    ensures BodySize([n]) == NodeSize(n)
  {
    assert [n][1..] == [];
  }

  // ---------------------------------------------------------------------
  // blank

  /** `blank` of a body: every item is content-free. */
  predicate BlankBody(b: seq<Node>)
    decreases b
  {
    b == [] || (BlankNode(b[0]) && BlankBody(b[1..]))
  }

  /** `blank` of a string or an element. */
  predicate BlankNode(n: Node)
    decreases n
  {
    match n
    case Text(s) => Strip(s) == ""
    case Elem(h, _, b) => h !in NEVER_BLANK && BlankBody(b)
  }

  /** A string is blank iff it consists of whitespace only. */
  lemma BlankText(s: string)
    ensures BlankNode(Text(s)) <==> AllSpace(s)
  {
    StripEmptyIffAllSpace(s);
  }

  /** A body is blank iff all its members are (the `all(...)` of the source). */
  lemma {:induction false} BlankBodyAll(b: seq<Node>)
    ensures BlankBody(b) <==> forall i :: 0 <= i < |b| ==> BlankNode(b[i])
    decreases |b|
  {
    if b != [] {
      BlankBodyAll(b[1..]);
      assert forall i :: 1 <= i < |b| ==> b[i] == b[1..][i - 1];
    }
  }

  /** The examples of the documentation of `blank`: whitespace and empty
      links are blank... */
  lemma BlankExamples()
    ensures BlankNode(Text(" ")) && BlankBody([Text("\t")])
    ensures BlankNode(Elem("a", StrAttrs("name", "some link"), []))
  {
    BlankText(" ");
    BlankText("\t");
    assert [Text("\t")][1..] == [];
  }

  lemma BlankLinkExample()
    ensures BlankNode(Elem("a", StrAttrs("href", "foo.html"), [Text(""), Elem("span", map[], [])]))
  {
    EmptyTextAndSpanAreBlank("a", StrAttrs("href", "foo.html"));
  }

  lemma EmptyTextAndSpanAreBlank(h: string, a: WAttrs)
    requires h !in NEVER_BLANK
    ensures BlankNode(Elem(h, a, [Text(""), Elem("span", map[], [])]))
  {
    BlankText("");
    var b := [Text(""), Elem("span", map[], [])];
    assert b[1..][1..] == [];
  }

  /** ...text and images are not. */
  lemma NonBlankExamples()
    ensures !BlankNode(Text("x"))
  {
    NotSpaceX();
    NonBlankString("x");
  }

  lemma NonBlankImageExample()
    ensures !BlankNode(Elem("img", StrAttrs("src", "foo.png"), []))
  {
    ImgNeverBlank();
  }

  lemma NotSpaceX()
    ensures !IsSpace("x"[0])
  {
  }

  lemma ImgNeverBlank()
    ensures "img" in NEVER_BLANK
  {
    assert NEVER_BLANK[1] == "img";
  }

  /** A string starting with a non-space character is not blank. */
  lemma NonBlankString(s: string)
    requires |s| > 0 && !IsSpace(s[0])
    ensures !BlankNode(Text(s))
  {
    BlankText(s);
  }

  /** A link around a span holding text is not blank either. */
  lemma NonBlankLinkExample()
    ensures !BlankNode(Elem("a", StrAttrs("href", "some link"), [Text(""), Elem("span", map[], [Text("link text")])]))
  {
    NotSpaceL();
    TextInSpanIsNotBlank("a", StrAttrs("href", "some link"), "link text");
  }

  lemma NotSpaceL()
    ensures !IsSpace("link text"[0])
  {
  }

  lemma TextInSpanIsNotBlank(h: string, a: WAttrs, s: string)
    requires |s| > 0 && !IsSpace(s[0]) && h !in NEVER_BLANK
    ensures !BlankNode(Elem(h, a, [Text(""), Elem("span", map[], [Text(s)])]))
  {
    BlankText(s);
    var b := [Text(""), Elem("span", map[], [Text(s)])];
    assert !BlankBody([Text(s)]);
    assert !BlankNode(b[1]);
    assert !BlankBody(b[1..]);
  }

  // ---------------------------------------------------------------------
  // whack

  /** `whack_elt(pred, body, kill_body)`: every element satisfying `pred` is
      replaced by its own (whacked) body, or dropped when `killBody`. */
  function WhackElt(pred: Node -> bool, body: seq<Node>, killBody: bool): (r: seq<Node>)
    ensures BodySize(r) <= BodySize(body)
    decreases body
  {
    if body == [] then []
    else
      var head :=
        (match body[0]
         case Text(_) => [body[0]]
         case Elem(h, a, b) =>
           if pred(body[0]) then (if killBody then [] else WhackElt(pred, b, killBody))
           else
             var wb := WhackElt(pred, b, killBody);
             SizeSingleton(Elem(h, a, wb));
             [Elem(h, a, wb)]);
      var tail := WhackElt(pred, body[1..], killBody);
      SizeSingleton(body[0]);
      BodySizeAppend(head, tail);
      head + tail
  }

  /** `whack(pred, body, kill_body)`: the same, with `pred` applied to tags. */
  function Whack(pred: string -> bool, body: seq<Node>, killBody: bool): (r: seq<Node>)
    ensures BodySize(r) <= BodySize(body)
    decreases body
  {
    if body == [] then []
    else
      var head := WhackOne(pred, body[0], killBody);
      var tail := Whack(pred, body[1..], killBody);
      BodySizeAppend(head, tail);
      head + tail
  }

  function WhackOne(pred: string -> bool, n: Node, killBody: bool): (r: seq<Node>)
    ensures BodySize(r) <= NodeSize(n)
    decreases n, 0
  {
    match n
    case Text(_) => SizeSingleton(n); [n]
    case Elem(h, a, b) =>
      if pred(h) then (if killBody then [] else Whack(pred, b, killBody))
      else
        var wb := Whack(pred, b, killBody);
        SizeSingleton(Elem(h, a, wb));
        [Elem(h, a, wb)]
  }

  /** `whack` is `whack_elt` with the predicate `lambda e: pred(e[0])`. */
  lemma {:induction false} WhackIsWhackElt(pred: string -> bool, body: seq<Node>, killBody: bool)
    ensures Whack(pred, body, killBody) == WhackElt((e: Node) => e.Elem? && pred(e.tag), body, killBody)
    decreases body
  {
    if body != [] {
      WhackIsWhackElt(pred, body[1..], killBody);
      if body[0].Elem? {
        WhackIsWhackElt(pred, body[0].body, killBody);
      }
    }
  }

  /** All strings of a body, at any depth, in document order. */
  function Texts(b: seq<Node>): seq<string>
    decreases b
  {
    if b == [] then []
    else
      (match b[0]
       case Text(s) => [s]
       case Elem(_, _, c) => Texts(c)) + Texts(b[1..])
  }

  lemma {:induction false} TextsAppend(a: seq<Node>, b: seq<Node>)
    ensures Texts(a + b) == Texts(a) + Texts(b)
    decreases |a|
  {
    if a != [] {
      assert (a + b)[0] == a[0];
      assert (a + b)[1..] == a[1..] + b;
      TextsAppend(a[1..], b);
    } else {
      assert a + b == b;
    }
  }

  /** No element anywhere in the body has a tag satisfying `pred`. */
  predicate NoTag(pred: string -> bool, b: seq<Node>)
    decreases b
  {
    b == [] ||
    ((match b[0]
      case Text(_) => true
      case Elem(h, _, c) => !pred(h) && NoTag(pred, c)) && NoTag(pred, b[1..]))
  }

  lemma {:induction false} NoTagAppend(pred: string -> bool, a: seq<Node>, b: seq<Node>)
    ensures NoTag(pred, a + b) <==> NoTag(pred, a) && NoTag(pred, b)
    decreases |a|
  {
    if a != [] {
      assert (a + b)[0] == a[0];
      assert (a + b)[1..] == a[1..] + b;
      NoTagAppend(pred, a[1..], b);
    } else {
      assert a + b == b;
    }
  }

  /** Splicing keeps every string, in order. */
  lemma {:induction false} WhackKeepsTexts(pred: string -> bool, body: seq<Node>)
    ensures Texts(Whack(pred, body, false)) == Texts(body)
    decreases body
  {
    if body != [] {
      var head := WhackOne(pred, body[0], false);
      TextsAppend(head, Whack(pred, body[1..], false));
      WhackKeepsTexts(pred, body[1..]);
      match body[0]
      case Text(_) =>
      case Elem(h, a, b) =>
        WhackKeepsTexts(pred, b);
        if !pred(h) {
          assert [Elem(h, a, Whack(pred, b, false))][1..] == [];
        }
    }
  }

  /** Neither mode leaves an element whose tag satisfies `pred`. */
  lemma {:induction false} WhackRemovesTag(pred: string -> bool, body: seq<Node>, killBody: bool)
    ensures NoTag(pred, Whack(pred, body, killBody))
    decreases body
  {
    if body != [] {
      var head := WhackOne(pred, body[0], killBody);
      NoTagAppend(pred, head, Whack(pred, body[1..], killBody));
      WhackRemovesTag(pred, body[1..], killBody);
      match body[0]
      case Text(_) =>
      case Elem(h, a, b) =>
        WhackRemovesTag(pred, b, killBody);
        if !pred(h) {
          assert [Elem(h, a, Whack(pred, b, killBody))][1..] == [];
        }
    }
  }

  /** A body without a matching element is left as it is. */
  lemma {:induction false} WhackWithoutMatchIsIdentity(pred: string -> bool, body: seq<Node>, killBody: bool)
    requires NoTag(pred, body)
    ensures Whack(pred, body, killBody) == body
    decreases body
  {
    if body != [] {
      WhackWithoutMatchIsIdentity(pred, body[1..], killBody);
      match body[0]
      case Text(_) =>
        assert body == [body[0]] + body[1..];
      case Elem(h, a, b) =>
        WhackWithoutMatchIsIdentity(pred, b, killBody);
        assert body == [body[0]] + body[1..];
    }
  }

  /** The tag test of the examples below. */
  predicate IsBold(tag: string)
  {
    tag == "b"
  }

  /** A `b` element holding one string is unwrapped, or dropped with its body. */
  lemma WhackBold(s: string, killBody: bool)
    ensures Whack(IsBold, [Elem("b", map[], [Text(s)])], killBody) == if killBody then [] else [Text(s)]
  {
    var body := [Text(s)];
    var e := Elem("b", map[], body);
    assert Whack(IsBold, body, killBody) == [Text(s)] by {
      assert WhackOne(IsBold, Text(s), killBody) == [Text(s)];
      assert Whack(IsBold, body[1..], killBody) == [];
    }
    assert IsBold("b");
    assert WhackOne(IsBold, e, killBody) == if killBody then [] else [Text(s)];
    assert Whack(IsBold, [e][1..], killBody) == [];
  }

  /** A two-item body is whacked item by item. */
  lemma WhackPair(pred: string -> bool, x: Node, y: Node, killBody: bool)
    ensures Whack(pred, [x, y], killBody) == WhackOne(pred, x, killBody) + Whack(pred, [y], killBody)
  {
    assert [x, y][1..] == [y];
  }

  /** An `a` around a bold string keeps its tag and loses the bold. */
  lemma WhackLinkBold(s: string, killBody: bool)
    ensures WhackOne(IsBold, Elem("a", map[], [Elem("b", map[], [Text(s)])]), killBody) ==
      [Elem("a", map[], if killBody then [] else [Text(s)])]
  {
    WhackBold(s, killBody);
    assert !IsBold("a");
  }

  /** The examples of the documentation of `whack`, for any two strings in
      place of `bold1` and `bold2`. */
  lemma WhackExamples(bold1: string, bold2: string)
    ensures var text := [Elem("a", map[], [Elem("b", map[], [Text(bold1)])]), Elem("b", map[], [Text(bold2)])];
      Whack(IsBold, text, false) == [Elem("a", map[], [Text(bold1)]), Text(bold2)] &&
      Whack(IsBold, text, true) == [Elem("a", map[], [])]
  {
    var x := Elem("a", map[], [Elem("b", map[], [Text(bold1)])]);
    var y := Elem("b", map[], [Text(bold2)]);
    WhackPair(IsBold, x, y, false);
    WhackPair(IsBold, x, y, true);
    WhackLinkBold(bold1, false);
    WhackLinkBold(bold1, true);
    WhackBold(bold2, false);
    WhackBold(bold2, true);
  }

  // ---------------------------------------------------------------------
  // coalesce / tidy

  /** The `groupby` key: strings group together, elements by `(tag, attrs)`. */
  function Key(n: Node): Option<(string, WAttrs)>
  {
    if n.Text? then None else Some((n.tag, n.attrs))
  }

  predicate SameKey(g: seq<Node>)
  {
    g != [] && forall i :: 0 <= i < |g| ==> Key(g[i]) == Key(g[0])
  }

  /** The length of the leading `groupby` group. */
  function Run(es: seq<Node>): (n: nat)
    requires es != []
    ensures 1 <= n <= |es| && SameKey(es[..n])
    ensures n < |es| ==> Key(es[n]) != Key(es[0])
  {
    if |es| == 1 || Key(es[1]) != Key(es[0]) then 1
    else
      var m := Run(es[1..]);
      assert forall i | 0 <= i < m :: es[1..][..m][i] == es[i + 1];
      1 + m
  }

  /** The three shapes `coalesce` drops (`BOGUS_ELEMENTS`): an empty element
      with no attributes whose tag may have content, an element whose tag
      must have content holding one blank item, and an empty link that is
      not an anchor. */
  predicate Bogus(x: Node)
  {
    x.Elem? &&
    ((x.tag !in FULLY_VOID_TAGS && x.attrs == map[] && x.body == []) ||
     (x.tag in NON_EMPTY_BLOCK_TAGS && |x.body| == 1 && BlankNode(x.body[0])) ||
     (x.tag == "a" && "name" !in x.attrs && x.body == []))
  }

  function DropBogus(xs: seq<Node>): (r: seq<Node>)
    ensures BodySize(r) <= BodySize(xs)
    ensures forall i :: 0 <= i < |r| ==> !Bogus(r[i])
  {
    if xs == [] then []
    else
      var rest := DropBogus(xs[1..]);
      if Bogus(xs[0]) then rest
      else
        BodySizeAppend([xs[0]], rest);
        SizeSingleton(xs[0]);
        [xs[0]] + rest
  }

  /** The concatenated bodies of a group of elements (`_sib_bodies`). */
  function SibBodies(g: seq<Node>): (r: seq<Node>)
    requires forall i :: 0 <= i < |g| ==> g[i].Elem? && g[i].tag != ".block"
    ensures BodySize(r) + |g| <= BodySize(g)
  {
    if g == [] then []
    else
      BodySizeAppend(g[0].body, SibBodies(g[1..]));
      g[0].body + SibBodies(g[1..])
  }

  function TextNodes(ss: seq<string>): (r: seq<Node>)
    ensures |r| == |ss| && BodySize(r) == |ss|
    ensures forall i :: 0 <= i < |r| ==> r[i] == Text(ss[i])
  {
    if ss == [] then [] else [Text(ss[0])] + TextNodes(ss[1..])
  }

  function Weight3(body: seq<Node>): nat { if body == [] then 0 else 3 + BodySize(body) }
  function PreCost(pre: seq<string>): nat { if pre == [] then 0 else 1 + |pre| }
  function AccCost(acc: seq<Node>): nat { if acc == [] then 0 else 1 + BodySize(acc) }

  predicate AllBlocks(bs: seq<Node>)
  {
    forall i :: 0 <= i < |bs| ==> bs[i].Elem? && bs[i].tag == ".block"
  }

  /** `body == [('code', {}, B)]`. */
  predicate IsCodeBody(body: seq<Node>)
  {
    |body| == 1 && body[0].Elem? && body[0].tag == "code" && body[0].attrs == map[]
  }

  /** `needs_wrapping_in_p`: anything but a single real block element. */
  predicate NeedsWrappingInP(body: seq<Node>)
  {
    !(|body| == 1 && body[0].Elem? && body[0].tag in BLOCK_TAGS && body[0].tag != ".footnote")
  }

  /** `body == Seq[('p', {}, B), DOES_NOT_START_WITH_P:]`. */
  predicate LeadingBogusP(body: seq<Node>)
  {
    |body| >= 1 && body[0].Elem? && body[0].tag == "p" && body[0].attrs == map[] &&
    forall i :: 1 <= i < |body| ==> !(body[i].Elem? && body[i].tag == "p")
  }

  /** `[('span', {'style': LIFTABLE_SPAN_STYLE}, B)]`: a span holding only
      colour keys that the parent's style does not set yet. */
  predicate LiftableSpan(parent: WAttrs, body: seq<Node>)
  {
    |body| == 1 && body[0].Elem? && body[0].tag == "span" && body[0].attrs.Keys == {"style"} &&
    forall k :: k in StyleKeys(body[0].attrs["style"].kvs) ==>
      k in COLOR_TYPES && k !in StyleKeys(StyleOf(parent))
  }

  /** `_style_merge(attrs, style)` on values. */
  function StyleMerge(attrs: WAttrs, style: seq<(string, string)>): (r: WAttrs)
    ensures r.Keys == attrs.Keys + {"style"}
    ensures StyleOf(r) == StyleUpdate(StyleOf(attrs), style)
    ensures forall k :: k in attrs && k != "style" ==> r[k] == attrs[k]
  {
    attrs["style" := Style(StyleUpdate(StyleOf(attrs), style))]
  }

  /** The rewrite `_coalesce_parent_child` applies to an element whose body
      has already been tidied. */
  function UnwrapParentChild(tag: string, attrs: WAttrs, body: seq<Node>): (r: Node)
    ensures r.Elem? && NodeSize(r) <= Weight(tag) + BodySize(body)
  {
    if tag in ["li", "dt", "dd", ".footnote"] && LeadingBogusP(body) then
      BodySizeAppend(body[0].body, body[1..]);
      Elem(tag, attrs, body[0].body + body[1..])
    else if tag == "p" && attrs == map[] && |body| == 1 && body[0].Elem? &&
            ((body[0].tag == ".pagebreak" && body[0].attrs == map[] && body[0].body == []) ||
             (body[0].tag == "blockquote" && body[0].attrs == map[])) then
      body[0]
    else if LiftableSpan(attrs, body) then
      Elem(tag, StyleMerge(attrs, body[0].attrs["style"].kvs), body[0].body)
    else
      Elem(tag, attrs, body)
  }

  /** What `_tidy_heading` keeps of a heading without text: everything but
      strings and anchors `('a', {'name': _}, [])`. */
  function HeadingLeftovers(xs: seq<Node>): (r: seq<Node>)
    ensures BodySize(r) <= BodySize(xs)
    ensures forall i :: 0 <= i < |r| ==> r[i].Elem?
  {
    if xs == [] then []
    else
      var rest := HeadingLeftovers(xs[1..]);
      if xs[0].Text? || (xs[0].tag == "a" && xs[0].attrs.Keys == {"name"} && xs[0].body == []) then rest
      else
        BodySizeAppend([xs[0]], rest);
        SizeSingleton(xs[0]);
        [xs[0]] + rest
  }

  /** `tidy(es)`: `list(coalesce(es))`.  It fails only where `plaintextify`
      fails inside a code block. */
  function Tidy(es: seq<Node>): (r: Result<seq<Node>>)
    ensures r.Ok? ==> BodySize(r.value) <= BodySize(es)
    decreases BodySize(es), 4
  {
    if es == [] then Ok([])
    else
      var n := Run(es);
      assert es == es[..n] + es[n..];
      BodySizeAppend(es[..n], es[n..]);
      var g := CoalesceGroup(es[..n]);
      var rest := Tidy(es[n..]);
      if g.Err? then g
      else if rest.Err? then rest
      else
        BodySizeAppend(g.value, rest.value);
        Ok(g.value + rest.value)
  }

  /** What `coalesce` yields for one `groupby` group. */
  function CoalesceGroup(g: seq<Node>): (r: Result<seq<Node>>)
    requires SameKey(g)
    ensures r.Ok? ==> BodySize(r.value) <= BodySize(g)
    decreases BodySize(g), 3
  {
    match g[0]
    case Text(_) =>
      SizeSingleton(Text(Concat(Texts(g))));
      Ok([Text(Concat(Texts(g)))])
    case Elem(tag, attrs, _) =>
      assert forall i :: 0 <= i < |g| ==> g[i].Elem? && g[i].tag == tag && g[i].attrs == attrs;
      if tag in INLINE_TAG || tag == "blockquote" then CoalesceSiblings(tag, attrs, g)
      else if tag == ".block" then CoalesceBlocks(attrs, g)
      else if tag == "LIT" || tag == "CMD" then Ok(g)
      else CoalesceParents(tag, g)
  }

  /** `_coalesce_siblings`, followed by the removal of bogus elements. */
  function CoalesceSiblings(tag: string, attrs: WAttrs, g: seq<Node>): (r: Result<seq<Node>>)
    requires g != [] && tag != ".block"
    requires forall i :: 0 <= i < |g| ==> g[i].Elem? && g[i].tag == tag && g[i].attrs == attrs
    ensures r.Ok? ==> BodySize(r.value) <= BodySize(g)
    decreases BodySize(g), 2
  {
    var c := Tidy(SibBodies(g));
    if c.Err? then c
    else if tag == "span" && attrs == map[] then Ok(DropBogus(c.value))
    else
      SizeSingleton(Elem(tag, attrs, c.value));
      Ok(DropBogus([Elem(tag, attrs, c.value)]))
  }

  /** The last branch of `coalesce`: each element on its own through
      `_coalesce_parent_child`, bogus results dropped, headings through
      `_tidy_heading`. */
  function CoalesceParents(tag: string, g: seq<Node>): (r: Result<seq<Node>>)
    requires forall i :: 0 <= i < |g| ==> g[i].Elem? && g[i].tag == tag
    ensures r.Ok? ==> BodySize(r.value) <= BodySize(g)
    decreases BodySize(g), 2
  {
    if g == [] then Ok([])
    else
      var x := CoalesceParentChild(g[0]);
      var here :=
        if x.Err? then Err(x.error)
        else if Bogus(x.value) then Ok([])
        else if tag in H_TAGS then TidyHeading(x.value)
        else (SizeSingleton(x.value); Ok([x.value]));
      var rest := CoalesceParents(tag, g[1..]);
      if here.Err? then here
      else if rest.Err? then rest
      else
        BodySizeAppend(here.value, rest.value);
        Ok(here.value + rest.value)
  }

  /** `_coalesce_parent_child(parent)`. */
  function CoalesceParentChild(parent: Node): (r: Result<Node>)
    requires parent.Elem?
    ensures r.Ok? ==> r.value.Elem? && NodeSize(r.value) <= NodeSize(parent)
    decreases NodeSize(parent), 1
  {
    var body := Tidy(parent.body);
    if body.Err? then Err(body.error)
    else Ok(UnwrapParentChild(parent.tag, parent.attrs, body.value))
  }

  /** `_tidy_heading(tag, attrs, body)`: a heading with textual content keeps
      its tag, loses its style and gets a cleansed body; otherwise only its
      non-anchor elements remain. */
  function TidyHeading(x: Node): (r: Result<seq<Node>>)
    requires x.Elem?
    ensures r.Ok? ==> BodySize(r.value) <= NodeSize(x)
    decreases NodeSize(x), 0
  {
    var cleansed := Tidy(Whack(t => t !in CAN_OCCUR_IN_H, x.body, false));
    if cleansed.Err? then cleansed
    else if !BlankBody(Whack(t => t == "img" || t == "figure", cleansed.value, false)) then
      SizeSingleton(Elem(x.tag, x.attrs - {"style"}, cleansed.value));
      Ok([Elem(x.tag, x.attrs - {"style"}, cleansed.value)])
    else
      Ok(HeadingLeftovers(cleansed.value))
  }

  /** `_coalesce_blocks(attrs, blocks)`, at the top of its `while True`:
      the next body is popped, and an empty one ends the generator. */
  function CoalesceBlocks(attrs: WAttrs, blocks: seq<Node>): (r: Result<seq<Node>>)
    requires AllBlocks(blocks)
    ensures r.Ok? ==> BodySize(r.value) <= BodySize(blocks)
    decreases BodySize(blocks), 2
  {
    if blocks == [] || blocks[0].body == [] then Ok([])
    else
      assert BodySize(blocks) == NodeSize(blocks[0]) + BodySize(blocks[1..]);
      PreLoop(attrs, blocks[0].body, blocks[1..], [])
  }

  /** The first inner loop: a run of code bodies becomes one `pre`. */
  function PreLoop(attrs: WAttrs, body: seq<Node>, rest: seq<Node>, pre: seq<string>): (r: Result<seq<Node>>)
    requires AllBlocks(rest)
    ensures r.Ok? ==> BodySize(r.value) <= PreCost(pre) + Weight3(body) + BodySize(rest)
    decreases 1 + Weight3(body) + BodySize(rest), 1
  {
    if body != [] && IsCodeBody(body) then
      assert BodySize(body) == NodeSize(body[0]);
      var t := Plaintextify(body[0].body);
      if t.Err? then Err(t.error)
      else if !t.value.Text? then Err("TypeError")
      else
        var nb := if rest == [] then [] else rest[0].body;
        var nr := if rest == [] then [] else rest[1..];
        assert rest != [] ==> BodySize(rest) == NodeSize(rest[0]) + BodySize(rest[1..]);
        PreLoop(attrs, nb, nr, pre + [t.value.text + "\n"])
    else
      var emitted := if pre == [] then [] else [Elem("pre", map[], TextNodes(pre))];
      SizeSingleton(Elem("pre", map[], TextNodes(pre)));
      var tail := NonPreLoop(attrs, body, rest, []);
      if tail.Err? then tail
      else
        BodySizeAppend(emitted, tail.value);
        Ok(emitted + tail.value)
  }

  /** The second inner loop: a run of other bodies becomes one `blockquote`,
      each body wrapped in a `p` where needed, or in `footer`/`cite` when the
      block carries the class `right`. */
  function NonPreLoop(attrs: WAttrs, body: seq<Node>, rest: seq<Node>, acc: seq<Node>): (r: Result<seq<Node>>)
    requires AllBlocks(rest)
    ensures r.Ok? ==> BodySize(r.value) <= AccCost(acc) + Weight3(body) + BodySize(rest)
    decreases 1 + BodySize(acc) + Weight3(body) + BodySize(rest), 0
  {
    if body != [] && !IsCodeBody(body) then
      var item := QuoteItem(attrs, body);
      var nb := if rest == [] then [] else rest[0].body;
      var nr := if rest == [] then [] else rest[1..];
      assert rest != [] ==> BodySize(rest) == NodeSize(rest[0]) + BodySize(rest[1..]);
      BodySizeAppend(acc, item);
      NonPreLoop(attrs, nb, nr, acc + item)
    else
      var q :=
        if acc == [] then Ok([])
        else
          var t := Tidy(acc);
          if t.Err? then t
          else (SizeSingleton(Elem("blockquote", map[], t.value)); Ok([Elem("blockquote", map[], t.value)]));
      var more := CoalesceBlocks(attrs, rest);
      if q.Err? then q
      else if more.Err? then more
      else
        BodySizeAppend(q.value, more.value);
        Ok(q.value + more.value)
  }

  /** One body of a quotation: in `footer`/`cite` when the block carries the
      class `right`, else in a `p` where it needs one. */
  function QuoteItem(attrs: WAttrs, body: seq<Node>): (r: seq<Node>)
    ensures BodySize(r) <= 2 + BodySize(body)
  {
    SizeSingleton(Elem("cite", map[], body));
    SizeSingleton(Elem("footer", map[], [Elem("cite", map[], body)]));
    SizeSingleton(Elem("p", map[], body));
    if "right" in ClassesOf(attrs) then [Elem("footer", map[], [Elem("cite", map[], body)])]
    else if NeedsWrappingInP(body) then [Elem("p", map[], body)]
    else body
  }

  /** `plaintextify(body)`: footnotes are cut out, every other element with a
      non-empty tag is spliced, and what `tidy` leaves must be at most one
      item. */
  function Plaintextify(body: seq<Node>): (r: Result<Node>)
    decreases BodySize(body), 5
  {
    var w := Whack(t => t != "", Whack(t => t == ".footnote", body, true), false);
    var ans := Tidy(w);
    if ans.Err? then Err(ans.error)
    else if ans.value == [] then Ok(Text(""))
    else if |ans.value| != 1 then Err("AssertionError")
    else Ok(ans.value[0])
  }

  // ---------------------------------------------------------------------
  // What tidy does

  /** `tidy` is the concatenation of what `coalesce` yields per group. */
  lemma TidySplitsAtRuns(g: seq<Node>, rest: seq<Node>)
    requires SameKey(g) && (rest != [] ==> Key(rest[0]) != Key(g[0]))
    ensures Tidy(g + rest) ==
      (var c := CoalesceGroup(g); var t := Tidy(rest);
       if c.Err? then c else if t.Err? then t else Ok(c.value + t.value))
  {
    var es := g + rest;
    RunOfMaximalGroup(g, rest);
    assert es[..|g|] == g && es[|g|..] == rest;
  }

  lemma {:induction false} RunOfMaximalGroup(g: seq<Node>, rest: seq<Node>)
    requires SameKey(g) && (rest != [] ==> Key(rest[0]) != Key(g[0]))
    ensures Run(g + rest) == |g|
    decreases |g|
  {
    var es := g + rest;
    if |g| > 1 {
      assert es[1..] == g[1..] + rest;
      assert Key(g[1]) == Key(g[0]);
      RunOfMaximalGroup(g[1..], rest);
    } else if rest != [] {
      assert es[1] == rest[0];
    }
  }

  /** A single group is tidied by itself. */
  lemma TidyOneGroup(g: seq<Node>)
    requires SameKey(g)
    ensures Tidy(g) == CoalesceGroup(g)
  {
    TidySplitsAtRuns(g, []);
    assert g + [] == g;
    assert Tidy([]) == Ok([]);
    var c := CoalesceGroup(g);
    if c.Ok? {
      assert c.value + [] == c.value;
    }
  }

  predicate AllText(b: seq<Node>)
  {
    forall i :: 0 <= i < |b| ==> b[i].Text?
  }

  /** A run of strings becomes their concatenation. */
  lemma TidyStrings(es: seq<Node>)
    requires es != [] && AllText(es)
    ensures Tidy(es) == Ok([Text(Concat(Texts(es)))])
  {
    assert SameKey(es);
    TidyOneGroup(es);
  }

  /** The trap: `tidy` is not idempotent.  An attribute-less span is replaced
      by its content only after the preceding string has been coalesced, so
      a second pass still finds two adjacent strings to join. */
  lemma TidyIsNotIdempotent()
    ensures Tidy([Text("x"), Elem("span", map[], [Text("y")])]) == Ok([Text("x"), Text("y")])
    ensures Tidy([Text("x"), Text("y")]) == Ok([Text("xy")])
  {
    TidyFirstPass();
    TidySecondPass();
  }

  lemma TidyFirstPass()
    ensures Tidy([Text("x"), Elem("span", map[], [Text("y")])]) == Ok([Text("x"), Text("y")])
  {
    var span := Elem("span", map[], [Text("y")]);
    TidyLoneSpan();
    TidyLoneText();
    assert SameKey([Text("x")]);
    TidySplitsAtRuns([Text("x")], [span]);
    assert [Text("x")] + [span] == [Text("x"), span];
    assert [Text("x")] + [Text("y")] == [Text("x"), Text("y")];
  }

  lemma TidyLoneText()
    ensures CoalesceGroup([Text("x")]) == Ok([Text("x")])
  {
    assert Texts([Text("x")]) == ["x"];
    assert Concat(["x"]) == "x" by { assert ["x"][1..] == []; }
  }

  lemma TidyLoneSpan()
    ensures Tidy([Elem("span", map[], [Text("y")])]) == Ok([Text("y")])
  {
    var span := Elem("span", map[], [Text("y")]);
    TidyStrings([Text("y")]);
    assert Texts([Text("y")]) == ["y"];
    assert Concat(["y"]) == "y" by { assert ["y"][1..] == []; }
    assert SibBodies([span]) == [Text("y")];
    assert DropBogus([Text("y")]) == [Text("y")];
    assert Tidy([]) == Ok([]);
    TidyUnwrapsSpans([span], []);
    assert [span] + [] == [span];
  }

  lemma TidySecondPass()
    ensures Tidy([Text("x"), Text("y")]) == Ok([Text("xy")])
  {
    TidyStrings([Text("x"), Text("y")]);
    assert Texts([Text("x"), Text("y")]) == ["x", "y"] by {
      assert [Text("x"), Text("y")][1..] == [Text("y")];
    }
    assert Concat(["x", "y"]) == "xy" by {
      assert ["x", "y"][1..] == ["y"];
      assert ["y"][1..] == [];
    }
  }

  /** A run of adjacent inline (or `blockquote`) siblings with equal tag and
      attributes becomes one element holding their tidied, concatenated
      bodies (unless that element is bogus). */
  lemma TidyMergesSiblings(tag: string, attrs: WAttrs, g: seq<Node>, rest: seq<Node>)
    requires g != [] && (tag in INLINE_TAG || tag == "blockquote") && !(tag == "span" && attrs == map[])
    requires forall i :: 0 <= i < |g| ==> g[i].Elem? && g[i].tag == tag && g[i].attrs == attrs
    requires rest != [] ==> Key(rest[0]) != Key(g[0])
    requires Tidy(SibBodies(g)).Ok? && Tidy(rest).Ok?
    ensures var m := Elem(tag, attrs, Tidy(SibBodies(g)).value);
      Tidy(g + rest) == Ok((if Bogus(m) then [] else [m]) + Tidy(rest).value)
  {
    assert SameKey(g);
    TidySplitsAtRuns(g, rest);
    assert CoalesceGroup(g) == CoalesceSiblings(tag, attrs, g);
    var m := Elem(tag, attrs, Tidy(SibBodies(g)).value);
    assert CoalesceSiblings(tag, attrs, g) == Ok(DropBogus([m]));
    assert DropBogus([m]) == if Bogus(m) then [] else [m] by {
      assert [m][1..] == [];
    }
  }

  /** An attribute-less span is replaced by its tidied content. */
  lemma TidyUnwrapsSpans(g: seq<Node>, rest: seq<Node>)
    requires g != [] && forall i :: 0 <= i < |g| ==> g[i].Elem? && g[i].tag == "span" && g[i].attrs == map[]
    requires rest != [] ==> Key(rest[0]) != Key(g[0])
    requires Tidy(SibBodies(g)).Ok? && Tidy(rest).Ok?
    ensures Tidy(g + rest) == Ok(DropBogus(Tidy(SibBodies(g)).value) + Tidy(rest).value)
  {
    assert SameKey(g);
    TidySplitsAtRuns(g, rest);
    assert "span" in INLINE_TAG;
    assert CoalesceGroup(g) == CoalesceSiblings("span", map[], g);
  }

  /** Commands and literals pass through untouched. */
  lemma TidyKeepsCommands(g: seq<Node>, rest: seq<Node>)
    requires SameKey(g) && g[0].Elem? && (g[0].tag == "CMD" || g[0].tag == "LIT")
    requires rest != [] ==> Key(rest[0]) != Key(g[0])
    requires Tidy(rest).Ok?
    ensures Tidy(g + rest) == Ok(g + Tidy(rest).value)
  {
    TidySplitsAtRuns(g, rest);
    CommandTagsSpecial(g[0].tag);
    assert CoalesceGroup(g) == Ok(g);
  }

  /** Tags that get none of the special treatments of `coalesce`. */
  predicate OrdinaryTag(tag: string)
  {
    tag !in INLINE_TAG && tag != "blockquote" && tag != ".block" && tag != "LIT" && tag != "CMD" && tag !in H_TAGS
  }

  /** An ordinary element is tidied through `_coalesce_parent_child` and
      dropped if the result is bogus. */
  lemma TidyOrdinaryElement(tag: string, attrs: WAttrs, body: seq<Node>)
    requires OrdinaryTag(tag) && Tidy(body).Ok?
    ensures var x := UnwrapParentChild(tag, attrs, Tidy(body).value);
      Tidy([Elem(tag, attrs, body)]) == Ok(if Bogus(x) then [] else [x])
  {
    var g := [Elem(tag, attrs, body)];
    assert SameKey(g);
    TidyOneGroup(g);
    assert CoalesceGroup(g) == CoalesceParents(tag, g);
    assert g[1..] == [];
    var x := UnwrapParentChild(tag, attrs, Tidy(body).value);
    assert CoalesceParentChild(g[0]) == Ok(x);
    assert CoalesceParents(tag, g[1..]) == Ok([]);
    if !Bogus(x) {
      assert [x] + [] == [x];
    }
  }

  lemma OrdinaryFlowTags()
    ensures OrdinaryTag("li") && OrdinaryTag("dt") && OrdinaryTag("dd") && OrdinaryTag(".footnote") && OrdinaryTag("p")
  {
    OrdinaryLi();
    OrdinaryDt();
    OrdinaryDd();
    OrdinaryFootnote();
    OrdinaryP();
  }

  lemma OrdinaryLi() ensures OrdinaryTag("li") {}
  lemma OrdinaryDt() ensures OrdinaryTag("dt") {}
  lemma OrdinaryDd() ensures OrdinaryTag("dd") {}
  lemma OrdinaryFootnote() ensures OrdinaryTag(".footnote") {}
  lemma OrdinaryP() ensures OrdinaryTag("p") {}

  /** Commands and literals get none of the other treatments of `coalesce`. */
  lemma CommandTagsSpecial(tag: string)
    requires tag == "CMD" || tag == "LIT"
    ensures tag !in INLINE_TAG && tag != "blockquote" && tag != ".block"
  {
  }

  /** In a list item, definition or footnote, a leading attribute-less `p`
      followed by no other `p` is replaced by its content. */
  lemma TidyUnwrapsBogusP(tag: string, attrs: WAttrs, body: seq<Node>)
    requires tag in ["li", "dt", "dd", ".footnote"]
    requires Tidy(body).Ok? && LeadingBogusP(Tidy(body).value)
    ensures var tb := Tidy(body).value;
      var x := Elem(tag, attrs, tb[0].body + tb[1..]);
      Tidy([Elem(tag, attrs, body)]) == Ok(if Bogus(x) then [] else [x])
  {
    OrdinaryFlowTags();
    TidyOrdinaryElement(tag, attrs, body);
  }

  /** An attribute-less `p` holding just a page break or a quotation becomes
      that child. */
  lemma TidyUnwrapsP(body: seq<Node>)
    requires Tidy(body).Ok?
    requires var tb := Tidy(body).value;
      |tb| == 1 && tb[0].Elem? && tb[0].attrs == map[] &&
      ((tb[0].tag == ".pagebreak" && tb[0].body == []) || tb[0].tag == "blockquote")
    ensures var c := Tidy(body).value[0];
      Tidy([Elem("p", map[], body)]) == Ok(if Bogus(c) then [] else [c])
  {
    OrdinaryFlowTags();
    TidyOrdinaryElement("p", map[], body);
  }

  /** A lone span is lifted into its parent only when it holds colour keys
      that the parent's style does not set; its style is merged in. */
  lemma TidyLiftsColourSpan(tag: string, attrs: WAttrs, body: seq<Node>)
    requires OrdinaryTag(tag) && tag !in ["li", "dt", "dd", ".footnote", "p"]
    requires Tidy(body).Ok? && LiftableSpan(attrs, Tidy(body).value)
    ensures var s := Tidy(body).value[0];
      var x := Elem(tag, StyleMerge(attrs, s.attrs["style"].kvs), s.body);
      Tidy([Elem(tag, attrs, body)]) == Ok(if Bogus(x) then [] else [x])
  {
    TidyOrdinaryElement(tag, attrs, body);
  }

  /** A span that sets anything other than a fresh colour key stays. */
  lemma TidyKeepsOtherSpans(tag: string, attrs: WAttrs, body: seq<Node>)
    requires OrdinaryTag(tag) && tag !in ["li", "dt", "dd", ".footnote", "p"]
    requires Tidy(body).Ok? && !LiftableSpan(attrs, Tidy(body).value)
    ensures var x := Elem(tag, attrs, Tidy(body).value);
      Tidy([Elem(tag, attrs, body)]) == Ok(if Bogus(x) then [] else [x])
  {
    TidyOrdinaryElement(tag, attrs, body);
  }

  // ---------------------------------------------------------------------
  // What plaintextify computes

  lemma {:induction false} WhackKeepsNoTag(q: string -> bool, pred: string -> bool, body: seq<Node>, killBody: bool)
    requires NoTag(q, body)
    ensures NoTag(q, Whack(pred, body, killBody))
    decreases body
  {
    if body != [] {
      var head := WhackOne(pred, body[0], killBody);
      NoTagAppend(q, head, Whack(pred, body[1..], killBody));
      WhackKeepsNoTag(q, pred, body[1..], killBody);
      match body[0]
      case Text(_) =>
      case Elem(h, a, b) =>
        WhackKeepsNoTag(q, pred, b, killBody);
        if !pred(h) {
          assert [Elem(h, a, Whack(pred, b, killBody))][1..] == [];
        }
    }
  }

  /** Splicing every element leaves only strings. */
  lemma {:induction false} WhackAllLeavesText(body: seq<Node>)
    requires NoTag(t => t == "", body)
    ensures AllText(Whack(t => t != "", body, false))
    decreases body
  {
    if body != [] {
      var head := WhackOne(t => t != "", body[0], false);
      var tail := Whack(t => t != "", body[1..], false);
      WhackAllLeavesText(body[1..]);
      if body[0].Elem? {
        WhackAllLeavesText(body[0].body);
        assert head == Whack(t => t != "", body[0].body, false);
      }
      assert Whack(t => t != "", body, false) == head + tail;
      assert forall i :: 0 <= i < |head| ==> (head + tail)[i] == head[i];
      assert forall i :: |head| <= i < |head + tail| ==> (head + tail)[i] == tail[i - |head|];
    }
  }

  /** When no tag is empty, `plaintextify` yields the concatenation of all the
      strings outside footnotes. */
  lemma PlaintextifyIsTextOutsideFootnotes(body: seq<Node>)
    requires NoTag(t => t == "", body)
    ensures Plaintextify(body) == Ok(Text(Concat(Texts(Whack(t => t == ".footnote", body, true)))))
  {
    var k := Whack(t => t == ".footnote", body, true);
    WhackKeepsNoTag(t => t == "", t => t == ".footnote", body, true);
    var w := Whack(t => t != "", k, false);
    WhackAllLeavesText(k);
    WhackKeepsTexts(t => t != "", k);
    if w != [] {
      TidyStrings(w);
    } else {
      assert Texts(k) == Texts(w) == [];
    }
  }

  // ---------------------------------------------------------------------
  // _coalesce_blocks as the loop it is

  /** An output prefix already yielded, followed by what is still to come. */
  function Yielded(out: seq<Node>, r: Result<seq<Node>>): Result<seq<Node>>
  {
    if r.Err? then r else Ok(out + r.value)
  }

  lemma YieldedNothing(r: Result<seq<Node>>)
    ensures Yielded([], r) == r
  {
    if r.Ok? {
      assert [] + r.value == r.value;
    }
  }

  lemma YieldedAppend(out: seq<Node>, more: seq<Node>, r: Result<seq<Node>>)
    ensures Yielded(out, Yielded(more, r)) == Yielded(out + more, r)
  {
    if r.Ok? {
      assert out + (more + r.value) == (out + more) + r.value;
    }
  }

  /** The unfoldings of the recursive definition that the loops follow. */
  lemma PreLoopCode(attrs: WAttrs, body: seq<Node>, rest: seq<Node>, pre: seq<string>)
    requires AllBlocks(rest) && body != [] && IsCodeBody(body)
    ensures var t := Plaintextify(body[0].body);
      PreLoop(attrs, body, rest, pre) ==
        if t.Err? then Err(t.error)
        else if !t.value.Text? then Err("TypeError")
        else PreLoop(attrs, if rest == [] then [] else rest[0].body, if rest == [] then [] else rest[1..],
                     pre + [t.value.text + "\n"])
  {
  }

  lemma PreLoopExit(attrs: WAttrs, body: seq<Node>, rest: seq<Node>, pre: seq<string>)
    requires AllBlocks(rest) && !(body != [] && IsCodeBody(body))
    ensures PreLoop(attrs, body, rest, pre) ==
      Yielded(if pre == [] then [] else [Elem("pre", map[], TextNodes(pre))], NonPreLoop(attrs, body, rest, []))
  {
  }

  lemma NonPreLoopStep(attrs: WAttrs, body: seq<Node>, rest: seq<Node>, acc: seq<Node>)
    requires AllBlocks(rest) && body != [] && !IsCodeBody(body)
    ensures NonPreLoop(attrs, body, rest, acc) ==
      NonPreLoop(attrs, if rest == [] then [] else rest[0].body, if rest == [] then [] else rest[1..],
        acc + (if "right" in ClassesOf(attrs) then [Elem("footer", map[], [Elem("cite", map[], body)])]
               else if NeedsWrappingInP(body) then [Elem("p", map[], body)]
               else body))
  {
  }

  lemma NonPreLoopExit(attrs: WAttrs, body: seq<Node>, rest: seq<Node>, acc: seq<Node>)
    requires AllBlocks(rest) && !(body != [] && !IsCodeBody(body))
    ensures NonPreLoop(attrs, body, rest, acc) ==
      if acc == [] then CoalesceBlocks(attrs, rest)
      else
        var t := Tidy(acc);
        if t.Err? then t else Yielded([Elem("blockquote", map[], t.value)], CoalesceBlocks(attrs, rest))
  {
    var more := CoalesceBlocks(attrs, rest);
    if more.Ok? {
      assert [] + more.value == more.value;
    }
  }

  /** The first inner loop of `_coalesce_blocks`. */
  method PreRun(attrs: WAttrs, body0: seq<Node>, blocks0: seq<Node>)
    returns (err: Option<string>, pre: seq<string>, body: seq<Node>, blocks: seq<Node>)
    requires AllBlocks(blocks0)
    ensures AllBlocks(blocks) && !(body != [] && IsCodeBody(body)) && |blocks| <= |blocks0|
    ensures err.Some? ==> PreLoop(attrs, body0, blocks0, []) == Err(err.value)
    ensures err.None? ==> PreLoop(attrs, body0, blocks0, []) == PreLoop(attrs, body, blocks, pre)
  {
    body, blocks, pre := body0, blocks0, [];
    while body != [] && IsCodeBody(body)
      invariant AllBlocks(blocks) && |blocks| <= |blocks0|
      invariant PreLoop(attrs, body0, blocks0, []) == PreLoop(attrs, body, blocks, pre)
      decreases |blocks|, |body|
    {
      PreLoopCode(attrs, body, blocks, pre);
      var t := Plaintextify(body[0].body);
      if t.Err? {
        return Some(t.error), pre, [], [];
      }
      if !t.value.Text? {
        return Some("TypeError"), pre, [], [];
      }
      pre := pre + [t.value.text + "\n"];
      body := [];
      if blocks != [] {
        body := blocks[0].body;
        blocks := blocks[1..];
      }
    }
    err := None;
  }

  /** The second inner loop of `_coalesce_blocks`. */
  method NonPreRun(attrs: WAttrs, body0: seq<Node>, blocks0: seq<Node>)
    returns (acc: seq<Node>, body: seq<Node>, blocks: seq<Node>)
    requires AllBlocks(blocks0)
    ensures AllBlocks(blocks) && !(body != [] && !IsCodeBody(body)) && |blocks| <= |blocks0|
    ensures NonPreLoop(attrs, body0, blocks0, []) == NonPreLoop(attrs, body, blocks, acc)
  {
    body, blocks, acc := body0, blocks0, [];
    while body != [] && !IsCodeBody(body)
      invariant AllBlocks(blocks) && |blocks| <= |blocks0|
      invariant NonPreLoop(attrs, body0, blocks0, []) == NonPreLoop(attrs, body, blocks, acc)
      decreases |blocks|, |body|
    {
      NonPreLoopStep(attrs, body, blocks, acc);
      if "right" in ClassesOf(attrs) {
        acc := acc + [Elem("footer", map[], [Elem("cite", map[], body)])];
      } else if NeedsWrappingInP(body) {
        acc := acc + [Elem("p", map[], body)];
      } else {
        acc := acc + body;
      }
      body := [];
      if blocks != [] {
        body := blocks[0].body;
        blocks := blocks[1..];
      }
    }
  }

  /** `_coalesce_blocks(attrs, blocks)`: pops the next body off `blocks`,
      collects a run of code bodies into one `pre` and a run of other bodies
      into one `blockquote`.  The body that ends the second run is dropped by
      the next `next_body()`.  Its result is the one the recursive
      definition above gives. */
  method CoalesceBlocksLoop(attrs: WAttrs, blocks0: seq<Node>) returns (r: Result<seq<Node>>)
    requires AllBlocks(blocks0)
    ensures r == CoalesceBlocks(attrs, blocks0)
  {
    var blocks := blocks0;
    var out: seq<Node> := [];
    YieldedNothing(CoalesceBlocks(attrs, blocks0));
    while true
      invariant AllBlocks(blocks)
      invariant Yielded(out, CoalesceBlocks(attrs, blocks)) == CoalesceBlocks(attrs, blocks0)
      decreases |blocks|
    {
      if blocks == [] || blocks[0].body == [] {
        assert CoalesceBlocks(attrs, blocks) == Ok([]);
        assert out + [] == out;
        break;
      }
      assert CoalesceBlocks(attrs, blocks) == PreLoop(attrs, blocks[0].body, blocks[1..], []);
      var err, pre, body, rest := PreRun(attrs, blocks[0].body, blocks[1..]);
      if err.Some? {
        return Err(err.value);
      }
      PreLoopExit(attrs, body, rest, pre);
      var emitted := if pre == [] then [] else [Elem("pre", map[], TextNodes(pre))];
      YieldedAppend(out, emitted, NonPreLoop(attrs, body, rest, []));
      out := out + emitted;
      var acc;
      acc, body, rest := NonPreRun(attrs, body, rest);
      NonPreLoopExit(attrs, body, rest, acc);
      if acc != [] {
        var t := Tidy(acc);
        if t.Err? {
          return Err(t.error);
        }
        YieldedAppend(out, [Elem("blockquote", map[], t.value)], CoalesceBlocks(attrs, rest));
        out := out + [Elem("blockquote", map[], t.value)];
      }
      blocks := rest;
    }
    return Ok(out);
  }
}
