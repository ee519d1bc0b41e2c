/** The sectionizer of sectionize.py: the headings of a flat body become
    nested `section`s, and a nested table of contents is collected beside
    them. */
module Sectionize {
  import opened Wrappers
  import opened PyStr
  import opened Internal
  import opened Postprocess
  import opened Seqs

  // ---------------------------------------------------------------------
  // gensym

  /** The id the generator hands out as its `n`-th: `G.` and a number. */
  function GensymId(n: nat): string
  {
    "G." + NatToString(n)
  }

  /** Different calls of the generator give different ids. */
  lemma GensymIdsDistinct(m: nat, n: nat)
    requires m != n
    ensures GensymId(m) != GensymId(n)
  {
    if GensymId(m) == GensymId(n) {
      assert GensymId(m)[2..] == NatToString(m);
      assert GensymId(n)[2..] == NatToString(n);
      NatToStringInjective(m, n);
    }
  }

  /** The `gensym` callable: each call hands out the next id. */
  class Gensym {
    var count: nat

    constructor()
      ensures count == 0
    {
      count := 0;
    }

    method Next() returns (id: string)
      modifies this
      ensures id == GensymId(old(count)) && count == old(count) + 1
    {
      id := GensymId(count);
      count := count + 1;
    }
  }

  // ---------------------------------------------------------------------
  // lift_anchor_id

  /** The id named by an anchor `('a', {'name': R}, [])` or
      `('a', {'id': R}, [])` at the head of `body`; the attrs must have
      exactly that one key, as dict equality demands. */
  function AnchorRef(body: seq<Node>): (r: Option<AttrVal>)
    ensures r.Some? ==> |body| > 0
  {
    if body != [] && body[0].Elem? && body[0].tag == "a" && body[0].body == [] then
      var a := body[0].attrs;
      if a.Keys == {"name"} then Some(a["name"])
      else if a.Keys == {"id"} then Some(a["id"])
      else None
    else None
  }

  datatype Lifted = Lifted(attrs: WAttrs, body: seq<Node>)

  /** `lift_anchor_id(attr, body, gensym, kill_anchor)`, with the number of
      ids handed out so far before and after. */
  function LiftAnchorId(attr: WAttrs, body: seq<Node>, killAnchor: bool, n: nat): (r: (Lifted, nat))
    ensures "id" in r.0.attrs
  {
    match AnchorRef(body)
    case Some(ref) =>
      if "id" in attr then (Lifted(attr, body), n)
      else (Lifted(attr["id" := ref], if killAnchor then body[1..] else body), n)
    case None =>
      if "id" in attr then (Lifted(attr, body), n)
      else (Lifted(attr["id" := Str(GensymId(n))], body), n + 1)
  }

  /** An existing id is never changed, and then nothing else is either. */
  lemma LiftKeepsId(attr: WAttrs, body: seq<Node>, killAnchor: bool, n: nat)
    requires "id" in attr
    ensures LiftAnchorId(attr, body, killAnchor, n) == (Lifted(attr, body), n)
  {
  }

  /** Without an id, a leading anchor gives it; the anchor goes only when
      `killAnchor`. */
  lemma LiftFromAnchor(attr: WAttrs, body: seq<Node>, killAnchor: bool, n: nat)
    requires "id" !in attr && AnchorRef(body).Some?
    ensures var r := LiftAnchorId(attr, body, killAnchor, n);
      r.0.attrs == attr["id" := AnchorRef(body).value] && r.1 == n &&
      r.0.body == (if killAnchor then body[1..] else body)
  {
  }

  /** Without an id and without an anchor, the generator gives one. */
  lemma LiftFromGensym(attr: WAttrs, body: seq<Node>, killAnchor: bool, n: nat)
    requires "id" !in attr && AnchorRef(body).None?
    ensures LiftAnchorId(attr, body, killAnchor, n) == (Lifted(attr["id" := Str(GensymId(n))], body), n + 1)
  {
  }

  /** Only `id` is ever set: every other attribute, the classes among them,
      stays as it was. */
  lemma LiftOnlySetsId(attr: WAttrs, body: seq<Node>, killAnchor: bool, n: nat)
    ensures var a := LiftAnchorId(attr, body, killAnchor, n).0.attrs;
      a.Keys == attr.Keys + {"id"} && forall k :: k in attr && k != "id" ==> a[k] == attr[k]
    ensures ClassesOf(LiftAnchorId(attr, body, killAnchor, n).0.attrs) == ClassesOf(attr)
  {
  }

  /** Without `killAnchor` the body is never touched. */
  lemma LiftKeepsBody(attr: WAttrs, body: seq<Node>, n: nat)
    ensures LiftAnchorId(attr, body, false, n).0.body == body
  {
  }

  /** The loop body of `lift_anchor_id` against the generator. */
  method LiftAnchorIdRun(attr: WAttrs, body: seq<Node>, killAnchor: bool, g: Gensym) returns (l: Lifted)
    modifies g
    ensures (l, g.count) == LiftAnchorId(attr, body, killAnchor, old(g.count))
  {
    var ref := AnchorRef(body);
    if ref.Some? {
      if "id" !in attr {
        l := Lifted(attr["id" := ref.value], if killAnchor then body[1..] else body);
      } else {
        l := Lifted(attr, body);
      }
    } else if "id" !in attr {
      var id := g.Next();
      l := Lifted(attr["id" := Str(id)], body);
    } else {
      l := Lifted(attr, body);
    }
  }

  // ---------------------------------------------------------------------
  // ensec and tocify_heading

  /** `ensec((h, attr, body), section, kill_anchor, gensym)`: the section
      takes the lifted attributes, the heading keeps none. */
  function Ensec(h: string, attr: WAttrs, body: seq<Node>, section: seq<Node>, killAnchor: bool, n: nat): (r: (Node, nat))
    requires IsHTag(h)
    ensures r.0.Elem? && r.0.tag == "section" && "id" in r.0.attrs
    ensures |r.0.body| == |section| + 1 && r.0.body[0].Elem? && r.0.body[0].tag == h && r.0.body[0].attrs == map[]
    ensures r.0.body[1..] == section
  {
    var (l, n') := LiftAnchorId(attr, body, killAnchor, n);
    (Elem("section", l.attrs, [Elem(h, map[], l.body)] + section), n')
  }

  method EnsecRun(h: string, attr: WAttrs, body: seq<Node>, section: seq<Node>, killAnchor: bool, g: Gensym)
    returns (sec: Node)
    requires IsHTag(h)
    modifies g
    ensures (sec, g.count) == Ensec(h, attr, body, section, killAnchor, old(g.count))
  {
    var l := LiftAnchorIdRun(attr, body, killAnchor, g);
    sec := Elem("section", l.attrs, [Elem(h, map[], l.body)] + section);
  }

  /** The text of a TOC entry is `plaintextify(b)` of the heading's lifted
      body; the model takes that function as a parameter, and `SectionizeRun`
      passes `Postprocess.Plaintextify`. Nothing proved here depends on
      which function it is. */
  type PlainText = seq<Node> -> Result<Node>

  /** An entry of the table of contents: a heading `(h, {'id': id},
      [plaintext])`, or the list of a subsection's entries. */
  datatype TocItem =
    | Entry(tag: string, id: AttrVal, text: Node)
    | Sub(items: seq<TocItem>)

  /** The entry `tocify_heading` builds, and the attributes the heading is
      left with. */
  datatype Tocified = Tocified(entry: TocItem, headingAttrs: WAttrs)

  /** `tocify_heading((h, a, b), gensym)`. The gensym branch of
      `lift_anchor_id` writes the new id into the heading's own attrs; the
      anchor branch writes it into a copy, so the heading keeps `a`. */
  function TocifyHeading(plain: PlainText, h: string, a: WAttrs, b: seq<Node>, n: nat): (r: Result<(Tocified, nat)>)
    requires IsHTag(h)
    ensures r.Ok? ==> r.value.0.entry.Entry? && r.value.0.entry.tag == h
  {
    var (l, n') := LiftAnchorId(a, b, true, n);
    match plain(l.body)
    case Err(m) => Err(m)
    case Ok(p) => Ok((Tocified(Entry(h, l.attrs["id"], p), if AnchorRef(b).Some? then a else l.attrs), n'))
  }

  method TocifyHeadingRun(plain: PlainText, h: string, a: WAttrs, b: seq<Node>, g: Gensym) returns (r: Result<Tocified>)
    requires IsHTag(h)
    modifies g
    ensures var s := TocifyHeading(plain, h, a, b, old(g.count));
      r.Ok? == s.Ok? && (r.Ok? ==> r.value == s.value.0 && g.count == s.value.1)
  {
    var l := LiftAnchorIdRun(a, b, true, g);
    var p := plain(l.body);
    if p.Err? {
      return Err(p.error);
    }
    r := Ok(Tocified(Entry(h, l.attrs["id"], p.value), if AnchorRef(b).Some? then a else l.attrs));
  }

  /** Each TOC entry carries the id of its section, whichever branch of
      `lift_anchor_id` gave it and however many ids were handed out in
      between. */
  lemma TocIdIsSectionId(plain: PlainText, h: string, a: WAttrs, b: seq<Node>, section: seq<Node>, killAnchor: bool, n: nat, m: nat)
    requires IsHTag(h) && TocifyHeading(plain, h, a, b, n).Ok?
    ensures var t := TocifyHeading(plain, h, a, b, n).value.0;
      t.entry.id == Ensec(h, t.headingAttrs, b, section, killAnchor, m).0.attrs["id"]
  {
  }

  /** The in-place write matters: were the heading left with its own
      attrs in the gensym branch, its section would get the next id, not the
      TOC's. */
  lemma TocIdNeedsSharedAttrs(plain: PlainText, h: string, a: WAttrs, b: seq<Node>, section: seq<Node>, killAnchor: bool, n: nat, m: nat)
    requires IsHTag(h) && TocifyHeading(plain, h, a, b, n).Ok?
    requires "id" !in a && AnchorRef(b).None? && m != n
    ensures TocifyHeading(plain, h, a, b, n).value.0.entry.id != Ensec(h, a, b, section, killAnchor, m).0.attrs["id"]
  {
    GensymIdsDistinct(n, m);
  }

  // ---------------------------------------------------------------------
  // _sectionize

  /** `e and e[0] in H_TAGS`: a string, whose first character is never a
      tag, is no heading. */
  predicate IsHeading(e: Node)
  {
    e.Elem? && IsHTag(e.tag)
  }

  /** The tags of `H_TAGS`, `h1` to `h6`, read off their characters. */
  predicate IsHTag(t: string)
  {
    |t| == 2 && t[0] == 'h' && '1' <= t[1] <= '6'
  }

  lemma IsHTagIsHTags(t: string)
    ensures IsHTag(t) <==> t in H_TAGS
  {
    if IsHTag(t) {
      var i := (t[1] as int) - ('1' as int);
      assert t == H_TAGS[i];
    }
  }

  /** `a <= b` on Python strings. */
  predicate StrLe(a: string, b: string)
  {
    a == b || StrLt(a, b)
  }

  /** What one level of `_sectionize` gives: the gobbled items, the TOC, and
      what is left of the caller's list. */
  datatype Sectioned = Sectioned(gobbled: seq<Node>, toc: seq<TocItem>, rest: seq<Node>)

  predicate IsSuffix<T(==)>(s: seq<T>, t: seq<T>)
  {
    |s| <= |t| && t[|t| - |s|..] == s
  }

  /** `gobbled` and `toc` in front of what the rest of the loop finds. */
  function Prepend(gobbled: seq<Node>, toc: seq<TocItem>, r: Result<(Sectioned, nat)>): (p: Result<(Sectioned, nat)>)
    ensures p.Ok? <==> r.Ok?
    ensures p.Ok? ==> p.value.0.rest == r.value.0.rest && p.value.1 == r.value.1
  {
    match r
    case Err(m) => Err(m)
    case Ok((s, n)) => Ok((Sectioned(gobbled + s.gobbled, toc + s.toc, s.rest), n))
  }

  /** What a successful `Prepend` was given. */
  lemma PrependOk(gobbled: seq<Node>, toc: seq<TocItem>, r: Result<(Sectioned, nat)>, s: Sectioned, m: nat)
    requires Prepend(gobbled, toc, r) == Ok((s, m))
    ensures |gobbled| <= |s.gobbled| && s.gobbled == gobbled + s.gobbled[|gobbled|..] && |toc| <= |s.toc|
    ensures r == Ok((Sectioned(s.gobbled[|gobbled|..], s.toc[|toc|..], s.rest), m))
  {
    var t := r.value.0;
    assert s == Sectioned(gobbled + t.gobbled, toc + t.toc, t.rest);
    assert s.gobbled[|gobbled|..] == t.gobbled && s.toc[|toc|..] == t.toc;
  }

  lemma PrependPrepend(g1: seq<Node>, t1: seq<TocItem>, g2: seq<Node>, t2: seq<TocItem>, r: Result<(Sectioned, nat)>)
    ensures Prepend(g1, t1, Prepend(g2, t2, r)) == Prepend(g1 + g2, t1 + t2, r)
  {
    if r.Ok? {
      assert g1 + (g2 + r.value.0.gobbled) == (g1 + g2) + r.value.0.gobbled;
      assert t1 + (t2 + r.value.0.toc) == (t1 + t2) + r.value.0.toc;
    }
  }

  lemma PrependNothing(r: Result<(Sectioned, nat)>)
    ensures Prepend([], [], r) == r
  {
    if r.Ok? {
      assert [] + r.value.0.gobbled == r.value.0.gobbled;
      assert [] + r.value.0.toc == r.value.0.toc;
    }
  }

  /** A subsection's TOC joins as one nested list, and only when non-empty. */
  function SubToc(t: seq<TocItem>): seq<TocItem>
  {
    if t == [] then [] else [Sub(t)]
  }

  /** The TOC entry of a heading found at `level` (none when `level` is past
      `tocUpto`), and the attributes the heading is left with. */
  function TocStep(plain: PlainText, e: Node, level: string, tocUpto: string, n: nat): (r: Result<(seq<TocItem>, WAttrs, nat)>)
    requires IsHeading(e)
  {
    if StrLe(level, tocUpto) then
      match TocifyHeading(plain, e.tag, e.attrs, e.body, n)
      case Err(m) => Err(m)
      case Ok((t, n')) => Ok(([t.entry], t.headingAttrs, n'))
    else Ok(([], e.attrs, n))
  }

  /** What a heading deeper than the level adds: its section, its TOC
      entries, and what is left of the list after its subsection. */
  datatype Headed = Headed(sec: Node, toc: seq<TocItem>, rest: seq<Node>)

  /** The heading branch of the `_sectionize` loop, for a heading `e` just
      popped from the front of the list, `rest` being what follows it. */
  function HeadingStep(plain: PlainText, e: Node, rest: seq<Node>, level: string, tocUpto: string, kill: bool, n: nat): (r: Result<(Headed, nat)>)
    requires IsHeading(e)
    ensures r.Ok? ==> IsSuffix(r.value.0.rest, rest)
    decreases |rest|, 1
  {
    match TocStep(plain, e, level, tocUpto, n)
    case Err(m) => Err(m)
    case Ok((entries, attrs, n1)) =>
      match Level(plain, rest, e.tag, tocUpto, kill, n1)
      case Err(m) => Err(m)
      case Ok((sub, n2)) =>
        var (sec, n3) := Ensec(e.tag, attrs, e.body, sub.gobbled, kill, n2);
        Ok((Headed(sec, entries + SubToc(sub.toc), sub.rest), n3))
  }

  /** `_sectionize(body, level, toc_upto, kill_anchors, gensym)` with `n`
      ids handed out before. */
  function Level(plain: PlainText, body: seq<Node>, level: string, tocUpto: string, kill: bool, n: nat): (r: Result<(Sectioned, nat)>)
    ensures r.Ok? ==> IsSuffix(r.value.0.rest, body)
    decreases |body|, 0
  {
    if body == [] then Ok((Sectioned([], [], []), n))
    else
      var e := body[0];
      if !IsHeading(e) then Prepend([e], [], Level(plain, body[1..], level, tocUpto, kill, n))
      else if StrLe(e.tag, level) then Ok((Sectioned([], [], body), n))
      else
        match HeadingStep(plain, e, body[1..], level, tocUpto, kill, n)
        case Err(m) => Err(m)
        case Ok((h, n1)) =>
          var r := Level(plain, h.rest, level, tocUpto, kill, n1);
          assert r.Ok? ==> IsSuffix(r.value.0.rest, body) by {
            if r.Ok? {
              var rest := r.value.0.rest;
              assert h.rest == body[|body| - |h.rest|..];
              assert rest == h.rest[|h.rest| - |rest|..];
            }
          }
          Prepend([h.sec], h.toc, r)
  }

  lemma LevelTextEq(plain: PlainText, body: seq<Node>, level: string, tocUpto: string, kill: bool, n: nat)
    requires body != [] && !IsHeading(body[0])
    ensures Level(plain, body, level, tocUpto, kill, n) == Prepend([body[0]], [], Level(plain, body[1..], level, tocUpto, kill, n))
  {
  }

  lemma LevelHeadingEq(plain: PlainText, body: seq<Node>, level: string, tocUpto: string, kill: bool, n: nat, h: Headed, n1: nat)
    requires body != [] && IsHeading(body[0]) && !StrLe(body[0].tag, level)
    requires HeadingStep(plain, body[0], body[1..], level, tocUpto, kill, n) == Ok((h, n1))
    ensures Level(plain, body, level, tocUpto, kill, n) == Prepend([h.sec], h.toc, Level(plain, h.rest, level, tocUpto, kill, n1))
  {
  }

  lemma LevelHeadingErr(plain: PlainText, body: seq<Node>, level: string, tocUpto: string, kill: bool, n: nat)
    requires body != [] && IsHeading(body[0]) && !StrLe(body[0].tag, level)
    requires HeadingStep(plain, body[0], body[1..], level, tocUpto, kill, n).Err?
    ensures Level(plain, body, level, tocUpto, kill, n).Err?
  {
  }

  /** The loop invariant of `LevelRun`: what is gobbled so far, followed by
      the level of what is left, is the level of the whole body. */
  predicate LevelInv(plain: PlainText, body: seq<Node>, level: string, tocUpto: string, kill: bool, n0: nat,
                     gobbled: seq<Node>, toc: seq<TocItem>, rest: seq<Node>, n: nat)
  {
    Level(plain, body, level, tocUpto, kill, n0) == Prepend(gobbled, toc, Level(plain, rest, level, tocUpto, kill, n))
  }

  /** The loop invariant of `LevelRun` holds on entry. */
  lemma LevelStartInv(plain: PlainText, body: seq<Node>, level: string, tocUpto: string, kill: bool, n0: nat)
    ensures LevelInv(plain, body, level, tocUpto, kill, n0, [], [], body, n0)
  {
    PrependNothing(Level(plain, body, level, tocUpto, kill, n0));
  }

  /** The loop invariant of `LevelRun` across one item that is no heading. */
  lemma LevelTextInv(plain: PlainText, body: seq<Node>, whole: seq<Node>, level: string, tocUpto: string, kill: bool, n0: nat, n: nat,
                     gobbled: seq<Node>, toc: seq<TocItem>)
    requires whole != [] && !IsHeading(whole[0])
    requires LevelInv(plain, body, level, tocUpto, kill, n0, gobbled, toc, whole, n)
    ensures LevelInv(plain, body, level, tocUpto, kill, n0, gobbled + [whole[0]], toc, whole[1..], n)
  {
    LevelTextEq(plain, whole, level, tocUpto, kill, n);
    PrependPrepend(gobbled, toc, [whole[0]], [], Level(plain, whole[1..], level, tocUpto, kill, n));
    assert toc + [] == toc;
  }

  /** The loop invariant of `LevelRun` when the list runs out or a heading
      no deeper than the level ends it. */
  lemma LevelEndInv(plain: PlainText, body: seq<Node>, whole: seq<Node>, level: string, tocUpto: string, kill: bool, n0: nat, n: nat,
                    gobbled: seq<Node>, toc: seq<TocItem>)
    requires whole == [] || (IsHeading(whole[0]) && StrLe(whole[0].tag, level))
    requires LevelInv(plain, body, level, tocUpto, kill, n0, gobbled, toc, whole, n)
    ensures Level(plain, body, level, tocUpto, kill, n0) == Ok((Sectioned(gobbled, toc, whole), n))
  {
    assert gobbled + [] == gobbled && toc + [] == toc;
  }

  /** The loop invariant of `LevelRun` across one heading. */
  lemma LevelHeadingInv(plain: PlainText, body: seq<Node>, whole: seq<Node>, level: string, tocUpto: string, kill: bool, n0: nat, n: nat,
                        gobbled: seq<Node>, toc: seq<TocItem>, h: Headed, n1: nat)
    requires whole != [] && IsHeading(whole[0]) && !StrLe(whole[0].tag, level)
    requires LevelInv(plain, body, level, tocUpto, kill, n0, gobbled, toc, whole, n)
    requires HeadingStep(plain, whole[0], whole[1..], level, tocUpto, kill, n) == Ok((h, n1))
    ensures LevelInv(plain, body, level, tocUpto, kill, n0, gobbled + [h.sec], toc + h.toc, h.rest, n1)
  {
    LevelHeadingEq(plain, whole, level, tocUpto, kill, n, h, n1);
    PrependPrepend(gobbled, toc, [h.sec], h.toc, Level(plain, h.rest, level, tocUpto, kill, n1));
  }

  /** A failing heading makes the whole level fail. */
  lemma LevelErrInv(plain: PlainText, body: seq<Node>, whole: seq<Node>, level: string, tocUpto: string, kill: bool, n0: nat, n: nat,
                    gobbled: seq<Node>, toc: seq<TocItem>)
    requires whole != [] && IsHeading(whole[0]) && !StrLe(whole[0].tag, level)
    requires LevelInv(plain, body, level, tocUpto, kill, n0, gobbled, toc, whole, n)
    requires HeadingStep(plain, whole[0], whole[1..], level, tocUpto, kill, n).Err?
    ensures Level(plain, body, level, tocUpto, kill, n0).Err?
  {
    LevelHeadingErr(plain, whole, level, tocUpto, kill, n);
  }

  /** The heading branch against the generator: the TOC entry, the
      subsection, the section. */
  method HeadingRun(plain: PlainText, e: Node, rest: seq<Node>, level: string, tocUpto: string, kill: bool, g: Gensym)
    returns (r: Result<Headed>)
    requires IsHeading(e)
    modifies g
    ensures var s := HeadingStep(plain, e, rest, level, tocUpto, kill, old(g.count));
      r.Ok? == s.Ok? && (r.Ok? ==> r.value == s.value.0 && g.count == s.value.1)
    decreases |rest|, 1
  {
    ghost var n := g.count;
    var entries: seq<TocItem> := [];
    var attrs := e.attrs;
    if StrLe(level, tocUpto) {
      var t := TocifyHeadingRun(plain, e.tag, e.attrs, e.body, g);
      if t.Err? {
        return Err(t.error);
      }
      entries := [t.value.entry];
      attrs := t.value.headingAttrs;
    }
    assert TocStep(plain, e, level, tocUpto, n) == Ok((entries, attrs, g.count));
    var sub := LevelRun(plain, rest, e.tag, tocUpto, kill, g);
    if sub.Err? {
      return Err(sub.error);
    }
    var sec := EnsecRun(e.tag, attrs, e.body, sub.value.gobbled, kill, g);
    r := Ok(Headed(sec, entries + SubToc(sub.value.toc), sub.value.rest));
  }

  /** The loop of `_sectionize`, popping from the front of the caller's
      list and pushing a heading back when it ends the level. */
  method LevelRun(plain: PlainText, body: seq<Node>, level: string, tocUpto: string, kill: bool, g: Gensym)
    returns (r: Result<Sectioned>)
    modifies g
    ensures var s := Level(plain, body, level, tocUpto, kill, old(g.count));
      r.Ok? == s.Ok? && (r.Ok? ==> r.value == s.value.0 && g.count == s.value.1)
    decreases |body|, 0
  {
    var gobbled: seq<Node> := [];
    var toc: seq<TocItem> := [];
    var rest := body;
    ghost var n0 := g.count;
    LevelStartInv(plain, body, level, tocUpto, kill, n0);
    while true
      invariant |rest| <= |body|
      invariant LevelInv(plain, body, level, tocUpto, kill, n0, gobbled, toc, rest, g.count)
      decreases |rest|
    {
      if rest == [] {
        LevelEndInv(plain, body, rest, level, tocUpto, kill, n0, g.count, gobbled, toc);
        return Ok(Sectioned(gobbled, toc, []));
      }
      var e := rest[0];
      var whole := rest;
      ghost var n := g.count;
      rest := rest[1..];
      if !IsHeading(e) {
        LevelTextInv(plain, body, whole, level, tocUpto, kill, n0, n, gobbled, toc);
        gobbled := gobbled + [e];
        continue;
      }
      if StrLe(e.tag, level) {
        LevelEndInv(plain, body, whole, level, tocUpto, kill, n0, n, gobbled, toc);
        rest := [e] + rest;
        assert rest == whole;
        return Ok(Sectioned(gobbled, toc, rest));
      }
      var step := GobbleHeadingRun(plain, body, whole, level, tocUpto, kill, g, n0, gobbled, toc);
      if step.Err? {
        return Err(step.error);
      }
      gobbled, toc, rest := step.value.0, step.value.1, step.value.2;
    }
  }

  /** The heading branch of `LevelRun`'s loop: the section the heading opens
      is gobbled, its TOC entries are kept, and the loop goes on after it. */
  method GobbleHeadingRun(plain: PlainText, ghost body: seq<Node>, whole: seq<Node>, level: string, tocUpto: string, kill: bool, g: Gensym,
                          ghost n0: nat, gobbled: seq<Node>, toc: seq<TocItem>)
    returns (r: Result<(seq<Node>, seq<TocItem>, seq<Node>)>)
    requires whole != [] && IsHeading(whole[0]) && !StrLe(whole[0].tag, level)
    requires LevelInv(plain, body, level, tocUpto, kill, n0, gobbled, toc, whole, g.count)
    modifies g
    ensures r.Err? ==> Level(plain, body, level, tocUpto, kill, n0).Err?
    ensures r.Ok? ==> |r.value.2| < |whole|
    ensures r.Ok? ==> LevelInv(plain, body, level, tocUpto, kill, n0, r.value.0, r.value.1, r.value.2, g.count)
    decreases |whole| - 1, 2
  {
    ghost var n := g.count;
    var h := HeadingRun(plain, whole[0], whole[1..], level, tocUpto, kill, g);
    if h.Err? {
      LevelErrInv(plain, body, whole, level, tocUpto, kill, n0, n, gobbled, toc);
      return Err(h.error);
    }
    LevelHeadingInv(plain, body, whole, level, tocUpto, kill, n0, n, gobbled, toc, h.value, g.count);
    r := Ok((gobbled + [h.value.sec], toc + h.value.toc, h.value.rest));
  }

  /** A level ends at the end of the list or at a heading no deeper than
      itself, which is left for the caller. */
  lemma {:induction false} LevelStops(plain: PlainText, body: seq<Node>, level: string, tocUpto: string, kill: bool, n: nat)
    requires Level(plain, body, level, tocUpto, kill, n).Ok?
    ensures var rest := Level(plain, body, level, tocUpto, kill, n).value.0.rest;
      rest == [] || (IsHeading(rest[0]) && StrLe(rest[0].tag, level))
    decreases |body|
  {
    if body != [] {
      var e := body[0];
      if !IsHeading(e) {
        LevelStops(plain, body[1..], level, tocUpto, kill, n);
      } else if !StrLe(e.tag, level) {
        var h := HeadingStep(plain, e, body[1..], level, tocUpto, kill, n).value;
        LevelStops(plain, h.0.rest, level, tocUpto, kill, h.1);
      }
    }
  }

  /** A body without headings is gobbled whole, in order, with no TOC. */
  lemma {:induction false} LevelWithoutHeadings(plain: PlainText, body: seq<Node>, level: string, tocUpto: string, kill: bool, n: nat)
    requires forall i :: 0 <= i < |body| ==> !IsHeading(body[i])
    ensures Level(plain, body, level, tocUpto, kill, n) == Ok((Sectioned(body, [], []), n))
    decreases |body|
  {
    if body != [] {
      NoHeadingsTail(body);
      LevelWithoutHeadings(plain, body[1..], level, tocUpto, kill, n);
      LevelTextEq(plain, body, level, tocUpto, kill, n);
      ConsTail(body);
      EmptyToc([]);
    }
  }

  lemma NoHeadingsTail(body: seq<Node>)
    requires body != [] && forall i :: 0 <= i < |body| ==> !IsHeading(body[i])
    ensures !IsHeading(body[0]) && forall i :: 0 <= i < |body[1..]| ==> !IsHeading(body[1..][i])
  {
    assert forall i :: 0 <= i < |body[1..]| ==> body[1..][i] == body[i + 1];
  }



  lemma EmptyToc(none: seq<TocItem>)
    requires none == []
    ensures none + none == none
  {
  }

  /** Past `tocUpto` no level collects TOC entries: the levels below only
      get deeper. */
  lemma {:induction false} LevelPastTocUpto(plain: PlainText, body: seq<Node>, level: string, tocUpto: string, kill: bool, n: nat)
    requires StrLt(tocUpto, level)
    requires Level(plain, body, level, tocUpto, kill, n).Ok?
    ensures Level(plain, body, level, tocUpto, kill, n).value.0.toc == []
    decreases |body|, 0
  {
    if body != [] {
      var e := body[0];
      if !IsHeading(e) {
        LevelPastTocUpto(plain, body[1..], level, tocUpto, kill, n);
      } else if !StrLe(e.tag, level) {
        var h := HeadingStep(plain, e, body[1..], level, tocUpto, kill, n).value;
        HeadingPastTocUpto(plain, e, body[1..], level, tocUpto, kill, n);
        LevelPastTocUpto(plain, h.0.rest, level, tocUpto, kill, h.1);
      }
    }
  }

  lemma {:induction false} HeadingPastTocUpto(plain: PlainText, e: Node, rest: seq<Node>, level: string, tocUpto: string, kill: bool, n: nat)
    requires StrLt(tocUpto, level) && IsHeading(e) && !StrLe(e.tag, level)
    requires HeadingStep(plain, e, rest, level, tocUpto, kill, n).Ok?
    ensures HeadingStep(plain, e, rest, level, tocUpto, kill, n).value.0.toc == []
    decreases |rest|, 1
  {
    StrLtAsymmetric(tocUpto, level);
    assert !StrLe(level, tocUpto);
    StrLtTotal(e.tag, level);
    StrLtTransitive(tocUpto, level, e.tag);
    LevelPastTocUpto(plain, rest, e.tag, tocUpto, kill, n);
  }

  // ---------------------------------------------------------------------
  // Heading levels as strings

  /** For the six heading tags string order is the order of their digits,
      and every one of them is deeper than the start level `h0`. */
  lemma HeadingOrder(i: nat, j: nat)
    requires i < 6 && j < 6
    ensures StrLe(H_TAGS[i], H_TAGS[j]) <==> i <= j
    ensures StrLt("h0", H_TAGS[i])
  {
    assert H_TAGS[i] == ['h', DigitChar(i + 1)] && H_TAGS[j] == ['h', DigitChar(j + 1)];
    assert ['h', DigitChar(i + 1)][1..] == [DigitChar(i + 1)];
    assert ['h', DigitChar(j + 1)][1..] == [DigitChar(j + 1)];
    assert "h0"[1..] == "0";
    assert [DigitChar(j + 1)][1..] == [];
  }

  lemma HeadingBelowH0(e: Node)
    requires IsHeading(e)
    ensures !StrLe(e.tag, "h0")
  {
    IsHTagIsHTags(e.tag);
    var i :| 0 <= i < 6 && H_TAGS[i] == e.tag;
    HeadingOrder(i, i);
    StrLtAsymmetric("h0", e.tag);
  }

  /** The skipped levels of the badly structured example body of
      test_html_writer.py: under an `h1`-level list, an `h2` whose section
      holds an `h4` and then an `h3`. The `h4` opens a subsection, and the
      `h3` closes it (`'h3' <= 'h4'`) and opens a sibling one instead of
      nesting. Both TOC entries nest under the `h2`'s. */
  lemma SkippedLevelSiblings(plain: PlainText, a2: WAttrs, b2: seq<Node>, a4: WAttrs, b4: seq<Node>,
                             a3: WAttrs, b3: seq<Node>, kill: bool, n: nat)
    requires "id" in a2 && "id" in a4 && "id" in a3
    requires plain(b2).Ok? && plain(b4).Ok? && plain(b3).Ok?
    ensures Level(plain, [Elem("h2", a2, b2), Elem("h4", a4, b4), Elem("h3", a3, b3)], "h1", "h6", kill, n) ==
      Ok((Sectioned([Elem("section", a2, [Elem("h2", map[], b2), Elem("section", a4, [Elem("h4", map[], b4)]),
                                          Elem("section", a3, [Elem("h3", map[], b3)])])],
                    [Entry("h2", a2["id"], plain(b2).value),
                     Sub([Entry("h4", a4["id"], plain(b4).value), Entry("h3", a3["id"], plain(b3).value)])],
                    []), n))
  {
    var e2, e4, e3 := Elem("h2", a2, b2), Elem("h4", a4, b4), Elem("h3", a3, b3);
    var t2, t4, t3 := Entry("h2", a2["id"], plain(b2).value), Entry("h4", a4["id"], plain(b4).value),
      Entry("h3", a3["id"], plain(b3).value);
    var s4, s3 := Elem("section", a4, [Elem("h4", map[], b4)]), Elem("section", a3, [Elem("h3", map[], b3)]);
    H4ThenH3(plain, a4, b4, a3, b3, kill, n);
    assert H_TAGS[0] == "h1" && H_TAGS[1] == "h2" && H_TAGS[5] == "h6";
    HeadingOrder(0, 5);
    HeadingOrder(1, 0);
    KeptHeading(plain, "h2", a2, b2, "h1", "h6", kill, n, [s4, s3]);
    assert IsHeading(e2);
    assert [e2, e4, e3][1..] == [e4, e3];
    assert [Elem("h2", map[], b2)] + [s4, s3] == [Elem("h2", map[], b2), s4, s3];
    assert [t2] + SubToc([t4, t3]) == [t2, Sub([t4, t3])];
    var s2 := Elem("section", a2, [Elem("h2", map[], b2), s4, s3]);
    assert HeadingStep(plain, e2, [e4, e3], "h1", "h6", kill, n) == Ok((Headed(s2, [t2, Sub([t4, t3])], []), n));
    LevelHeadingEq(plain, [e2, e4, e3], "h1", "h6", kill, n, Headed(s2, [t2, Sub([t4, t3])], []), n);
    assert Level(plain, [], "h1", "h6", kill, n) == Ok((Sectioned([], [], []), n));
    assert [s2] + [] == [s2] && [t2, Sub([t4, t3])] + [] == [t2, Sub([t4, t3])];
  }

  /** At level `h2`, an `h4` and then an `h3` give two sibling sections. */
  lemma H4ThenH3(plain: PlainText, a4: WAttrs, b4: seq<Node>, a3: WAttrs, b3: seq<Node>, kill: bool, n: nat)
    requires "id" in a4 && "id" in a3 && plain(b4).Ok? && plain(b3).Ok?
    ensures Level(plain, [Elem("h4", a4, b4), Elem("h3", a3, b3)], "h2", "h6", kill, n) ==
      Ok((Sectioned([Elem("section", a4, [Elem("h4", map[], b4)]), Elem("section", a3, [Elem("h3", map[], b3)])],
                    [Entry("h4", a4["id"], plain(b4).value), Entry("h3", a3["id"], plain(b3).value)], []), n))
  {
    var e4, e3 := Elem("h4", a4, b4), Elem("h3", a3, b3);
    var t4, t3 := Entry("h4", a4["id"], plain(b4).value), Entry("h3", a3["id"], plain(b3).value);
    var s4, s3 := Elem("section", a4, [Elem("h4", map[], b4)]), Elem("section", a3, [Elem("h3", map[], b3)]);
    LoneH3(plain, a3, b3, kill, n);
    assert H_TAGS[1] == "h2" && H_TAGS[2] == "h3" && H_TAGS[3] == "h4" && H_TAGS[5] == "h6";
    HeadingOrder(1, 5);
    HeadingOrder(3, 1);
    HeadingOrder(2, 3);
    assert IsHeading(e3) && IsHeading(e4);
    assert Level(plain, [e3], "h4", "h6", kill, n) == Ok((Sectioned([], [], [e3]), n));
    KeptHeading(plain, "h4", a4, b4, "h2", "h6", kill, n, []);
    assert [e4, e3][1..] == [e3];
    assert [Elem("h4", map[], b4)] + [] == [Elem("h4", map[], b4)] && [t4] + SubToc([]) == [t4];
    assert HeadingStep(plain, e4, [e3], "h2", "h6", kill, n) == Ok((Headed(s4, [t4], [e3]), n));
    LevelHeadingEq(plain, [e4, e3], "h2", "h6", kill, n, Headed(s4, [t4], [e3]), n);
    assert [s4] + [s3] == [s4, s3] && [t4] + [t3] == [t4, t3];
  }

  /** At level `h2`, a lone `h3` gives its section and its TOC entry. */
  lemma LoneH3(plain: PlainText, a3: WAttrs, b3: seq<Node>, kill: bool, n: nat)
    requires "id" in a3 && plain(b3).Ok?
    ensures Level(plain, [Elem("h3", a3, b3)], "h2", "h6", kill, n) ==
      Ok((Sectioned([Elem("section", a3, [Elem("h3", map[], b3)])], [Entry("h3", a3["id"], plain(b3).value)], []), n))
  {
    var e3 := Elem("h3", a3, b3);
    var t3 := Entry("h3", a3["id"], plain(b3).value);
    var s3 := Elem("section", a3, [Elem("h3", map[], b3)]);
    assert H_TAGS[1] == "h2" && H_TAGS[5] == "h6";
    HeadingOrder(1, 5);
    HeadingOrder(2, 1);
    assert H_TAGS[2] == "h3";
    KeptHeading(plain, "h3", a3, b3, "h2", "h6", kill, n, []);
    assert IsHeading(e3);
    assert Level(plain, [], "h3", "h6", kill, n) == Ok((Sectioned([], [], []), n));
    assert [Elem("h3", map[], b3)] + [] == [Elem("h3", map[], b3)] && [t3] + SubToc([]) == [t3];
    assert HeadingStep(plain, e3, [], "h2", "h6", kill, n) == Ok((Headed(s3, [t3], []), n));
    assert [e3][1..] == [];
    LevelHeadingEq(plain, [e3], "h2", "h6", kill, n, Headed(s3, [t3], []), n);
    assert Level(plain, [], "h2", "h6", kill, n) == Ok((Sectioned([], [], []), n));
    assert [s3] + [] == [s3] && [t3] + [] == [t3];
  }

  /** A heading that already has an id keeps its attributes in the TOC
      step and gives them to its section. */
  lemma KeptHeading(plain: PlainText, h: string, a: WAttrs, b: seq<Node>, level: string, tocUpto: string,
                    kill: bool, n: nat, sec: seq<Node>)
    requires IsHTag(h) && "id" in a && plain(b).Ok? && StrLe(level, tocUpto)
    ensures TocStep(plain, Elem(h, a, b), level, tocUpto, n) == Ok(([Entry(h, a["id"], plain(b).value)], a, n))
    ensures Ensec(h, a, b, sec, kill, n) == (Elem("section", a, [Elem(h, map[], b)] + sec), n)
  {
    LiftKeepsId(a, b, true, n);
    LiftKeepsId(a, b, kill, n);
  }

  // ---------------------------------------------------------------------
  // sectionize

  /** How many leading items `while body and body[0] and body[0][0] not in
      H_TAGS` moves into the front section: it stops at the first heading,
      and at an empty string, which is false. */
  function FrontCount(body: seq<Node>): (k: nat)
    ensures k <= |body|
    ensures forall i :: 0 <= i < k ==> !IsHeading(body[i]) && body[i] != Text("")
    ensures k < |body| ==> IsHeading(body[k]) || body[k] == Text("")
  {
    if body == [] || body[0] == Text("") || IsHeading(body[0]) then 0
    else 1 + FrontCount(body[1..])
  }

  /** The attributes of the front section: only its id. */
  function IdAttrs(id: string): WAttrs
  {
    map["id" := Str(id)]
  }

  /** What `sectionize` hands to `_sectionize`: with a non-empty
      `h_less_section`, the leading items wrapped in a section of that id,
      when there are any. */
  function Front(body: seq<Node>, hLess: Option<string>): seq<Node>
  {
    if hLess.Some? && hLess.value != "" && FrontCount(body) > 0 then
      var k := FrontCount(body);
      [Elem("section", IdAttrs(hLess.value), body[..k])] + body[k..]
    else body
  }

  /** `sectionize(body, toc_upto, h_less_section, kill_anchors, gensym)`;
      the defaults are `tocUpto == "h6"`, `hLess == Some("pre-section")`,
      `kill == true`. */
  function Sectionize(plain: PlainText, body: seq<Node>, tocUpto: string, hLess: Option<string>, kill: bool, n: nat): Result<(Sectioned, nat)>
  {
    Level(plain, Front(body, hLess), "h0", tocUpto, kill, n)
  }

  /** `sectionize` consumes the caller's list: nothing is left over. */
  lemma SectionizeTakesAll(plain: PlainText, body: seq<Node>, tocUpto: string, hLess: Option<string>, kill: bool, n: nat)
    requires Sectionize(plain, body, tocUpto, hLess, kill, n).Ok?
    ensures Sectionize(plain, body, tocUpto, hLess, kill, n).value.0.rest == []
  {
    var b := Front(body, hLess);
    LevelStops(plain, b, "h0", tocUpto, kill, n);
    var rest := Level(plain, b, "h0", tocUpto, kill, n).value.0.rest;
    if rest != [] {
      HeadingBelowH0(rest[0]);
    }
  }

  /** Without `h_less_section` the body goes to `_sectionize` untouched; ... */
  lemma FrontUntouched(body: seq<Node>, hLess: Option<string>)
    requires hLess.None? || hLess.value == "" || FrontCount(body) == 0
    ensures Front(body, hLess) == body
  {
  }

  /** ... with it, leading content becomes the first gobbled item, a section
      of that id. */
  lemma FrontSectionFirst(plain: PlainText, body: seq<Node>, tocUpto: string, id: string, kill: bool, n: nat)
    requires id != "" && FrontCount(body) > 0
    requires Sectionize(plain, body, tocUpto, Some(id), kill, n).Ok?
    ensures var g := Sectionize(plain, body, tocUpto, Some(id), kill, n).value.0.gobbled;
      |g| > 0 && g[0] == Elem("section", IdAttrs(id), body[..FrontCount(body)])
  {
  }

  lemma FrontFromLoop(body: seq<Node>, buf: seq<Node>, rest: seq<Node>, id: string)
    requires id != "" && buf + rest == body && FrontCount(body) == |buf| + FrontCount(rest)
    requires rest == [] || rest[0] == Text("") || IsHeading(rest[0])
    ensures Front(body, Some(id)) == if buf != [] then [Elem("section", IdAttrs(id), buf)] + rest else body
  {
    assert buf == body[..|buf|] && rest == body[|buf|..];
  }


  /** The front loop of `sectionize`: leading items move into `buf`, and
      the section wrapping them goes back in front when there were any. */
  method FrontRun(body: seq<Node>, id: string) returns (front: seq<Node>)
    requires id != ""
    ensures front == Front(body, Some(id))
  {
    var rest := body;
    var buf: seq<Node> := [];
    while rest != [] && rest[0] != Text("") && !IsHeading(rest[0])
      invariant buf + rest == body
      invariant FrontCount(body) == |buf| + FrontCount(rest)
      decreases |rest|
    {
      ShiftFront(buf, rest);
      buf := buf + [rest[0]];
      rest := rest[1..];
    }
    FrontFromLoop(body, buf, rest, id);
    if buf != [] {
      rest := [Elem("section", IdAttrs(id), buf)] + rest;
    }
    front := rest;
  }

  /** `sectionize`: the front loop, then `_sectionize` at level `h0`. */
  method SectionizeRun(body: seq<Node>, tocUpto: string, hLess: Option<string>, kill: bool, g: Gensym)
    returns (r: Result<(seq<Node>, seq<TocItem>)>)
    modifies g
    ensures var s := Sectionize(Plaintextify, body, tocUpto, hLess, kill, old(g.count));
      r.Ok? == s.Ok? && (r.Ok? ==> r.value == (s.value.0.gobbled, s.value.0.toc) && g.count == s.value.1)
  {
    var front := body;
    if hLess.Some? && hLess.value != "" {
      front := FrontRun(body, hLess.value);
    }
    var s := LevelRun(Plaintextify, front, "h0", tocUpto, kill, g);
    if s.Err? {
      return Err(s.error);
    }
    r := Ok((s.value.gobbled, s.value.toc));
  }

  // ---------------------------------------------------------------------
  // unsectionize

  predicate IsSectionTag(t: string)
  {
    t == "section"
  }

  /** `is_bogus_section`: a section that is not an endnotes section. */
  predicate IsBogusSection(e: Node)
  {
    e.Elem? && e.tag == "section" && "endnotes" !in ClassesOf(e.attrs)
  }

  /** `unsectionize(body)`: every section but the endnotes one is spliced,
      at any depth. */
  function Unsectionize(body: seq<Node>): seq<Node>
    decreases body
  {
    if body == [] then []
    else
      (match body[0]
       case Text(_) => [body[0]]
       case Elem(h, a, b) =>
         if IsBogusSection(body[0]) then Unsectionize(b) else [Elem(h, a, Unsectionize(b))])
      + Unsectionize(body[1..])
  }

  /** It is `whack_elt(is_bogus_section, body)`, as the source writes it. */
  lemma {:induction false} UnsectionizeIsWhackElt(body: seq<Node>)
    ensures Unsectionize(body) == WhackElt(IsBogusSection, body, false)
    decreases body
  {
    if body != [] {
      UnsectionizeIsWhackElt(body[1..]);
      if body[0].Elem? {
        UnsectionizeIsWhackElt(body[0].body);
      }
    }
  }

  /** What `unsectionize` makes of one item. */
  function Spliced(e: Node): seq<Node>
  {
    match e
    case Text(_) => [e]
    case Elem(h, a, b) => if IsBogusSection(e) then Unsectionize(b) else [Elem(h, a, Unsectionize(b))]
  }

  lemma SplicedFirst(body: seq<Node>)
    requires body != []
    ensures Unsectionize(body) == Spliced(body[0]) + Unsectionize(body[1..])
  {
  }



  lemma {:induction false} UnsectionizeAppend(a: seq<Node>, b: seq<Node>)
    ensures Unsectionize(a + b) == Unsectionize(a) + Unsectionize(b)
    decreases |a|
  {
    if a == [] {
      assert a + b == b;
    } else {
      TailAppend(a, b);
      SplicedFirst(a);
      SplicedFirst(a + b);
      UnsectionizeAppend(a[1..], b);
      AppendAssoc(Spliced(a[0]), Unsectionize(a[1..]), Unsectionize(b));
    }
  }

  lemma {:induction false} UnsectionizeWithoutSections(body: seq<Node>)
    requires NoTag(IsSectionTag, body)
    ensures Unsectionize(body) == body
    decreases body
  {
    if body != [] {
      UnsectionizeWithoutSections(body[1..]);
      match body[0]
      case Text(_) =>
        assert body == [body[0]] + body[1..];
      case Elem(h, a, b) =>
        UnsectionizeWithoutSections(b);
        assert body == [body[0]] + body[1..];
    }
  }

  /** An endnotes section stays, with its content unsectionized. */
  lemma UnsectionizeKeepsEndnotes(a: WAttrs, b: seq<Node>)
    requires "endnotes" in ClassesOf(a)
    ensures Unsectionize([Elem("section", a, b)]) == [Elem("section", a, Unsectionize(b))]
  {
    var x := Elem("section", a, b);
    assert [x][0] == x && [x][1..] == [];
  }

  /** Any other section is replaced by its unsectionized content. */
  lemma UnsectionizeSplices(a: WAttrs, b: seq<Node>)
    requires "endnotes" !in ClassesOf(a)
    ensures Unsectionize([Elem("section", a, b)]) == Unsectionize(b)
  {
    var x := Elem("section", a, b);
    assert [x][0] == x && [x][1..] == [];
    assert Unsectionize(b) + [] == Unsectionize(b);
  }

  /** The headings of `body` with their attributes dropped, as `ensec`
      leaves them. */
  function StripHeadings(body: seq<Node>): seq<Node>
  {
    if body == [] then []
    else (if IsHeading(body[0]) then [Elem(body[0].tag, map[], body[0].body)] else [body[0]]) + StripHeadings(body[1..])
  }

  lemma {:induction false} StripHeadingsAppend(a: seq<Node>, b: seq<Node>)
    ensures StripHeadings(a + b) == StripHeadings(a) + StripHeadings(b)
    decreases |a|
  {
    if a == [] {
      assert a + b == b;
    } else {
      assert (a + b)[0] == a[0];
      assert (a + b)[1..] == a[1..] + b;
      StripHeadingsAppend(a[1..], b);
    }
  }

  /** No heading carries the `endnotes` class. */
  predicate PlainHeadings(body: seq<Node>)
  {
    forall i :: 0 <= i < |body| && IsHeading(body[i]) ==> "endnotes" !in ClassesOf(body[i].attrs)
  }

  /** A body `unsectionize` can take apart again after `sectionize`: no
      section anywhere, and no heading that would make an endnotes
      section. */
  predicate Unsectionable(body: seq<Node>)
  {
    NoTag(IsSectionTag, body) && PlainHeadings(body)
  }

  lemma UnsectionableSplit(body: seq<Node>, k: nat)
    requires Unsectionable(body) && k <= |body|
    ensures Unsectionable(body[..k]) && Unsectionable(body[k..])
  {
    assert body == body[..k] + body[k..];
    NoTagAppend(IsSectionTag, body[..k], body[k..]);
    assert forall i :: 0 <= i < |body| - k ==> body[k..][i] == body[k + i];
  }

  /** One item of a body that leaves `unsectionize` unchanged. */
  lemma UnsectionizeItem(e: Node, rest: seq<Node>)
    requires NoTag(IsSectionTag, [e] + rest)
    ensures Unsectionize([e]) == [e] && NoTag(IsSectionTag, rest)
  {
    assert ([e] + rest)[1..] == rest;
    NoTagAppend(IsSectionTag, [e], rest);
    UnsectionizeWithoutSections([e]);
  }

  lemma TocStepClasses(plain: PlainText, e: Node, level: string, tocUpto: string, n: nat)
    requires IsHeading(e) && TocStep(plain, e, level, tocUpto, n).Ok?
    ensures ClassesOf(TocStep(plain, e, level, tocUpto, n).value.1) == ClassesOf(e.attrs)
  {
    if StrLe(level, tocUpto) {
      LiftOnlySetsId(e.attrs, e.body, true, n);
    }
  }

  /** Without anchor killing, the section holds the heading's own body. */
  lemma EnsecKeeps(h: string, a: WAttrs, b: seq<Node>, section: seq<Node>, n: nat)
    requires IsHTag(h)
    ensures var s := Ensec(h, a, b, section, false, n).0;
      s == Elem("section", s.attrs, [Elem(h, map[], b)] + section) && ClassesOf(s.attrs) == ClassesOf(a)
  {
    LiftOnlySetsId(a, b, false, n);
    LiftKeepsBody(a, b, n);
  }

  /** A spliced section reads back as its bare heading and its content. */
  lemma UnsectionizeSection(a: WAttrs, hd: Node, sub: seq<Node>)
    requires "endnotes" !in ClassesOf(a)
    requires hd.Elem? && hd.tag != "section" && NoTag(IsSectionTag, hd.body)
    ensures Unsectionize([Elem("section", a, [hd] + sub)]) == [hd] + Unsectionize(sub)
  {
    UnsectionizeSplices(a, [hd] + sub);
    UnsectionizeCons(hd, sub);
  }

  /** What a heading consumed: itself, its subsection, and what the level
      went on to take. */
  lemma ConsumedSplit<T>(body: seq<T>, r1: seq<T>, r2: seq<T>)
    requires body != [] && IsSuffix(r1, body[1..]) && IsSuffix(r2, r1)
    ensures body[..|body| - |r2|] == [body[0]] + body[1..][..|body[1..]| - |r1|] + r1[..|r1| - |r2|]
    ensures IsSuffix(r1, body)
  {
    assert r1 == body[|body| - |r1|..];
  }

  /** The heading case of the round trip, from what the heading's section
      and the rest of the level give back. */
  lemma HeadingRoundTrip(body: seq<Node>, sec: Node, moreg: seq<Node>, r1: seq<Node>, r2: seq<Node>)
    requires body != [] && IsHeading(body[0])
    requires IsSuffix(r1, body[1..]) && IsSuffix(r2, r1)
    requires Unsectionize([sec]) == [Elem(body[0].tag, map[], body[0].body)] + StripHeadings(body[1..][..|body[1..]| - |r1|])
    requires Unsectionize(moreg) == StripHeadings(r1[..|r1| - |r2|])
    ensures Unsectionize([sec] + moreg) == StripHeadings(body[..|body| - |r2|])
  {
    var e := body[0];
    UnsectionizeAppend([sec], moreg);
    ConsumedSplit(body, r1, r2);
    var c1 := body[1..][..|body[1..]| - |r1|];
    var c2 := r1[..|r1| - |r2|];
    StripHeadingsAppend([e] + c1, c2);
    StripHeadingsAppend([e], c1);
    assert StripHeadings([e]) == [Elem(e.tag, map[], e.body)] by {
      assert [e][0] == e && [e][1..] == [];
    }
  }

  lemma LevelTextUnfold(plain: PlainText, body: seq<Node>, level: string, tocUpto: string, kill: bool, n: nat)
    requires body != [] && !IsHeading(body[0])
    requires Level(plain, body, level, tocUpto, kill, n).Ok?
    ensures Level(plain, body[1..], level, tocUpto, kill, n).Ok?
    ensures var s := Level(plain, body[1..], level, tocUpto, kill, n).value.0;
      Level(plain, body, level, tocUpto, kill, n).value.0 == Sectioned([body[0]] + s.gobbled, s.toc, s.rest)
  {
  }

  lemma LevelHeadingUnfold(plain: PlainText, body: seq<Node>, level: string, tocUpto: string, kill: bool, n: nat)
    requires body != [] && IsHeading(body[0]) && !StrLe(body[0].tag, level)
    requires Level(plain, body, level, tocUpto, kill, n).Ok?
    ensures HeadingStep(plain, body[0], body[1..], level, tocUpto, kill, n).Ok?
    ensures var h := HeadingStep(plain, body[0], body[1..], level, tocUpto, kill, n).value;
      Level(plain, h.0.rest, level, tocUpto, kill, h.1).Ok? &&
      var more := Level(plain, h.0.rest, level, tocUpto, kill, h.1).value.0;
      Level(plain, body, level, tocUpto, kill, n).value.0 == Sectioned([h.0.sec] + more.gobbled, h.0.toc + more.toc, more.rest)
  {
  }

  lemma UnsectionizeCons(e: Node, g: seq<Node>)
    requires e.Text? || (e.tag != "section" && NoTag(IsSectionTag, e.body))
    ensures Unsectionize([e] + g) == [e] + Unsectionize(g)
  {
    assert NoTag(IsSectionTag, [e]) by {
      assert [e][0] == e && [e][1..] == [];
    }
    UnsectionizeWithoutSections([e]);
    UnsectionizeAppend([e], g);
  }

  lemma StripCons(e: Node, c: seq<Node>)
    requires !IsHeading(e)
    ensures StripHeadings([e] + c) == [e] + StripHeadings(c)
  {
    assert ([e] + c)[0] == e && ([e] + c)[1..] == c;
  }

  lemma ConsumedCons<T>(body: seq<T>, r: seq<T>)
    requires body != [] && IsSuffix(r, body[1..])
    ensures body[..|body| - |r|] == [body[0]] + body[1..][..|body[1..]| - |r|]
  {
  }

  lemma NoTagHead(body: seq<Node>)
    requires body != [] && NoTag(IsSectionTag, body)
    ensures body[0].Text? || (body[0].tag != "section" && NoTag(IsSectionTag, body[0].body))
  {
  }

  /** The case of an item that is no heading, from what the recursive call
      gives back. */
  lemma TextRoundTrip(body: seq<Node>, g: seq<Node>, r: seq<Node>)
    requires body != [] && !IsHeading(body[0]) && NoTag(IsSectionTag, body)
    requires IsSuffix(r, body[1..])
    requires Unsectionize(g) == StripHeadings(body[1..][..|body[1..]| - |r|])
    ensures Unsectionize([body[0]] + g) == StripHeadings(body[..|body| - |r|])
  {
    var c := body[1..][..|body[1..]| - |r|];
    NoTagHead(body);
    UnsectionizeCons(body[0], g);
    ConsumedCons(body, r);
    StripCons(body[0], c);
  }

  /** An item that is no heading is gobbled first, ahead of what the rest
      of the level gobbles. */
  lemma LevelTextCase(plain: PlainText, body: seq<Node>, level: string, tocUpto: string, kill: bool, n: nat, s: Sectioned, m: nat)
    requires body != [] && !IsHeading(body[0])
    requires Level(plain, body, level, tocUpto, kill, n) == Ok((s, m))
    ensures s.gobbled != [] && s.gobbled == [body[0]] + s.gobbled[1..]
    ensures Level(plain, body[1..], level, tocUpto, kill, n) == Ok((Sectioned(s.gobbled[1..], s.toc, s.rest), m))
  {
    LevelTextEq(plain, body, level, tocUpto, kill, n);
    var r := Level(plain, body[1..], level, tocUpto, kill, n);
    var (t, m') := r.value;
    assert r == Ok((t, m'));
    assert [] + t.toc == t.toc;
    assert s == Sectioned([body[0]] + t.gobbled, t.toc, t.rest) && m == m';
    assert s.gobbled[1..] == t.gobbled;
  }

  /** A heading deeper than the level gives its section first, ahead of
      what the level gobbles after the heading's subsection. */
  lemma LevelHeadingOk(plain: PlainText, body: seq<Node>, level: string, tocUpto: string, kill: bool, n: nat)
    requires body != [] && IsHeading(body[0]) && !StrLe(body[0].tag, level)
    requires Level(plain, body, level, tocUpto, kill, n).Ok?
    ensures HeadingStep(plain, body[0], body[1..], level, tocUpto, kill, n).Ok?
  {
    if HeadingStep(plain, body[0], body[1..], level, tocUpto, kill, n).Err? {
      LevelHeadingErr(plain, body, level, tocUpto, kill, n);
    }
  }

  lemma LevelHeadingCase(plain: PlainText, body: seq<Node>, level: string, tocUpto: string, kill: bool, n: nat, s: Sectioned, m: nat, h: Headed, n1: nat)
    requires body != [] && IsHeading(body[0]) && !StrLe(body[0].tag, level)
    requires HeadingStep(plain, body[0], body[1..], level, tocUpto, kill, n) == Ok((h, n1))
    requires Level(plain, body, level, tocUpto, kill, n) == Ok((s, m))
    ensures s.gobbled != [] && s.gobbled == [h.sec] + s.gobbled[1..] && |h.toc| <= |s.toc|
    ensures Level(plain, h.rest, level, tocUpto, kill, n1) == Ok((Sectioned(s.gobbled[1..], s.toc[|h.toc|..], s.rest), m))
  {
    LevelHeadingEq(plain, body, level, tocUpto, kill, n, h, n1);
    var r := Level(plain, h.rest, level, tocUpto, kill, n1);
    PrependOk([h.sec], h.toc, r, s, m);
  }

  /** A level that gobbles nothing: the list is empty or starts with a
      heading no deeper than the level. */
  lemma LevelNothing(plain: PlainText, body: seq<Node>, level: string, tocUpto: string, kill: bool, n: nat, s: Sectioned, m: nat)
    requires body == [] || (IsHeading(body[0]) && StrLe(body[0].tag, level))
    requires Level(plain, body, level, tocUpto, kill, n) == Ok((s, m))
    ensures s.gobbled == [] && s.rest == body
  {
  }

  lemma NothingGlue(body: seq<Node>, s: Sectioned)
    requires s.gobbled == [] && s.rest == body
    ensures IsSuffix(s.rest, body)
    ensures Unsectionize(s.gobbled) == StripHeadings(body[..|body| - |s.rest|])
  {
    assert body[..|body| - |body|] == [];
  }

  lemma SuffixOfTail<T>(r: seq<T>, t: seq<T>)
    requires t != [] && IsSuffix(r, t[1..])
    ensures IsSuffix(r, t)
  {
  }

  /** The text case of the round trip, from the recursive call's result. */
  lemma TextCaseGlue(body: seq<Node>, s: Sectioned)
    requires body != [] && !IsHeading(body[0]) && NoTag(IsSectionTag, body)
    requires s.gobbled != [] && s.gobbled == [body[0]] + s.gobbled[1..]
    requires IsSuffix(s.rest, body[1..])
    requires Unsectionize(s.gobbled[1..]) == StripHeadings(body[1..][..|body[1..]| - |s.rest|])
    ensures IsSuffix(s.rest, body)
    ensures Unsectionize(s.gobbled) == StripHeadings(body[..|body| - |s.rest|])
  {
    SuffixOfTail(s.rest, body);
    TextRoundTrip(body, s.gobbled[1..], s.rest);
    assert Unsectionize(s.gobbled) == Unsectionize([body[0]] + s.gobbled[1..]);
  }

  /** The heading case of the round trip, from the results of the section's
      round trip and of the recursive call. */
  lemma HeadingCaseGlue(body: seq<Node>, h: Headed, s: Sectioned)
    requires body != [] && IsHeading(body[0])
    requires s.gobbled != [] && s.gobbled == [h.sec] + s.gobbled[1..]
    requires IsSuffix(h.rest, body[1..]) && IsSuffix(s.rest, h.rest)
    requires Unsectionize([h.sec]) == [Elem(body[0].tag, map[], body[0].body)] + StripHeadings(body[1..][..|body[1..]| - |h.rest|])
    requires Unsectionize(s.gobbled[1..]) == StripHeadings(h.rest[..|h.rest| - |s.rest|])
    ensures IsSuffix(s.rest, body)
    ensures Unsectionize(s.gobbled) == StripHeadings(body[..|body| - |s.rest|])
  {
    ConsumedSplit(body, h.rest, s.rest);
    HeadingRoundTrip(body, h.sec, s.gobbled[1..], h.rest, s.rest);
    assert Unsectionize(s.gobbled) == Unsectionize([h.sec] + s.gobbled[1..]);
  }

  /** `unsectionize` undoes one level of `_sectionize` without anchor
      killing, up to the attributes the headings gave to their sections. */
  lemma {:induction false} LevelRoundTrip(plain: PlainText, body: seq<Node>, level: string, tocUpto: string, n: nat, s: Sectioned, m: nat)
    requires Unsectionable(body)
    requires Level(plain, body, level, tocUpto, false, n) == Ok((s, m))
    ensures IsSuffix(s.rest, body)
    ensures Unsectionize(s.gobbled) == StripHeadings(body[..|body| - |s.rest|])
    decreases |body|, 3
  {
    if body == [] || (IsHeading(body[0]) && StrLe(body[0].tag, level)) {
      LevelNothing(plain, body, level, tocUpto, false, n, s, m);
      NothingGlue(body, s);
    } else if !IsHeading(body[0]) {
      TextLevelRoundTrip(plain, body, level, tocUpto, n, s, m);
    } else {
      HeadingLevelRoundTrip(plain, body, level, tocUpto, n, s, m);
    }
  }

  /** The round trip when the level starts with an item that is no heading. */
  lemma {:induction false} TextLevelRoundTrip(plain: PlainText, body: seq<Node>, level: string, tocUpto: string, n: nat, s: Sectioned, m: nat)
    requires Unsectionable(body) && body != [] && !IsHeading(body[0])
    requires Level(plain, body, level, tocUpto, false, n) == Ok((s, m))
    ensures IsSuffix(s.rest, body)
    ensures Unsectionize(s.gobbled) == StripHeadings(body[..|body| - |s.rest|])
    decreases |body|, 2
  {
    LevelTextCase(plain, body, level, tocUpto, false, n, s, m);
    UnsectionableSplit(body, 1);
    LevelRoundTrip(plain, body[1..], level, tocUpto, n, Sectioned(s.gobbled[1..], s.toc, s.rest), m);
    TextCaseGlue(body, s);
  }

  /** The round trip when the level starts with a heading deeper than it. */
  lemma {:induction false} HeadingLevelRoundTrip(plain: PlainText, body: seq<Node>, level: string, tocUpto: string, n: nat, s: Sectioned, m: nat)
    requires Unsectionable(body) && body != [] && IsHeading(body[0]) && !StrLe(body[0].tag, level)
    requires Level(plain, body, level, tocUpto, false, n) == Ok((s, m))
    ensures IsSuffix(s.rest, body)
    ensures Unsectionize(s.gobbled) == StripHeadings(body[..|body| - |s.rest|])
    decreases |body|, 2
  {
    var h := HeadingLevelParts(plain, body, level, tocUpto, n, s, m);
    HeadingCaseGlue(body, h, s);
  }

  /** The heading's section and the rest of the level, each read back: the
      facts `HeadingCaseGlue` puts together. */
  lemma {:induction false} HeadingLevelParts(plain: PlainText, body: seq<Node>, level: string, tocUpto: string, n: nat, s: Sectioned, m: nat)
    returns (h: Headed)
    requires Unsectionable(body) && body != [] && IsHeading(body[0]) && !StrLe(body[0].tag, level)
    requires Level(plain, body, level, tocUpto, false, n) == Ok((s, m))
    ensures s.gobbled != [] && s.gobbled == [h.sec] + s.gobbled[1..]
    ensures IsSuffix(h.rest, body[1..]) && IsSuffix(s.rest, h.rest)
    ensures Unsectionize([h.sec]) == [Elem(body[0].tag, map[], body[0].body)] + StripHeadings(body[1..][..|body[1..]| - |h.rest|])
    ensures Unsectionize(s.gobbled[1..]) == StripHeadings(h.rest[..|h.rest| - |s.rest|])
    decreases |body|, 1
  {
    LevelHeadingOk(plain, body, level, tocUpto, false, n);
    var hs := HeadingStep(plain, body[0], body[1..], level, tocUpto, false, n).value;
    var n1;
    h, n1 := hs.0, hs.1;
    LevelHeadingCase(plain, body, level, tocUpto, false, n, s, m, h, n1);
    HeadingSectionPart(plain, body, level, tocUpto, n, h, n1);
    var t := Sectioned(s.gobbled[1..], s.toc[|h.toc|..], s.rest);
    LevelRoundTripRest(plain, body, level, tocUpto, n1, h.rest, t, m);
  }

  /** The heading's own section reads back as the bare heading and what its
      subsection consumed. */
  lemma {:induction false} HeadingSectionPart(plain: PlainText, body: seq<Node>, level: string, tocUpto: string, n: nat, h: Headed, n1: nat)
    requires Unsectionable(body) && body != [] && IsHeading(body[0])
    requires HeadingStep(plain, body[0], body[1..], level, tocUpto, false, n) == Ok((h, n1))
    ensures IsSuffix(h.rest, body[1..])
    ensures Unsectionize([h.sec]) == [Elem(body[0].tag, map[], body[0].body)] + StripHeadings(body[1..][..|body[1..]| - |h.rest|])
    decreases |body|, 0
  {
    HeadingClean(body);
    UnsectionableSplit(body, 1);
    HeadingStepRoundTrip(plain, body[0], body[1..], level, tocUpto, n, h, n1);
  }

  /** The rest of the level after a heading's subsection. */
  lemma {:induction false} LevelRoundTripRest(plain: PlainText, body: seq<Node>, level: string, tocUpto: string, n1: nat, rest: seq<Node>, t: Sectioned, m: nat)
    requires Unsectionable(body) && body != [] && IsSuffix(rest, body[1..])
    requires Level(plain, rest, level, tocUpto, false, n1) == Ok((t, m))
    ensures IsSuffix(t.rest, rest)
    ensures Unsectionize(t.gobbled) == StripHeadings(rest[..|rest| - |t.rest|])
    decreases |body|, 0
  {
    SuffixOfTail(rest, body);
    UnsectionableSplit(body, |body| - |rest|);
    LevelRoundTrip(plain, rest, level, tocUpto, n1, t, m);
  }

  /** What the heading branch computes, step by step. */
  lemma HeadingStepCase(plain: PlainText, e: Node, rest: seq<Node>, level: string, tocUpto: string, kill: bool, n: nat, h: Headed, n1: nat)
    requires IsHeading(e)
    requires HeadingStep(plain, e, rest, level, tocUpto, kill, n) == Ok((h, n1))
    ensures TocStep(plain, e, level, tocUpto, n).Ok?
    ensures var ts := TocStep(plain, e, level, tocUpto, n).value;
      Level(plain, rest, e.tag, tocUpto, kill, ts.2).Ok? &&
      var sub := Level(plain, rest, e.tag, tocUpto, kill, ts.2).value;
      h.rest == sub.0.rest && h.sec == Ensec(e.tag, ts.1, e.body, sub.0.gobbled, kill, sub.1).0
  {
  }

  /** A heading's section reads back as the bare heading and what its
      subsection consumed. */
  lemma {:induction false} HeadingStepRoundTrip(plain: PlainText, e: Node, rest: seq<Node>, level: string, tocUpto: string, n: nat, h: Headed, n1: nat)
    requires IsHeading(e) && "endnotes" !in ClassesOf(e.attrs) && NoTag(IsSectionTag, e.body)
    requires Unsectionable(rest)
    requires HeadingStep(plain, e, rest, level, tocUpto, false, n) == Ok((h, n1))
    ensures IsSuffix(h.rest, rest)
    ensures Unsectionize([h.sec]) == [Elem(e.tag, map[], e.body)] + StripHeadings(rest[..|rest| - |h.rest|])
    decreases |rest|, 4
  {
    HeadingStepCase(plain, e, rest, level, tocUpto, false, n, h, n1);
    var ts := TocStep(plain, e, level, tocUpto, n).value;
    TocStepClasses(plain, e, level, tocUpto, n);
    var sub := Level(plain, rest, e.tag, tocUpto, false, ts.2).value;
    LevelRoundTrip(plain, rest, e.tag, tocUpto, ts.2, sub.0, sub.1);
    EnsecKeeps(e.tag, ts.1, e.body, sub.0.gobbled, sub.1);
    UnsectionizeSection(h.sec.attrs, Elem(e.tag, map[], e.body), sub.0.gobbled);
  }

  lemma HeadingClean(body: seq<Node>)
    requires body != [] && IsHeading(body[0]) && Unsectionable(body)
    ensures "endnotes" !in ClassesOf(body[0].attrs) && NoTag(IsSectionTag, body[0].body)
  {
  }

  /** The front section reads back as the content it wrapped. */
  lemma FrontRoundTrip(front: seq<Node>, later: seq<Node>, a: WAttrs, g: seq<Node>)
    requires forall i :: 0 <= i < |front| ==> !IsHeading(front[i])
    requires NoTag(IsSectionTag, front) && "endnotes" !in ClassesOf(a)
    requires Unsectionize(g) == StripHeadings(later)
    ensures Unsectionize([Elem("section", a, front)] + g) == StripHeadings(front + later)
  {
    UnsectionizeAppend([Elem("section", a, front)], g);
    UnsectionizeSplices(a, front);
    UnsectionizeWithoutSections(front);
    StripWithoutHeadings(front);
    StripHeadingsAppend(front, later);
  }

  /** `unsectionize(sectionize(body))` without anchor killing gives the body
      back with its headings' attributes dropped. */
  lemma SectionizeRoundTrip(plain: PlainText, body: seq<Node>, tocUpto: string, hLess: Option<string>, n: nat, s: Sectioned, m: nat)
    requires Unsectionable(body)
    requires Sectionize(plain, body, tocUpto, hLess, false, n) == Ok((s, m))
    ensures Unsectionize(s.gobbled) == StripHeadings(body)
  {
    SectionizeTakesAll(plain, body, tocUpto, hLess, false, n);
    if hLess.Some? && hLess.value != "" && FrontCount(body) > 0 {
      var k := FrontCount(body);
      var b := Front(body, hLess);
      assert b[0] == Elem("section", IdAttrs(hLess.value), body[..k]) && b[1..] == body[k..];
      FrontLevel(plain, body, b, k, tocUpto, n, s, m);
      FrontGlue(body, k, hLess.value, b[0], s.gobbled);
    } else {
      LevelRoundTrip(plain, body, "h0", tocUpto, n, s, m);
      TakeAll(body);
    }
  }

  /** With a front section, the level gobbles it first, and what it gobbles
      after it reads back as the rest of the body. */
  lemma FrontLevel(plain: PlainText, body: seq<Node>, b: seq<Node>, k: nat, tocUpto: string, n: nat, s: Sectioned, m: nat)
    requires Unsectionable(body) && k <= |body|
    requires b != [] && !IsHeading(b[0]) && b[1..] == body[k..]
    requires Level(plain, b, "h0", tocUpto, false, n) == Ok((s, m)) && s.rest == []
    ensures s.gobbled != [] && s.gobbled == [b[0]] + s.gobbled[1..]
    ensures Unsectionize(s.gobbled[1..]) == StripHeadings(body[k..])
  {
    LevelTextCase(plain, b, "h0", tocUpto, false, n, s, m);
    UnsectionableSplit(body, k);
    LevelAll(plain, body[k..], tocUpto, n, Sectioned(s.gobbled[1..], s.toc, s.rest), m);
  }

  /** A top level that consumes all of `body` reads back as all of it. */
  lemma LevelAll(plain: PlainText, body: seq<Node>, tocUpto: string, n: nat, s: Sectioned, m: nat)
    requires Unsectionable(body) && s.rest == []
    requires Level(plain, body, "h0", tocUpto, false, n) == Ok((s, m))
    ensures Unsectionize(s.gobbled) == StripHeadings(body)
  {
    LevelRoundTrip(plain, body, "h0", tocUpto, n, s, m);
    TakeAll(body);
  }

  /** The front section reads back as the items it wrapped. */
  lemma FrontGlue(body: seq<Node>, k: nat, id: string, b0: Node, g: seq<Node>)
    requires Unsectionable(body) && k == FrontCount(body)
    requires b0 == Elem("section", IdAttrs(id), body[..k])
    requires g != [] && g == [b0] + g[1..]
    requires Unsectionize(g[1..]) == StripHeadings(body[k..])
    ensures Unsectionize(g) == StripHeadings(body)
  {
    UnsectionableSplit(body, k);
    FrontRoundTrip(body[..k], body[k..], IdAttrs(id), g[1..]);
    TakeDrop(body, k);
  }


  lemma {:induction false} StripWithoutHeadings(body: seq<Node>)
    requires forall i :: 0 <= i < |body| ==> !IsHeading(body[i])
    ensures StripHeadings(body) == body
    decreases |body|
  {
    if body != [] {
      assert !IsHeading(body[0]);
      StripWithoutHeadings(body[1..]);
      assert [body[0]] + body[1..] == body;
    }
  }
}
