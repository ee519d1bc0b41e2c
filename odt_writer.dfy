/** The string side of odt_writer.py: colour span style names and their
    regex, the colour text properties, escaping of text for ODT XML, the
    span, link and paragraph handlers of `odtify`, and `cleanse_internal`. */
module OdtWriter {
  import opened Wrappers
  import opened PyStr
  import opened Internal
  import Postprocess

  // ---------------------------------------------------------------------
  // make_color_style_name and COLOR_SPAN_REX

  predicate IsHex(c: char)
  {
    '0' <= c <= '9' || 'a' <= c <= 'f'
  }

  /** `(?:[0-9a-f]{6})?`. */
  predicate IsColorGroup(g: string)
  {
    g == "" || (|g| == 6 && forall i :: 0 <= i < 6 ==> IsHex(g[i]))
  }

  const COLOR_SPAN_PREFIX: string := "SpanColorFg"

  /** What `((?:[0-9a-f]{6})?)$` accepts: a colour group, at the end of the
      string or (as Python's `$` also matches there) before one final
      newline. */
  predicate IsBgTail(y: string)
  {
    IsColorGroup(y) || (|y| > 0 && y[|y| - 1] == '\n' && IsColorGroup(y[..|y| - 1]))
  }

  /** The group of such a tail. */
  function BgValue(y: string): string
    requires IsBgTail(y)
  {
    if IsColorGroup(y) then y else y[..|y| - 1]
  }

  /** `Bg((?:[0-9a-f]{6})?)$` at the start of `s`: the group. */
  function BgGroup(s: string): (r: Option<string>)
    ensures r.Some? <==> |s| >= 2 && s[..2] == "Bg" && IsBgTail(s[2..])
    ensures r.Some? ==> r.value == BgValue(s[2..])
  {
    if |s| >= 2 && s[..2] == "Bg" && IsBgTail(s[2..]) then Some(BgValue(s[2..]))
    else None
  }

  /** `COLOR_SPAN_REX.match(name).groups()`, with the regex's backtracking:
      the first group tries six hex digits first, then none. */
  function ColorSpanGroups(name: string): (r: Option<(string, string)>)
  {
    if !StartsWith(name, COLOR_SPAN_PREFIX) then None
    else
      var rest := name[|COLOR_SPAN_PREFIX|..];
      var g := if |rest| >= 6 then BgGroup(rest[6..]) else None;
      if |rest| >= 6 && IsColorGroup(rest[..6]) && g.Some? then Some((rest[..6], g.value))
      else match BgGroup(rest)
        case Some(g2) => Some(("", g2))
        case None => None
  }

  /** What the regex matched: the prefix, a colour group, `Bg` and a tail
      whose group is the second. */
  lemma GroupsShape(name: string) returns (y: string)
    requires ColorSpanGroups(name).Some?
    ensures var (g1, g2) := ColorSpanGroups(name).value;
      IsColorGroup(g1) && IsColorGroup(g2) && IsBgTail(y) && BgValue(y) == g2 &&
      name == COLOR_SPAN_PREFIX + g1 + "Bg" + y
  {
    var rest := name[|COLOR_SPAN_PREFIX|..];
    assert name == COLOR_SPAN_PREFIX + rest;
    if |rest| >= 6 && IsColorGroup(rest[..6]) && BgGroup(rest[6..]).Some? {
      y := rest[6..][2..];
      assert rest == rest[..6] + "Bg" + y;
    } else {
      y := rest[2..];
      assert rest == "" + "Bg" + y;
    }
  }

  /** `s[1:]`. */
  function Tail(s: string): string
  {
    if s == "" then "" else s[1..]
  }

  /** `make_color_style_name(fg, bg)`: the assertion holds only when both
      colours are six lower-case hex digits or empty after their `#`, the
      background possibly followed by one newline. */
  function MakeColorStyleName(fg: string, bg: string): Result<string>
  {
    var ans := COLOR_SPAN_PREFIX + Tail(fg) + "Bg" + Tail(bg);
    if ColorSpanGroups(ans).Some? then Ok(ans) else Err("AssertionError")
  }

  /** `B` is not a hex digit, nor a newline. */
  lemma NoBIn(y: string)
    requires IsBgTail(y)
    ensures 'B' !in y
  {
    if IsColorGroup(y) {
      if y != "" {
        assert forall i :: 0 <= i < |y| ==> IsHex(y[i]);
      }
    } else {
      var g := y[..|y| - 1];
      assert y == g + ['\n'];
      NoBIn(g);
    }
  }

  /** A colour group never holds a `B`, so the `Bg` of a style name is its
      only `B`. */
  lemma OnlyB(x: string, y: string)
    requires IsColorGroup(x) && IsBgTail(y)
    ensures var s := x + "Bg" + y; IndexOf(s, 'B') == Some(|x|) && LastIndexOf(s, 'B') == Some(|x|)
  {
    var s := x + "Bg" + y;
    assert s == x + ['B'] + ("g" + y);
    NoBIn(x);
    NoBIn(y);
    assert 'B' !in "g" + y;
    FirstAt(x, "g" + y, 'B');
    LastAt(x, "g" + y, 'B');
  }

  /** A style name splits into its two colour groups in one way only. */
  lemma GroupsUnique(x: string, y: string, g1: string, g2: string)
    requires IsColorGroup(g1) && IsBgTail(g2)
    requires x + "Bg" + y == g1 + "Bg" + g2
    ensures x == g1 && y == g2
  {
    var s := g1 + "Bg" + g2;
    OnlyB(g1, g2);
    assert s[|x|] == 'B';
    FirstBefore(s, 'B', |x|);
    LastAfter(s, 'B', |x|);
    assert |x| == |g1|;
    assert x == s[..|x|] && g1 == s[..|g1|];
    assert y == s[|x| + 2..] && g2 == s[|g1| + 2..];
  }

  lemma BgGroupOf(y: string)
    requires IsBgTail(y)
    ensures BgGroup("Bg" + y) == Some(BgValue(y))
  {
    var s := "Bg" + y;
    assert s[..2] == "Bg" && s[2..] == y;
  }

  /** What follows the prefix of a name. */
  lemma PrefixRest(x: string, y: string)
    ensures var name := COLOR_SPAN_PREFIX + x + "Bg" + y;
      StartsWith(name, COLOR_SPAN_PREFIX) && name[|COLOR_SPAN_PREFIX|..] == x + "Bg" + y
  {
    var name := COLOR_SPAN_PREFIX + x + "Bg" + y;
    assert name == COLOR_SPAN_PREFIX + (x + "Bg" + y);
  }

  /** The regex recovers the two groups the name was built from. */
  lemma ColorNameGroups(x: string, y: string)
    requires IsColorGroup(x) && IsBgTail(y)
    ensures ColorSpanGroups(COLOR_SPAN_PREFIX + x + "Bg" + y) == Some((x, BgValue(y)))
  {
    PrefixRest(x, y);
    BgGroupOf(y);
    var rest := x + "Bg" + y;
    if x == "" {
      assert rest == "Bg" + y;
      if |rest| >= 6 {
        assert !IsHex(rest[..6][0]);
      }
    } else {
      assert rest[..6] == x;
      assert rest[6..] == "Bg" + y;
    }
  }

  /** `make_color_style_name` succeeds exactly on colours that are empty or
      `#` and six lower-case hex digits (the background may carry one final
      newline, which `$` lets through), and then the regex gives back
      `(fg[1:], bg[1:])` without that newline. */
  lemma ColorStyleNameRoundTrip(fg: string, bg: string)
    ensures MakeColorStyleName(fg, bg).Ok? <==> IsColorGroup(Tail(fg)) && IsBgTail(Tail(bg))
    ensures MakeColorStyleName(fg, bg).Ok? ==>
      ColorSpanGroups(MakeColorStyleName(fg, bg).value) == Some((Tail(fg), BgValue(Tail(bg))))
  {
    var x, y := Tail(fg), Tail(bg);
    if IsColorGroup(x) && IsBgTail(y) {
      ColorNameGroups(x, y);
    } else if ColorSpanGroups(COLOR_SPAN_PREFIX + x + "Bg" + y).Some? {
      NameGroupsValid(x, y);
    }
  }

  /** The background `#` + newline is accepted, and names the empty colour. */
  lemma NewlineBackground()
    ensures MakeColorStyleName("#abcdef", "#\n") == Ok("SpanColorFgabcdefBg\n")
    ensures ColorSpanGroups("SpanColorFgabcdefBg\n") == Some(("abcdef", ""))
  {
    assert Tail("#abcdef") == "abcdef" && Tail("#\n") == "\n";
    assert IsBgTail("\n") && BgValue("\n") == "";
    assert IsColorGroup("abcdef");
    ColorStyleNameRoundTrip("#abcdef", "#\n");
    assert COLOR_SPAN_PREFIX + "abcdef" + "Bg" + "\n" == "SpanColorFgabcdefBg\n";
  }

  /** Only colour groups make a name the regex matches. */
  lemma NameGroupsValid(x: string, y: string)
    requires ColorSpanGroups(COLOR_SPAN_PREFIX + x + "Bg" + y).Some?
    ensures IsColorGroup(x) && IsBgTail(y)
  {
    var (g1, g2) := ColorSpanGroups(COLOR_SPAN_PREFIX + x + "Bg" + y).value;
    var y2 := GroupsShape(COLOR_SPAN_PREFIX + x + "Bg" + y);
    PrefixRest(x, y);
    PrefixRest(g1, y2);
    GroupsUnique(x, y, g1, y2);
  }

  // ---------------------------------------------------------------------
  // create_color_style and the minimal styles

  /** `(t % s) if s else ''` for one colour attribute. */
  function ColorAttr(attr: string, s: string): string
  {
    if s == "" then "" else " " + attr + "=\"#" + s + "\""
  }

  /** `create_color_style(fg, bg)`: the text properties of a colour span,
      without the attribute of a colour that is empty. */
  function CreateColorStyle(fg: string, bg: string): string
  {
    "<style:text-properties" + ColorAttr("fo:color", fg) + ColorAttr("fo:background-color", bg) + "/>"
  }

  /** `ODT_MINIMAL_STYLES`: the text properties of the fixed styles.  The
      graphic style of `Image` is XML text the model never inspects, so it
      stands here as an empty string. */
  const MINIMAL_STYLES: map<string, string> := map[
    "Underlined" := "<style:text-properties style:text-underline-style=\"solid\" style:text-underline-color=\"font-color\"/>",
    "Bold" := "<style:text-properties  fo:font-weight=\"bold\" style:font-weight-asian=\"bold\" style:font-weight-complex=\"bold\"/>",
    "Italic" := "<style:text-properties fo:font-style=\"italic\" style:font-style-asian=\"italic\" style:font-style-complex=\"italic\"/>",
    "Strikethrough" := "<style:text-properties style:text-line-through-style=\"solid\"/>",
    "Fixed" := "<style:text-properties style:font-name=\"Courier New\" style:font-name-asian=\"Courier New\" style:font-name-complex=\"Courier New\" />",
    "Superscript" := "<style:text-properties style:text-position=\"super 58%\"/>",
    "Subscript" := "<style:text-properties style:text-position=\"sub 58%\"/>",
    "Image" := ""]

  const MINIMAL_STYLE_NAMES: set<string> := MINIMAL_STYLES.Keys

  /** The names `odt_span` adds for its fixed styles. */
  const SPAN_STYLES: map<string, string> :=
    map["b" := "Bold", "i" := "Italic", "s" := "Strikethrough", "u" := "Underlined",
        "sub" := "Subscript", "sup" := "Superscript"]

  /** `ODT_MINIMAL_STYLES.get(name) or create_color_style(*COLOR_SPAN_REX
      .match(name).groups())` in `ensure_minimal_styles`: a fixed style's
      properties, else a colour name's colours, else the failure of
      `None.groups()`.  For `Image` the style found is
      `ODT_IMAGE_STYLE_TEMPLATE`, a plain string rather than a `t(...)`
      template, so the call `style(name)` raises TypeError. */
  function StyleFor(name: string): Result<string>
  {
    if name == "Image" then Err("TypeError")
    else if name in MINIMAL_STYLES then Ok(MINIMAL_STYLES[name])
    else match ColorSpanGroups(name)
      case None => Err("AttributeError")
      case Some((f, b)) => Ok(CreateColorStyle(f, b))
  }

  /** A style `ensure_minimal_styles` can create. */
  predicate Creatable(name: string)
  {
    StyleFor(name).Ok?
  }

  lemma SpanStylesCreatable()
    ensures forall t :: t in SPAN_STYLES ==> SPAN_STYLES[t] in MINIMAL_STYLE_NAMES && Creatable(SPAN_STYLES[t])
  {
  }

  /** The `Image` style cannot be created: calling the string
      `ODT_IMAGE_STYLE_TEMPLATE` raises TypeError.  `odtify` never asks for
      it. */
  lemma ImageStyleFails()
    ensures "Image" in MINIMAL_STYLE_NAMES && StyleFor("Image") == Err("TypeError")
  {
  }

  /** No fixed style's name looks like a colour span's. */
  lemma MinimalNotColor(name: string)
    requires name in MINIMAL_STYLE_NAMES
    ensures !StartsWith(name, COLOR_SPAN_PREFIX)
  {
    if |name| >= |COLOR_SPAN_PREFIX| {
      assert name[1] != COLOR_SPAN_PREFIX[1];
    }
  }

  /** For the name of a colour span the colour style carries back exactly
      the colours it was named after. */
  lemma ColorStyleFor(fg: string, bg: string)
    requires IsColorGroup(Tail(fg)) && IsBgTail(Tail(bg))
    ensures MakeColorStyleName(fg, bg).Ok?
    ensures StyleFor(MakeColorStyleName(fg, bg).value) == Ok(CreateColorStyle(Tail(fg), BgValue(Tail(bg))))
  {
    ColorStyleNameRoundTrip(fg, bg);
    var name := COLOR_SPAN_PREFIX + Tail(fg) + "Bg" + Tail(bg);
    PrefixRest(Tail(fg), Tail(bg));
    ColorNotMinimal(name);
  }

  lemma ColorNotMinimal(name: string)
    requires StartsWith(name, COLOR_SPAN_PREFIX)
    ensures name !in MINIMAL_STYLE_NAMES
  {
    if name in MINIMAL_STYLE_NAMES {
      MinimalNotColor(name);
    }
  }

  // ---------------------------------------------------------------------
  // odtify_basestring

  function SpaceTag(s: string): string { ReplaceChar(s, ' ', "<text:s/>") }
  function TabTag(s: string): string { ReplaceChar(s, '\t', "<text:tab>") }

  /** `odtify_basestring(s)`. */
  function OdtifyBasestring(s: string): string
  {
    TabTag(SpaceTag(CgiEscape(s)))
  }

  /** What one character becomes. */
  function OdtChar(c: char): string
  {
    if c == '&' then "&amp;"
    else if c == '<' then "&lt;"
    else if c == '>' then "&gt;"
    else if c == ' ' then "<text:s/>"
    else if c == '\t' then "<text:tab>"
    else [c]
  }

  function ConcatMap(s: string): string
  {
    if s == [] then [] else OdtChar(s[0]) + ConcatMap(s[1..])
  }

  lemma OdtifyAppend(a: string, b: string)
    ensures OdtifyBasestring(a + b) == OdtifyBasestring(a) + OdtifyBasestring(b)
  {
    ReplaceCharAppend(a, b, '&', "&amp;");
    var a1, b1 := ReplaceChar(a, '&', "&amp;"), ReplaceChar(b, '&', "&amp;");
    ReplaceCharAppend(a1, b1, '<', "&lt;");
    var a2, b2 := ReplaceChar(a1, '<', "&lt;"), ReplaceChar(b1, '<', "&lt;");
    ReplaceCharAppend(a2, b2, '>', "&gt;");
    var a3, b3 := ReplaceChar(a2, '>', "&gt;"), ReplaceChar(b2, '>', "&gt;");
    ReplaceCharAppend(a3, b3, ' ', "<text:s/>");
    var a4, b4 := ReplaceChar(a3, ' ', "<text:s/>"), ReplaceChar(b3, ' ', "<text:s/>");
    ReplaceCharAppend(a4, b4, '\t', "<text:tab>");
  }

  /** The stages after `&` leave an escape of `&` alone. */
  lemma AfterAmp(e: string)
    requires e == "&amp;"
    ensures TabTag(SpaceTag(EscGt(EscLt(e)))) == e
  {
    ReplaceCharAbsent(e, '<', "&lt;");
    ReplaceCharAbsent(e, '>', "&gt;");
    ReplaceCharAbsent(e, ' ', "<text:s/>");
    ReplaceCharAbsent(e, '\t', "<text:tab>");
  }

  lemma AfterLt(e: string)
    requires e == "&lt;"
    ensures TabTag(SpaceTag(EscGt(e))) == e
  {
    ReplaceCharAbsent(e, '>', "&gt;");
    ReplaceCharAbsent(e, ' ', "<text:s/>");
    ReplaceCharAbsent(e, '\t', "<text:tab>");
  }

  lemma AfterGt(e: string)
    requires e == "&gt;"
    ensures TabTag(SpaceTag(e)) == e
  {
    ReplaceCharAbsent(e, ' ', "<text:s/>");
    ReplaceCharAbsent(e, '\t', "<text:tab>");
  }

  lemma AfterSpace(e: string)
    requires e == "<text:s/>"
    ensures TabTag(e) == e
  {
    ReplaceCharAbsent(e, '\t', "<text:tab>");
  }

  /** One character goes through the stages. */
  lemma OdtifyOne(c: char)
    ensures OdtifyBasestring([c]) == OdtChar(c)
  {
    var e1 := EscAmp([c]);
    ReplaceCharOne(c, '&', "&amp;");
    if c == '&' {
      AfterAmp(e1);
    } else {
      var e2 := EscLt(e1);
      ReplaceCharOne(c, '<', "&lt;");
      if c == '<' {
        AfterLt(e2);
      } else {
        var e3 := EscGt(e2);
        ReplaceCharOne(c, '>', "&gt;");
        if c == '>' {
          AfterGt(e3);
        } else {
          var e4 := SpaceTag(e3);
          ReplaceCharOne(c, ' ', "<text:s/>");
          if c == ' ' {
            AfterSpace(e4);
          } else {
            ReplaceCharOne(c, '\t', "<text:tab>");
          }
        }
      }
    }
  }

  /** `odtify_basestring` escapes `&`, `<` and `>`, turns each space into
      `<text:s/>` and each tab into `<text:tab>`, and keeps every other
      character: the chain of replacements is a character-by-character
      map. */
  lemma {:induction false} OdtifyByChar(s: string)
    ensures OdtifyBasestring(s) == ConcatMap(s)
  {
    if s != [] {
      assert s == [s[0]] + s[1..];
      OdtifyAppend([s[0]], s[1..]);
      OdtifyOne(s[0]);
      OdtifyByChar(s[1..]);
    }
  }

  // ---------------------------------------------------------------------
  // odtify over elements

  /** The tags `HTML_TO_ODT` has a handler for. */
  const HTML_TO_ODT: set<string> := {"b", "i", "s", "u", "sub", "sup", "a", "p", "span"}

  function SpanTemplate(style: string, inner: string): string
  {
    "<text:span text:style-name=\"" + style + "\">" + inner + "</text:span>"
  }

  function PlainSpanTemplate(inner: string): string
  {
    "<text:span>" + inner + "</text:span>"
  }

  function LinkTemplate(href: string, inner: string): string
  {
    "<text:a xlink:type=\"simple\" xlink:href=\"" + href + "\" >" + inner + "</text:a>"
  }

  function BookmarkTemplate(h: string): string
  {
    "<text:bookmark-start text:name=\"" + h + "\"/><text:bookmark-end text:name=\"" + h + "\"/>"
  }

  function ParagraphTemplate(inner: string): string
  {
    "<text:p>" + inner + "</text:p>"
  }

  /** The style name an `odt_span` made with `style` gives to attrs `a`: a
      fixed style needs empty attrs, and attrs must be a `style` of colour
      keys only. */
  function SpanStyle(style: Option<string>, a: WAttrs): (r: Result<Option<string>>)
    ensures r.Ok? && r.value.Some? && a == map[] ==> style == r.value
    ensures style.Some? && a != map[] ==> r == Err("AssertionError")
  {
    if a != map[] && style.Some? then Err("AssertionError")
    else if a != map[] then
      if a.Keys != {STYLE} then Err("AssertionError")
      else
        var sty := a[STYLE].kvs;
        if exists i :: 0 <= i < |sty| && sty[i].0 !in COLOR_TYPES then Err("AssertionError")
        else
          var fg := StyleGet(sty, "color");
          var bg := StyleGet(sty, "background-color");
          var name := MakeColorStyleName(if fg.Some? then fg.value else "", if bg.Some? then bg.value else "");
          if name.Err? then Err(name.error) else Ok(Some(name.value))
    else Ok(style)
  }

  /** `odtify(tree, required_styles, images)` on strings, lists and
      elements: the XML text, with the style names the spans required added
      to `req`. */
  function OdtifyNode(n: Node, req: set<string>): (r: Result<(string, set<string>)>)
    decreases n, 0
  {
    match n
    case Text(s) => Ok((OdtifyBasestring(s), req))
    case Elem(t, a, b) =>
      if t in SPAN_STYLES || t == "span" then
        var sty := SpanStyle(if t in SPAN_STYLES then Some(SPAN_STYLES[t]) else None, a);
        if sty.Err? then Err(sty.error)
        else if sty.value.None? then
          var inner := OdtifyBody(b, req);
          if inner.Err? then inner else Ok((PlainSpanTemplate(inner.value.0), inner.value.1))
        else
          var inner := OdtifyBody(b, req + {sty.value.value});
          if inner.Err? then inner else Ok((SpanTemplate(sty.value.value, inner.value.0), inner.value.1))
      else if t == "a" then
        if "name" in a then
          Ok((BookmarkTemplate(AttrText(a["name"])), req))
        else if "href" !in a then Err("KeyError")
        else
          var inner := OdtifyBody(b, req);
          if inner.Err? then inner else Ok((LinkTemplate(AttrText(a["href"]), inner.value.0), inner.value.1))
      else if t == "p" then
        if a != map[] then Err("AssertionError")
        else
          var inner := OdtifyBody(b, req);
          if inner.Err? then inner else Ok((ParagraphTemplate(inner.value.0), inner.value.1))
      else Err("KeyError")
  }

  /** `"".join(odtify(e, ...) for e in body)`. */
  function OdtifyBody(body: seq<Node>, req: set<string>): (r: Result<(string, set<string>)>)
    decreases body, 1
  {
    if body == [] then Ok(("", req))
    else
      var h := OdtifyNode(body[0], req);
      if h.Err? then h
      else
        var t := OdtifyBody(body[1..], h.value.1);
        if t.Err? then t else Ok((h.value.0 + t.value.0, t.value.1))
  }

  /** Every style `odtify` requires is one `ensure_minimal_styles` can
      create, and no required style is ever dropped. */
  lemma {:induction false} BodyStylesCreatable(body: seq<Node>, req: set<string>)
    ensures var r := OdtifyBody(body, req);
      r.Ok? ==> req <= r.value.1 && forall x :: x in r.value.1 && x !in req ==> Creatable(x)
    decreases body, 1
  {
    if body != [] {
      NodeStylesCreatable(body[0], req);
      var h := OdtifyNode(body[0], req);
      if h.Ok? {
        BodyStylesCreatable(body[1..], h.value.1);
      }
    }
  }

  lemma {:induction false} NodeStylesCreatable(n: Node, req: set<string>)
    ensures var r := OdtifyNode(n, req);
      r.Ok? ==> req <= r.value.1 && forall x :: x in r.value.1 && x !in req ==> Creatable(x)
    decreases n, 0
  {
    if n.Elem? {
      var t, a, b := n.tag, n.attrs, n.body;
      if t in SPAN_STYLES || t == "span" {
        var style := if t in SPAN_STYLES then Some(SPAN_STYLES[t]) else None;
        var sty := SpanStyle(style, a);
        if sty.Ok? && sty.value.Some? {
          var name := sty.value.value;
          SpanStylesCreatable();
          SpanNameCreatable(style, a);
          BodyStylesCreatable(b, req + {name});
        } else if sty.Ok? {
          BodyStylesCreatable(b, req);
        }
      } else {
        BodyStylesCreatable(b, req);
      }
    }
  }

  lemma SpanNameCreatable(style: Option<string>, a: WAttrs)
    requires style.Some? ==> Creatable(style.value)
    ensures var r := SpanStyle(style, a); r.Ok? && r.value.Some? ==> Creatable(r.value.value)
  {
    var r := SpanStyle(style, a);
    if r.Ok? && r.value.Some? && a != map[] {
      var sty := a[STYLE].kvs;
      var fg := StyleGet(sty, "color");
      var bg := StyleGet(sty, "background-color");
      var f, g := if fg.Some? then fg.value else "", if bg.Some? then bg.value else "";
      ColorStyleNameRoundTrip(f, g);
      ColorStyleFor(f, g);
    }
  }

  /** Text needs no style, and comes out escaped. */
  lemma TextOdtified(s: string, req: set<string>)
    ensures OdtifyNode(Text(s), req) == Ok((ConcatMap(s), req))
  {
    OdtifyByChar(s);
  }

  /** A span with a fixed style and no attrs requires just that style. */
  lemma FixedSpan(t: string, b: seq<Node>, req: set<string>)
    requires t in SPAN_STYLES
    ensures var inner := OdtifyBody(b, req + {SPAN_STYLES[t]});
      OdtifyNode(Elem(t, map[], b), req) ==
        (if inner.Err? then inner else Ok((SpanTemplate(SPAN_STYLES[t], inner.value.0), inner.value.1)))
  {
  }

  /** A fixed style with attrs is an assertion failure. */
  lemma FixedSpanWithAttrs(t: string, a: WAttrs, b: seq<Node>, req: set<string>)
    requires t in SPAN_STYLES && a != map[]
    ensures OdtifyNode(Elem(t, a, b), req) == Err("AssertionError")
  {
  }

  // ---------------------------------------------------------------------
  // cleanse_internal

  /** A tag without a handler in `HTML_TO_ODT`. */
  predicate Unhandled(t: string)
  {
    t !in HTML_TO_ODT
  }

  /** `cleanse_internal(frags)`: splice every element `odtify` has no
      handler for. */
  function CleanseInternal(frags: seq<Node>): seq<Node>
  {
    Postprocess.Whack(Unhandled, frags, false)
  }

  /** After cleansing, every element left has a handler, and the text is
      what it was. */
  lemma CleanseLeavesHandled(frags: seq<Node>)
    ensures Postprocess.NoTag(Unhandled, CleanseInternal(frags))
    ensures Postprocess.Texts(CleanseInternal(frags)) == Postprocess.Texts(frags)
  {
    Postprocess.WhackRemovesTag(Unhandled, frags, false);
    Postprocess.WhackKeepsTexts(Unhandled, frags);
  }
}
