/** The passes of postprocess.py that follow citation parsing: underlined
    text becomes commands (`underlines_to_commands`), captions move into the
    float they follow (`captionize`), and figures are unwrapped from their
    paragraphs (`unwrap_figures`). */
module PostprocessCommands {
  import opened Wrappers
  import opened PyStr
  import opened Internal
  import opened Postprocess
  import opened Seqs

  /** `html_parser.parse_chunk`, the HTML parser an underlined tag is handed
      to; it is not part of this model. */
  type ChunkParser = string -> seq<Node>

  predicate IsUnderlineTag(t: string) { t == "u" }

  /** An underlined text: `('u', {}, [raw])`. */
  function U(raw: string): Node { Elem("u", map[], [Text(raw)]) }

  /** `cmd[1:-1]`. */
  function Inner(cmd: string): string
  {
    if |cmd| >= 2 then cmd[1..|cmd| - 1] else ""
  }

  /** What an underlined text that takes no arguments leaves in `reparsed`,
      and whether it ends the left-stripping of what follows (only a literal
      does). */
  function UnderlinedItem(raw: string, cmd: string, chunk: ChunkParser): (Result<seq<Node>>, bool)
  {
    if |cmd| > 0 && cmd[0] == '$' && cmd[|cmd| - 1] == '$' then
      (Ok([MkCmd("tex", Some([Text("\\(" + Inner(cmd) + "\\)")]))]), false)
    else if |cmd| > 0 && cmd[0] == '\\' then (Ok([MkCmd("tex", Some([Text(cmd)]))]), false)
    else if |cmd| > 0 && cmd[0] == '<' && cmd[|cmd| - 1] == '>' then (Tidy(chunk(cmd)), false)
    else if cmd == "" then (Ok([Text(raw)]), false)
    else (Ok([MkLit(Lower(cmd))]), true)
  }

  /** What an underlined element stands for: an error, a command `name:`
      that takes the following items as arguments, or nodes that replace it
      (with whether left-stripping stops). */
  datatype Underlined = Bad(error: string) | Args(name: string) | Item(nodes: seq<Node>, reset: bool)

  function ClassifyUnderline(attrs: WAttrs, body: seq<Node>, chunk: ChunkParser): Underlined
  {
    if attrs != map[] || |body| != 1 then Bad("AssertionError")
    else if !body[0].Text? then Bad("AttributeError")
    else
      var cmd := Strip(body[0].text);
      if |cmd| > 0 && cmd[|cmd| - 1] == ':' then Args(Lower(cmd[..|cmd| - 1]))
      else
        var item := UnderlinedItem(body[0].text, cmd, chunk);
        if item.0.Err? then Bad(item.0.error) else Item(item.0.value, item.1)
  }

  /** A string of the body, left-stripped when asked; an empty one is dropped. */
  function Kept(s: string, lstrip: bool): seq<Node>
  {
    var t := if lstrip then LStrip(s) else s;
    if t != "" then [Text(t)] else []
  }

  function Prefixed(acc: seq<Node>, r: Result<seq<Node>>): Result<seq<Node>>
  {
    if r.Err? then r else Ok(acc + r.value)
  }

  /** `underlines_to_commands(parsed_body, lstrip)`: what the loop leaves in
      `reparsed`. Each list item is handled in turn; `name:` takes all the
      items after it as its arguments and ends the list. */
  function UnderlinesToCommands(es: seq<Node>, lstrip: bool, chunk: ChunkParser): Result<seq<Node>>
    decreases es
  {
    if es == [] then Ok([])
    else
      match es[0]
      case Text(s) => Prefixed(Kept(s, lstrip), UnderlinesToCommands(es[1..], false, chunk))
      case Elem(tag, attrs, body) =>
        if tag == "u" then
          match ClassifyUnderline(attrs, body, chunk)
          case Bad(err) => Err(err)
          case Args(name) =>
            var args := UnderlinesToCommands(es[1..], true, chunk);
            if args.Err? then args else Ok([MkCmd(name, Some(args.value))])
          case Item(nodes, reset) => Prefixed(nodes, UnderlinesToCommands(es[1..], lstrip && !reset, chunk))
        else
          var sub := UnderlinesToCommands(body, lstrip, chunk);
          if sub.Err? then sub
          else Prefixed([Elem(tag, attrs, sub.value)], UnderlinesToCommands(es[1..], false, chunk))
  }

  lemma PrefixedEmpty(r: Result<seq<Node>>)
    ensures Prefixed([], r) == r
  {
    if r.Ok? {
      assert [] + r.value == r.value;
    }
  }

  lemma PrefixedAssoc(a: seq<Node>, b: seq<Node>, r: Result<seq<Node>>)
    ensures Prefixed(a, Prefixed(b, r)) == Prefixed(a + b, r)
  {
    if r.Ok? {
      assert a + (b + r.value) == (a + b) + r.value;
    }
  }

  lemma BodySizeSplit(es: seq<Node>, i: nat)
    requires i < |es|
    ensures NodeSize(es[i]) + BodySize(es[i + 1..]) <= BodySize(es)
    ensures BodySize(es[i + 1..]) < BodySize(es)
  {
    assert es == es[..i] + es[i..];
    BodySizeAppend(es[..i], es[i..]);
    assert es[i..][0] == es[i] && es[i..][1..] == es[i + 1..];
  }

  /** The loop of `underlines_to_commands`: the recursive calls on an
      element's body and on the rest of the list after a `name:` command are
      calls of the method itself. */
  method UnderlinesLoop(es: seq<Node>, lstrip0: bool, chunk: ChunkParser) returns (r: Result<seq<Node>>)
    ensures r == UnderlinesToCommands(es, lstrip0, chunk)
    decreases BodySize(es)
  {
    var reparsed: seq<Node> := [];
    var lstrip := lstrip0;
    var i := 0;
    assert es[0..] == es;
    PrefixedEmpty(UnderlinesToCommands(es, lstrip0, chunk));
    while i < |es|
      invariant i <= |es|
      invariant UnderlinesToCommands(es, lstrip0, chunk) == Prefixed(reparsed, UnderlinesToCommands(es[i..], lstrip, chunk))
    {
      var e := es[i];
      BodySizeSplit(es, i);
      assert es[i..][0] == e && es[i..][1..] == es[i + 1..];
      if e.Elem? && e.tag == "u" {
        var u := ClassifyUnderline(e.attrs, e.body, chunk);
        if u.Bad? {
          BadStep(es[i..], lstrip, chunk);
          return Err(u.error);
        }
        if u.Args? {
          CommandTakesRest(es[i..], lstrip, chunk, u.name);
          var args := UnderlinesLoop(es[i + 1..], true, chunk);
          if args.Err? {
            return args;
          }
          return Ok(reparsed + [MkCmd(u.name, Some(args.value))]);
        }
        UnderlinedInPlace(es[i..], lstrip, chunk, u.nodes, u.reset);
        PrefixedAssoc(reparsed, u.nodes, UnderlinesToCommands(es[i + 1..], lstrip && !u.reset, chunk));
        reparsed := reparsed + u.nodes;
        lstrip := lstrip && !u.reset;
      } else if e.Text? {
        TextStep(es[i..], lstrip, chunk);
        var kept := Kept(e.text, lstrip);
        PrefixedAssoc(reparsed, kept, UnderlinesToCommands(es[i + 1..], false, chunk));
        reparsed := reparsed + kept;
        lstrip := false;
      } else {
        ElemStep(es[i..], lstrip, chunk);
        var sub := UnderlinesLoop(e.body, lstrip, chunk);
        if sub.Err? {
          return sub;
        }
        PrefixedAssoc(reparsed, [Elem(e.tag, e.attrs, sub.value)], UnderlinesToCommands(es[i + 1..], false, chunk));
        reparsed := reparsed + [Elem(e.tag, e.attrs, sub.value)];
        lstrip := false;
      }
      i := i + 1;
    }
    assert reparsed + [] == reparsed;
    return Ok(reparsed);
  }

  lemma BadStep(es: seq<Node>, lstrip: bool, chunk: ChunkParser)
    requires es != [] && es[0].Elem? && es[0].tag == "u"
    requires ClassifyUnderline(es[0].attrs, es[0].body, chunk).Bad?
    ensures UnderlinesToCommands(es, lstrip, chunk) == Err(ClassifyUnderline(es[0].attrs, es[0].body, chunk).error)
  {
  }

  lemma TextStep(es: seq<Node>, lstrip: bool, chunk: ChunkParser)
    requires es != [] && es[0].Text?
    ensures UnderlinesToCommands(es, lstrip, chunk) == Prefixed(Kept(es[0].text, lstrip), UnderlinesToCommands(es[1..], false, chunk))
  {
  }

  lemma ElemStep(es: seq<Node>, lstrip: bool, chunk: ChunkParser)
    requires es != [] && es[0].Elem? && es[0].tag != "u"
    ensures UnderlinesToCommands(es, lstrip, chunk) ==
      (var sub := UnderlinesToCommands(es[0].body, lstrip, chunk);
       if sub.Err? then sub
       else Prefixed([Elem(es[0].tag, es[0].attrs, sub.value)], UnderlinesToCommands(es[1..], false, chunk)))
  {
  }

  // ---------------------------------------------------------------------
  // What the pass promises

  /** No string anywhere in the body is empty. */
  predicate NoEmptyText(b: seq<Node>)
    decreases b
  {
    b == [] ||
    ((match b[0]
      case Text(s) => s != ""
      case Elem(_, _, c) => NoEmptyText(c)) && NoEmptyText(b[1..]))
  }

  /** Without underlined text (and without empty strings, which the pass
      drops), the body is rebuilt exactly. */
  lemma {:induction false} NoUnderlinesUnchanged(es: seq<Node>, chunk: ChunkParser)
    requires NoTag(IsUnderlineTag, es) && NoEmptyText(es)
    ensures UnderlinesToCommands(es, false, chunk) == Ok(es)
    decreases es
  {
    if es != [] {
      NoUnderlinesUnchanged(es[1..], chunk);
      assert es == [es[0]] + es[1..];
      if es[0].Elem? {
        NoUnderlinesUnchanged(es[0].body, chunk);
      }
    }
  }

  /** `name:` makes a command of every sibling that follows; the first of
      them is left-stripped, and nothing follows the command. */
  lemma CommandTakesRest(es: seq<Node>, lstrip: bool, chunk: ChunkParser, name: string)
    requires es != [] && es[0].Elem? && es[0].tag == "u"
    requires ClassifyUnderline(es[0].attrs, es[0].body, chunk) == Args(name)
    ensures UnderlinesToCommands(es, lstrip, chunk) ==
      (var args := UnderlinesToCommands(es[1..], true, chunk);
       if args.Err? then args else Ok([MkCmd(name, Some(args.value))]))
  {
  }

  /** How a bare underlined string is classified. */
  lemma ClassifyBare(raw: string, chunk: ChunkParser)
    ensures var cmd := Strip(raw);
      ClassifyUnderline(map[], [Text(raw)], chunk) ==
        if |cmd| > 0 && cmd[|cmd| - 1] == ':' then Args(Lower(cmd[..|cmd| - 1]))
        else
          var item := UnderlinedItem(raw, cmd, chunk);
          if item.0.Err? then Bad(item.0.error) else Item(item.0.value, item.1)
  {
    var body := [Text(raw)];
    assert |body| == 1 && body[0].Text? && body[0].text == raw;
  }

  /** An underlined text takes arguments exactly when it ends in a colon
      once stripped ... */
  lemma ArgsWhenColon(raw: string, chunk: ChunkParser)
    ensures var cmd := Strip(raw);
      |cmd| > 0 && cmd[|cmd| - 1] == ':' <==> ClassifyUnderline(map[], [Text(raw)], chunk).Args?
  {
    ClassifyBare(raw, chunk);
  }

  /** ... and the command is named by the lower-cased text before the colon. */
  lemma ArgsName(raw: string, chunk: ChunkParser)
    ensures var cmd := Strip(raw);
      |cmd| > 0 && cmd[|cmd| - 1] == ':' ==> ClassifyUnderline(map[], [Text(raw)], chunk).name == Lower(cmd[..|cmd| - 1])
  {
    ClassifyBare(raw, chunk);
  }

  /** With the arguments already stripped and free of underlining, they
      become the command's body unchanged. */
  lemma CommandWithPlainArguments(es: seq<Node>, lstrip: bool, chunk: ChunkParser, name: string)
    requires es != [] && es[0].Elem? && es[0].tag == "u"
    requires ClassifyUnderline(es[0].attrs, es[0].body, chunk) == Args(name)
    requires NoTag(IsUnderlineTag, es[1..]) && NoEmptyText(es[1..])
    requires |es| > 1 ==> es[1].Text? && LStrip(es[1].text) == es[1].text
    ensures UnderlinesToCommands(es, lstrip, chunk) == Ok([MkCmd(name, Some(es[1..]))])
  {
    CommandTakesRest(es, lstrip, chunk, name);
    var rest := es[1..];
    if rest != [] {
      PlainArguments(rest, chunk);
    }
  }

  /** Stripped arguments free of underlining are kept as they are. */
  lemma PlainArguments(rest: seq<Node>, chunk: ChunkParser)
    requires rest != [] && NoTag(IsUnderlineTag, rest) && NoEmptyText(rest)
    requires rest[0].Text? && LStrip(rest[0].text) == rest[0].text
    ensures UnderlinesToCommands(rest, true, chunk) == Ok(rest)
  {
    NoTagTail(rest);
    NoUnderlinesUnchanged(rest[1..], chunk);
    TextStep(rest, true, chunk);
    assert Kept(rest[0].text, true) == [rest[0]];
    ConsTail(rest);
  }

  lemma NoTagTail(b: seq<Node>)
    requires b != [] && NoTag(IsUnderlineTag, b) && NoEmptyText(b)
    ensures NoTag(IsUnderlineTag, b[1..]) && NoEmptyText(b[1..])
    ensures b[0].Text? ==> b[0].text != ""
  {
  }

  /** Any other underlined text is replaced in place, and the pass goes on
      with the rest; only a literal stops the left-stripping. */
  lemma UnderlinedInPlace(es: seq<Node>, lstrip: bool, chunk: ChunkParser, nodes: seq<Node>, reset: bool)
    requires es != [] && es[0].Elem? && es[0].tag == "u"
    requires ClassifyUnderline(es[0].attrs, es[0].body, chunk) == Item(nodes, reset)
    ensures UnderlinesToCommands(es, lstrip, chunk) == Prefixed(nodes, UnderlinesToCommands(es[1..], lstrip && !reset, chunk))
  {
  }

  /** `$x$` becomes the inline formula `\(x\)`, text starting with a
      backslash is kept as TeX, and other words become a lower-cased literal. */
  lemma UnderlinedKinds(raw: string, chunk: ChunkParser)
    ensures var cmd := Strip(raw);
      |cmd| > 0 && cmd[0] == '$' && cmd[|cmd| - 1] == '$' ==>
        UnderlinedItem(raw, cmd, chunk) == (Ok([MkCmd("tex", Some([Text("\\(" + Inner(cmd) + "\\)")]))]), false)
    ensures var cmd := Strip(raw);
      |cmd| > 0 && cmd[0] == '\\' ==> UnderlinedItem(raw, cmd, chunk).0 == Ok([MkCmd("tex", Some([Text(cmd)]))])
    ensures var cmd := Strip(raw);
      cmd == "" ==> UnderlinedItem(raw, cmd, chunk) == (Ok([Text(raw)]), false)
    ensures var cmd := Strip(raw);
      |cmd| > 0 && cmd[0] != '$' && cmd[0] != '\\' && cmd[0] != '<' ==>
        UnderlinedItem(raw, cmd, chunk) == (Ok([MkLit(Lower(cmd))]), true)
  {
  }

  /** Only bare one-string underlines are accepted. */
  lemma UnderlineMustBeBare(attrs: WAttrs, body: seq<Node>, rest: seq<Node>, lstrip: bool, chunk: ChunkParser)
    requires attrs != map[] || |body| != 1
    ensures UnderlinesToCommands([Elem("u", attrs, body)] + rest, lstrip, chunk) == Err("AssertionError")
  {
  }

  // ---------------------------------------------------------------------
  // captionize

  predicate IsFloatTag(t: string) { t == "table" || t == "figure" }

  /** `varcmd('caption', CBODY)`: any body. */
  predicate IsCaptionCmd(n: Node)
  {
    n.Elem? && n.tag == "CMD" && n.attrs == map["class" := Classes(["caption"])]
  }

  /** The caption body when `e2` is a caption command or a paragraph holding
      just one. */
  function CaptionOf(e2: Node): Option<seq<Node>>
  {
    if IsCaptionCmd(e2) then Some(e2.body)
    else if e2.Elem? && e2.tag == "p" && |e2.body| == 1 && IsCaptionCmd(e2.body[0]) then Some(e2.body[0].body)
    else None
  }

  datatype Float = Float(tag: string, attrs: WAttrs, body: seq<Node>)

  /** Paragraph attributes under which a lone float still counts as one. */
  predicate FloatParagraphAttrs(a: WAttrs)
  {
    a == map[] || a == map["class" := Classes(["justify"])] || a == map["class" := Classes(["left"])]
  }

  /** `e1_is_figure`, with the parts `TAG`, `FATTRS`, `FBODY` it binds: a
      table or figure, or a plain paragraph holding just one. */
  function FloatOf(e1: Option<Node>): (r: Option<Float>)
    ensures r.Some? ==> e1.Some? && e1.value.Elem? && IsFloatTag(r.value.tag)
    ensures r.Some? && e1.value.tag != "p" ==> r.value == Float(e1.value.tag, e1.value.attrs, e1.value.body)
    ensures r.Some? && e1.value.tag == "p" ==>
      |e1.value.body| == 1 && e1.value.body[0].Elem? && FloatParagraphAttrs(e1.value.attrs) &&
      r.value == Float(e1.value.body[0].tag, e1.value.body[0].attrs, e1.value.body[0].body)
  {
    match e1
    case None => None
    case Some(Text(_)) => None
    case Some(Elem(t, a, b)) =>
      if t == "p" && |b| == 1 && b[0].Elem? && FloatParagraphAttrs(a) then
        if IsFloatTag(b[0].tag) then Some(Float(b[0].tag, b[0].attrs, b[0].body)) else None
      else if IsFloatTag(t) then Some(Float(t, a, b))
      else None
  }

  /** A float is never a caption. */
  lemma FloatIsNoCaption(e1: Node)
    requires FloatOf(Some(e1)).Some?
    ensures CaptionOf(e1).None?
  {
  }

  function CaptionElem(tag: string, cbody: seq<Node>): Node
  {
    Elem(if tag == "figure" then "figcaption" else "caption", map[], cbody)
  }

  /** `ans` after the first `n` windows of `captionize(body)`. */
  function CaptionizeUpTo(es: seq<Node>, n: nat): (ans: seq<Node>)
    requires n <= |es|
    ensures n > 0 && CaptionOf(es[n - 1]).None? ==> |ans| > 0
    decreases es, n
  {
    if n == 0 then []
    else
      var ans := CaptionizeUpTo(es, n - 1);
      var e2 := es[n - 1];
      match CaptionOf(e2)
      case None => ans + [if e2.Elem? then Elem(e2.tag, e2.attrs, Captionize(e2.body)) else e2]
      case Some(cbody) =>
        var e1 := if n >= 2 then Some(es[n - 2]) else None;
        match FloatOf(e1)
        case None => ans
        case Some(f) =>
          FloatIsNoCaption(es[n - 2]);
          var prev := es[n - 2];
          assert prev in es;
          assert prev.tag == "p" ==> prev.body[0] in prev.body;
          ans[|ans| - 1 := Elem(f.tag, f.attrs, [CaptionElem(f.tag, cbody)] + Captionize(f.body))]
  }

  /** `captionize(body)`: every caption (bare or in its own paragraph) moves
      into the table or figure just before it, as its first child. */
  function Captionize(es: seq<Node>): seq<Node>
    decreases es, |es| + 1
  {
    CaptionizeUpTo(es, |es|)
  }

  /** The loop of `captionize`, replacing `ans[-1]` in place; its recursive
      calls on children are calls of the method itself. */
  method CaptionizeLoop(es: seq<Node>) returns (ans: seq<Node>)
    ensures ans == Captionize(es)
    decreases es
  {
    ans := [];
    var i := 0;
    while i < |es|
      invariant i <= |es| && ans == CaptionizeUpTo(es, i)
    {
      var e2 := es[i];
      var c := CaptionOf(e2);
      if c.Some? {
        var e1 := if i >= 1 then Some(es[i - 1]) else None;
        var f := FloatOf(e1);
        if f.Some? {
          FloatIsNoCaption(es[i - 1]);
          assert es[i - 1] in es;
          if es[i - 1].tag == "p" {
            assert es[i - 1].body[0] in es[i - 1].body;
          }
          var fbody := CaptionizeLoop(f.value.body);
          ans := ans[|ans| - 1 := Elem(f.value.tag, f.value.attrs, [CaptionElem(f.value.tag, c.value)] + fbody)];
        }
      } else if e2.Elem? {
        assert e2 in es;
        var sub := CaptionizeLoop(e2.body);
        ans := ans + [Elem(e2.tag, e2.attrs, sub)];
      } else {
        ans := ans + [e2];
      }
      i := i + 1;
    }
  }

  /** No caption at any depth. */
  predicate NoCaption(b: seq<Node>)
    decreases b
  {
    b == [] ||
    (CaptionOf(b[0]).None? &&
     (match b[0]
      case Text(_) => true
      case Elem(_, _, c) => NoCaption(c)) && NoCaption(b[1..]))
  }

  /** Without captions, `captionize` rebuilds the body exactly. */
  lemma {:induction false} NoCaptionUnchanged(es: seq<Node>)
    requires NoCaption(es)
    ensures Captionize(es) == es
    decreases es, |es| + 1
  {
    NoCaptionPrefix(es, |es|);
    assert es[..|es|] == es;
  }

  lemma {:induction false} NoCaptionPrefix(es: seq<Node>, n: nat)
    requires n <= |es| && NoCaption(es)
    ensures CaptionizeUpTo(es, n) == es[..n]
    decreases es, n
  {
    if n > 0 {
      NoCaptionPrefix(es, n - 1);
      NoCaptionAt(es, n - 1);
      var e := es[n - 1];
      if e.Elem? {
        assert e in es;
        NoCaptionUnchanged(e.body);
      }
      assert es[..n] == es[..n - 1] + [e];
    }
  }

  lemma {:induction false} NoCaptionAt(es: seq<Node>, i: nat)
    requires i < |es| && NoCaption(es)
    ensures CaptionOf(es[i]).None? && (es[i].Elem? ==> NoCaption(es[i].body))
    decreases i
  {
    if i > 0 {
      NoCaptionAt(es[1..], i - 1);
      assert es[1..][i - 1] == es[i];
    }
  }

  /** A caption right after a table or figure becomes its first child
      (`figcaption` in a figure, `caption` in a table). */
  lemma CaptionAttaches(tag: string, attrs: WAttrs, body: seq<Node>, cbody: seq<Node>)
    requires IsFloatTag(tag)
    ensures Captionize([Elem(tag, attrs, body), MkCmd("caption", Some(cbody))]) ==
      [Elem(tag, attrs, [CaptionElem(tag, cbody)] + Captionize(body))]
  {
    var es := [Elem(tag, attrs, body), MkCmd("caption", Some(cbody))];
    assert CaptionizeUpTo(es, 1) == [Elem(tag, attrs, Captionize(body))];
  }

  /** A float alone in a plain paragraph loses the paragraph when its
      caption follows. */
  lemma CaptionUnwrapsParagraph(pattrs: WAttrs, tag: string, attrs: WAttrs, body: seq<Node>, cbody: seq<Node>)
    requires IsFloatTag(tag) && FloatParagraphAttrs(pattrs)
    ensures Captionize([Elem("p", pattrs, [Elem(tag, attrs, body)]), MkCmd("caption", Some(cbody))]) ==
      [Elem(tag, attrs, [CaptionElem(tag, cbody)] + Captionize(body))]
  {
    var es := [Elem("p", pattrs, [Elem(tag, attrs, body)]), MkCmd("caption", Some(cbody))];
    assert CaptionizeUpTo(es, 1) == [Elem("p", pattrs, Captionize([Elem(tag, attrs, body)]))];
  }

  /** A caption that follows anything but a float is dropped. */
  lemma StrayCaptionDropped(es: seq<Node>, n: nat)
    requires 0 < n <= |es| && CaptionOf(es[n - 1]).Some?
    requires FloatOf(if n >= 2 then Some(es[n - 2]) else None).None?
    ensures CaptionizeUpTo(es, n) == CaptionizeUpTo(es, n - 1)
  {
  }

  /** How many top-level items are captions. */
  function CaptionCount(es: seq<Node>, n: nat): nat
    requires n <= |es|
  {
    if n == 0 then 0 else CaptionCount(es, n - 1) + (if CaptionOf(es[n - 1]).Some? then 1 else 0)
  }

  /** Every top-level caption disappears (into a float or for good), and
      every other item stays; no caption is left at the top level. */
  lemma {:induction false} CaptionizeShape(es: seq<Node>, n: nat)
    requires n <= |es|
    ensures |CaptionizeUpTo(es, n)| == n - CaptionCount(es, n)
    ensures forall j :: 0 <= j < |CaptionizeUpTo(es, n)| ==> CaptionOf(CaptionizeUpTo(es, n)[j]).None?
    decreases es, n
  {
    if n > 0 {
      CaptionizeShape(es, n - 1);
      var ans := CaptionizeUpTo(es, n - 1);
      var e2 := es[n - 1];
      if CaptionOf(e2).None? {
        var item := if e2.Elem? then Elem(e2.tag, e2.attrs, Captionize(e2.body)) else e2;
        if e2.Elem? && e2.tag == "p" {
          assert e2 in es;
          CaptionizeShape(e2.body, |e2.body|);
          var cb := Captionize(e2.body);
          assert |cb| == 1 ==> CaptionOf(cb[0]).None?;
        }
        assert CaptionOf(item).None?;
        assert CaptionizeUpTo(es, n) == ans + [item];
        AppendUncaptioned(ans, item);
      } else if n >= 2 && FloatOf(Some(es[n - 2])).Some? {
        var f := FloatOf(Some(es[n - 2])).value;
        var fig := Elem(f.tag, f.attrs, [CaptionElem(f.tag, CaptionOf(e2).value)] + Captionize(f.body));
        assert CaptionOf(fig).None?;
        assert CaptionizeUpTo(es, n) == ans[|ans| - 1 := fig];
        UpdateUncaptioned(ans, fig, CaptionizeUpTo(es, n));
      } else {
        assert CaptionizeUpTo(es, n) == ans;
      }
    }
  }

  lemma AppendUncaptioned(ans: seq<Node>, item: Node)
    requires forall j :: 0 <= j < |ans| ==> CaptionOf(ans[j]).None?
    requires CaptionOf(item).None?
    ensures forall j :: 0 <= j < |ans + [item]| ==> CaptionOf((ans + [item])[j]).None?
  {
  }

  lemma UpdateUncaptioned(ans: seq<Node>, fig: Node, u: seq<Node>)
    requires ans != [] && forall j :: 0 <= j < |ans| ==> CaptionOf(ans[j]).None?
    requires CaptionOf(fig).None? && u == ans[|ans| - 1 := fig]
    ensures forall j :: 0 <= j < |u| ==> CaptionOf(u[j]).None?
  {
  }

  // ---------------------------------------------------------------------
  // unwrap_figures

  predicate IsFigureTag(t: string) { t == "figure" }

  /** Tags whose bodies the pass descends into. */
  predicate IsDescendTag(t: string) { t == "table" || t == "tr" || t == "td" || t == "blockquote" }

  /** `a['style']`, which raises `KeyError` when there is none. */
  function StyleMap(a: WAttrs): Result<seq<(string, string)>>
  {
    if "style" in a then Ok(a["style"].kvs) else Err("KeyError")
  }

  /** `x == BLOCK_FIG`: only a figure's attributes are looked at, and then
      `a['style']['display']` must exist. */
  function IsBlockFigure(x: Node): Result<bool>
  {
    if x.Text? || x.tag != "figure" then Ok(false)
    else
      match StyleMap(x.attrs)
      case Err(e) => Err(e)
      case Ok(kvs) =>
        match StyleGet(kvs, "display")
        case None => Err("KeyError")
        case Some(d) => Ok(d == "block")
  }

  /** `body.index(BLOCK_FIG)` from `i` on (and `BLOCK_FIG in body`): the first
      block figure, an error met before it, or `None`. */
  function FindBlockFigure(b: seq<Node>, i: nat): (r: Result<Option<nat>>)
    requires i <= |b|
    ensures r.Ok? && r.value.Some? ==>
      i <= r.value.value < |b| && IsBlockFigure(b[r.value.value]) == Ok(true) &&
      forall j :: i <= j < r.value.value ==> IsBlockFigure(b[j]) == Ok(false)
    ensures r == Ok(None) ==> forall j :: i <= j < |b| ==> IsBlockFigure(b[j]) == Ok(false)
    ensures r.Err? ==> exists j :: i <= j < |b| && IsBlockFigure(b[j]).Err?
    decreases |b| - i
  {
    if i == |b| then Ok(None)
    else
      match IsBlockFigure(b[i])
      case Err(e) => Err(e)
      case Ok(true) => Ok(Some(i))
      case Ok(false) => FindBlockFigure(b, i + 1)
  }

  /** The figure of `('p', {}, [('figure', FATTRS, FBODY)])` or of
      `('figure', FATTRS, FBODY)`. */
  function StandaloneFigure(e: Node): Option<Float>
  {
    if e.Text? then None
    else if e.tag == "p" && e.attrs == map[] && |e.body| == 1 && e.body[0].Elem? && e.body[0].tag == "figure" then
      Some(Float("figure", e.body[0].attrs, e.body[0].body))
    else if e.tag == "figure" then Some(Float("figure", e.attrs, e.body))
    else None
  }

  /** A paragraph split around its block figure `b[k]`: the part before
      keeps the attributes, the part after keeps them without `id` (all of
      them when nothing comes before), and empty halves are dropped unless
      attributes are left for the second. */
  function SplitParagraph(pattrs: WAttrs, b: seq<Node>, k: nat): seq<Node>
    requires k < |b|
  {
    FirstHalf(pattrs, b[..k]) + [b[k]] + SecondHalf(pattrs, b[..k] != [], b[k + 1..])
  }

  /** The paragraph before the figure, if anything comes before it. */
  function FirstHalf(pattrs: WAttrs, before: seq<Node>): seq<Node>
  {
    if before != [] then [Elem("p", pattrs, before)] else []
  }

  /** The paragraph after the figure: without `id` when a first half took
      it, and dropped when it would have neither attributes nor content. */
  function SecondHalf(pattrs: WAttrs, cut: bool, after: seq<Node>): seq<Node>
  {
    var cloned: WAttrs := if cut then WithoutKey(pattrs, "id") else pattrs;
    if cloned != map[] || after != [] then [Elem("p", cloned, after)] else []
  }

  /** `attrs` without the key `k`. */
  function WithoutKey(attrs: WAttrs, k: string): (r: WAttrs)
    ensures k !in r && forall j :: j in attrs && j != k ==> j in r && r[j] == attrs[j]
    ensures forall j :: j in r ==> j in attrs
  {
    attrs - {k}
  }

  /** One element that is not a table part or block quote. */
  function UnwrapLeaf(e: Node): Result<seq<Node>>
  {
    match StandaloneFigure(e)
    case Some(f) =>
      (match StyleMap(f.attrs)
       case Err(err) => Err(err)
       case Ok(kvs) => Ok([Elem("figure", f.attrs["style" := Style(StyleSet(kvs, "display", "block"))], f.body)]))
    case None =>
      if e.Elem? && e.tag == "p" then
        match FindBlockFigure(e.body, 0)
        case Err(err) => Err(err)
        case Ok(None) => Ok([e])
        case Ok(Some(k)) => Ok(SplitParagraph(e.attrs, e.body, k))
      else Ok([e])
  }

  /** `list(unwrap_figures(body))`. */
  function UnwrapFigures(es: seq<Node>): Result<seq<Node>>
    decreases es
  {
    if es == [] then Ok([])
    else
      var head :=
        if es[0].Elem? && IsDescendTag(es[0].tag) then
          (var sub := UnwrapFigures(es[0].body);
           if sub.Err? then Err(sub.error) else Ok([Elem(es[0].tag, es[0].attrs, sub.value)]))
        else UnwrapLeaf(es[0]);
      if head.Err? then head else Prefixed(head.value, UnwrapFigures(es[1..]))
  }

  /** Without figures the pass changes nothing. */
  lemma {:induction false} NoFigureUnchanged(es: seq<Node>)
    requires NoTag(IsFigureTag, es)
    ensures UnwrapFigures(es) == Ok(es)
    decreases es
  {
    if es != [] {
      var e := es[0];
      NoFigureUnchanged(es[1..]);
      assert es == [e] + es[1..];
      if e.Elem? {
        NoFigureUnchanged(e.body);
        if !IsDescendTag(e.tag) && e.tag == "p" {
          NoBlockFigure(e.body, 0);
        }
      }
    }
  }

  lemma {:induction false} NoBlockFigure(b: seq<Node>, i: nat)
    requires i <= |b| && NoTag(IsFigureTag, b[i..])
    ensures FindBlockFigure(b, i) == Ok(None)
    decreases |b| - i
  {
    if i < |b| {
      assert b[i..][0] == b[i] && b[i..][1..] == b[i + 1..];
      NoBlockFigure(b, i + 1);
    }
  }

  /** A standalone figure is forced to `display: block`, its other style
      entries untouched; without a style it raises `KeyError`. */
  lemma StandaloneFigureBlock(e: Node)
    requires StandaloneFigure(e).Some? && !IsDescendTag(e.tag)
    ensures var f := StandaloneFigure(e).value;
      "style" !in f.attrs <==> UnwrapFigures([e]) == Err("KeyError")
    ensures var f := StandaloneFigure(e).value;
      UnwrapFigures([e]).Ok? ==>
        |UnwrapFigures([e]).value| == 1 &&
        var g := UnwrapFigures([e]).value[0];
        g.Elem? && g.tag == "figure" && g.body == f.body && g.attrs.Keys == f.attrs.Keys &&
        StyleGet(g.attrs["style"].kvs, "display") == Some("block") &&
        (forall k :: k != "display" ==> StyleGet(g.attrs["style"].kvs, k) == StyleGet(f.attrs["style"].kvs, k)) &&
        (forall a :: a in f.attrs && a != "style" ==> g.attrs[a] == f.attrs[a])
  {
    UnwrapSingle(e);
  }

  /** Flattening the paragraphs of a split gives the paragraph's body back. */
  function Unsplit(out: seq<Node>): seq<Node>
  {
    if out == [] then []
    else (if out[0].Elem? && out[0].tag == "p" then out[0].body else [out[0]]) + Unsplit(out[1..])
  }

  lemma {:induction false} UnsplitAppend(a: seq<Node>, b: seq<Node>)
    ensures Unsplit(a + b) == Unsplit(a) + Unsplit(b)
  {
    if a != [] {
      assert (a + b)[0] == a[0] && (a + b)[1..] == a[1..] + b;
      UnsplitAppend(a[1..], b);
      var h := if a[0].Elem? && a[0].tag == "p" then a[0].body else [a[0]];
      assert Unsplit(a + b) == h + (Unsplit(a[1..]) + Unsplit(b));
      assert Unsplit(a) == h + Unsplit(a[1..]);
      assert h + (Unsplit(a[1..]) + Unsplit(b)) == (h + Unsplit(a[1..])) + Unsplit(b);
    } else {
      assert a + b == b;
    }
  }

  /** The split keeps the paragraph's content in order. */
  lemma SplitKeepsContent(pattrs: WAttrs, b: seq<Node>, k: nat)
    requires k < |b| && IsBlockFigure(b[k]) == Ok(true)
    ensures Unsplit(SplitParagraph(pattrs, b, k)) == b
  {
    var before := b[..k];
    var after := b[k + 1..];
    var p1 := FirstHalf(pattrs, before);
    var p2 := SecondHalf(pattrs, before != [], after);
    UnsplitAppend(p1 + [b[k]], p2);
    UnsplitAppend(p1, [b[k]]);
    UnsplitHalves(b[k], pattrs, before, after);
    assert b == before + [b[k]] + after;
  }

  lemma UnsplitHalves(x: Node, pattrs: WAttrs, before: seq<Node>, after: seq<Node>)
    requires !(x.Elem? && x.tag == "p")
    ensures Unsplit([x]) == [x]
    ensures Unsplit(FirstHalf(pattrs, before)) == before
    ensures Unsplit(SecondHalf(pattrs, before != [], after)) == after
  {
    assert [x][1..] == [];
    UnsplitParagraph(pattrs, before);
    var cloned: WAttrs := if before != [] then WithoutKey(pattrs, "id") else pattrs;
    UnsplitParagraph(cloned, after);
  }

  lemma UnsplitParagraph(a: WAttrs, c: seq<Node>)
    ensures Unsplit([Elem("p", a, c)]) == c
  {
    assert [Elem("p", a, c)][1..] == [] && c + [] == c;
  }

  /** The figure of the split stands on its own at the top level, every
      other item is a paragraph, and only the first half keeps the `id`. */
  lemma SplitLayout(pattrs: WAttrs, b: seq<Node>, k: nat)
    requires k < |b|
    ensures var out := SplitParagraph(pattrs, b, k);
      var at := if k > 0 then 1 else 0;
      at < |out| && out[at] == b[k] &&
      forall j :: 0 <= j < |out| && j != at ==> out[j].Elem? && out[j].tag == "p"
    ensures k > 0 ==> SplitParagraph(pattrs, b, k)[0] == Elem("p", pattrs, b[..k])
    ensures k > 0 && |SplitParagraph(pattrs, b, k)| == 3 ==> "id" !in SplitParagraph(pattrs, b, k)[2].attrs
  {
  }

  /** A paragraph holding a block figure is split around the first one. */
  lemma ParagraphSplit(pattrs: WAttrs, b: seq<Node>, k: nat)
    requires pattrs != map[] || |b| != 1 || !b[0].Elem? || b[0].tag != "figure"
    requires FindBlockFigure(b, 0) == Ok(Some(k))
    ensures UnwrapFigures([Elem("p", pattrs, b)]) == Ok(SplitParagraph(pattrs, b, k))
  {
    var e := Elem("p", pattrs, b);
    NotStandalone(pattrs, b);
    assert UnwrapLeaf(e) == Ok(SplitParagraph(pattrs, b, k));
    ParagraphNotDescended();
    UnwrapSingle(e);
  }

  lemma NotStandalone(pattrs: WAttrs, b: seq<Node>)
    requires pattrs != map[] || |b| != 1 || !b[0].Elem? || b[0].tag != "figure"
    ensures StandaloneFigure(Elem("p", pattrs, b)).None?
  {
  }

  lemma ParagraphNotDescended()
    ensures !IsDescendTag("p")
  {
  }

  /** A list of one element that the pass does not descend into. */
  lemma UnwrapSingle(e: Node)
    requires !(e.Elem? && IsDescendTag(e.tag))
    ensures UnwrapFigures([e]) == UnwrapLeaf(e)
  {
    assert [e][1..] == [];
    var h := UnwrapLeaf(e);
    if h.Ok? {
      assert h.value + [] == h.value;
    }
  }
}
