/** The internal document tree of internal.py and its attribute algebra.

    A node is a string or an element `(tag, attrs, body)`.  In `attrs` the
    value under `class` is a list of class names, the value under `style` an
    OrderedDict (here: a list of key/value pairs with distinct keys, in
    insertion order), the value under `info` of an `ERR` node its
    description, and every other value a string. */
module Internal {
  import opened Seqs
  import opened Wrappers
  import opened PyStr
  import opened EzMatch

  datatype AttrVal =
    | Str(s: string)
    | Classes(cs: seq<string>)
    | Style(kvs: seq<(string, string)>)
    | Info(desc: string)

  type Attrs = map<string, AttrVal>

  /** Attribute maps of the shape the tree promises: `class` holds a list and
      `style` an OrderedDict. */
  predicate WellTyped(a: Attrs)
  {
    (CLASS in a ==> a[CLASS].Classes?) && (STYLE in a ==> a[STYLE].Style?)
  }

  const CLASS: string := "class"
  const STYLE: string := "style"

  type WAttrs = a: Attrs | WellTyped(a) witness map[]

  datatype Node =
    | Text(text: string)
    | Elem(tag: string, attrs: WAttrs, body: seq<Node>)

  // ---------------------------------------------------------------------
  // Tag categories

  const PSEUDO_BLOCK_TAGS: seq<string> := [".footnote", ".pagebreak", "title", "subtitle"]
  const INLINE_TAG: seq<string> :=
    ["span", "a", "b", "i", "s", "u", "sup", "sub", "small", "code", "cite", "wbr"]
  const H_TAGS: seq<string> := ["h1", "h2", "h3", "h4", "h5", "h6"]
  const TABLE_TAGS: seq<string> := ["caption", "colgroup", "col", "th", "tr", "td"]
  const NON_EMPTY_BLOCK_TAGS: seq<string> := H_TAGS +
    ["dl", "ol", "ul", "li", "dt", "dd", "section", "footer", "p", "aside",
     "blockquote", "figure", "figcaption", "pre", "table", "tfoot"]
  const BLOCK_TAGS: seq<string> := NON_EMPTY_BLOCK_TAGS + ["hr", "br", "div"] + TABLE_TAGS + PSEUDO_BLOCK_TAGS
  const MEDIA_TAGS: seq<string> := ["img"]
  const ALLOWED_TAGS: seq<string> := INLINE_TAG + BLOCK_TAGS + MEDIA_TAGS + ["head", "meta", "body"]
  const COLOR_TYPES: seq<string> := ["color", "background-color"]
  const FULLY_VOID_TAGS: seq<string> := ["hr", "br", "wbr"] + TABLE_TAGS + [".pagebreak", "figcaption", "caption"]

  predicate NoDuplicates<T(==)>(xs: seq<T>)
  {
    forall i, j :: 0 <= i < j < |xs| ==> xs[i] != xs[j]
  }

  /** The module-level assertion: no tag is listed twice in `ALLOWED_TAGS`. */
  lemma AllowedTagsDistinct()
    ensures |ALLOWED_TAGS| == 51
    ensures NoDuplicates(ALLOWED_TAGS)
  {
    AllowedTagPositions0(); AllowedTagPositions3(); AllowedTagPositions6(); AllowedTagPositions9(); AllowedTagPositions12(); AllowedTagPositions15(); AllowedTagPositions18(); AllowedTagPositions21(); AllowedTagPositions24(); AllowedTagPositions27(); AllowedTagPositions30(); AllowedTagPositions33(); AllowedTagPositions36(); AllowedTagPositions39(); AllowedTagPositions42(); AllowedTagPositions45(); AllowedTagPositions48();
  }

  /** The first position of a tag in `ALLOWED_TAGS`, or -1. */
  function AllowedTagPosition(s: string): int
  {
    if s == "span" then 0 else
    if s == "a" then 1 else
    if s == "b" then 2 else
    if s == "i" then 3 else
    if s == "s" then 4 else
    if s == "u" then 5 else
    if s == "sup" then 6 else
    if s == "sub" then 7 else
    if s == "small" then 8 else
    if s == "code" then 9 else
    if s == "cite" then 10 else
    if s == "wbr" then 11 else
    if s == "h1" then 12 else
    if s == "h2" then 13 else
    if s == "h3" then 14 else
    if s == "h4" then 15 else
    if s == "h5" then 16 else
    if s == "h6" then 17 else
    if s == "dl" then 18 else
    if s == "ol" then 19 else
    if s == "ul" then 20 else
    if s == "li" then 21 else
    if s == "dt" then 22 else
    if s == "dd" then 23 else
    if s == "section" then 24 else
    if s == "footer" then 25 else
    if s == "p" then 26 else
    if s == "aside" then 27 else
    if s == "blockquote" then 28 else
    if s == "figure" then 29 else
    if s == "figcaption" then 30 else
    if s == "pre" then 31 else
    if s == "table" then 32 else
    if s == "tfoot" then 33 else
    if s == "hr" then 34 else
    if s == "br" then 35 else
    if s == "div" then 36 else
    if s == "caption" then 37 else
    if s == "colgroup" then 38 else
    if s == "col" then 39 else
    if s == "th" then 40 else
    if s == "tr" then 41 else
    if s == "td" then 42 else
    if s == ".footnote" then 43 else
    if s == ".pagebreak" then 44 else
    if s == "title" then 45 else
    if s == "subtitle" then 46 else
    if s == "img" then 47 else
    if s == "head" then 48 else
    if s == "meta" then 49 else
    if s == "body" then 50 else -1
  }

  lemma AllowedTagPositions0()
    ensures forall i :: 0 <= i < 3 ==> AllowedTagPosition(ALLOWED_TAGS[i]) == i
  {
    forall i | 0 <= i < 3 ensures AllowedTagPosition(ALLOWED_TAGS[i]) == i {
      assert i == 0 || i == 1 || i == 2;
    }
  }

  lemma AllowedTagPositions3()
    ensures forall i :: 3 <= i < 6 ==> AllowedTagPosition(ALLOWED_TAGS[i]) == i
  {
    forall i | 3 <= i < 6 ensures AllowedTagPosition(ALLOWED_TAGS[i]) == i {
      assert i == 3 || i == 4 || i == 5;
    }
  }

  lemma AllowedTagPositions6()
    ensures forall i :: 6 <= i < 9 ==> AllowedTagPosition(ALLOWED_TAGS[i]) == i
  {
    forall i | 6 <= i < 9 ensures AllowedTagPosition(ALLOWED_TAGS[i]) == i {
      assert i == 6 || i == 7 || i == 8;
    }
  }

  lemma AllowedTagPositions9()
    ensures forall i :: 9 <= i < 12 ==> AllowedTagPosition(ALLOWED_TAGS[i]) == i
  {
    forall i | 9 <= i < 12 ensures AllowedTagPosition(ALLOWED_TAGS[i]) == i {
      assert i == 9 || i == 10 || i == 11;
    }
  }

  lemma AllowedTagPositions12()
    ensures forall i :: 12 <= i < 15 ==> AllowedTagPosition(ALLOWED_TAGS[i]) == i
  {
    forall i | 12 <= i < 15 ensures AllowedTagPosition(ALLOWED_TAGS[i]) == i {
      assert i == 12 || i == 13 || i == 14;
    }
  }

  lemma AllowedTagPositions15()
    ensures forall i :: 15 <= i < 18 ==> AllowedTagPosition(ALLOWED_TAGS[i]) == i
  {
    forall i | 15 <= i < 18 ensures AllowedTagPosition(ALLOWED_TAGS[i]) == i {
      assert i == 15 || i == 16 || i == 17;
    }
  }

  lemma AllowedTagPositions18()
    ensures forall i :: 18 <= i < 21 ==> AllowedTagPosition(ALLOWED_TAGS[i]) == i
  {
    forall i | 18 <= i < 21 ensures AllowedTagPosition(ALLOWED_TAGS[i]) == i {
      assert i == 18 || i == 19 || i == 20;
    }
  }

  lemma AllowedTagPositions21()
    ensures forall i :: 21 <= i < 24 ==> AllowedTagPosition(ALLOWED_TAGS[i]) == i
  {
    forall i | 21 <= i < 24 ensures AllowedTagPosition(ALLOWED_TAGS[i]) == i {
      assert i == 21 || i == 22 || i == 23;
    }
  }

  lemma AllowedTagPositions24()
    ensures forall i :: 24 <= i < 27 ==> AllowedTagPosition(ALLOWED_TAGS[i]) == i
  {
    forall i | 24 <= i < 27 ensures AllowedTagPosition(ALLOWED_TAGS[i]) == i {
      assert i == 24 || i == 25 || i == 26;
    }
  }

  lemma AllowedTagPositions27()
    ensures forall i :: 27 <= i < 30 ==> AllowedTagPosition(ALLOWED_TAGS[i]) == i
  {
    forall i | 27 <= i < 30 ensures AllowedTagPosition(ALLOWED_TAGS[i]) == i {
      assert i == 27 || i == 28 || i == 29;
    }
  }

  lemma AllowedTagPositions30()
    ensures forall i :: 30 <= i < 33 ==> AllowedTagPosition(ALLOWED_TAGS[i]) == i
  {
    forall i | 30 <= i < 33 ensures AllowedTagPosition(ALLOWED_TAGS[i]) == i {
      assert i == 30 || i == 31 || i == 32;
    }
  }

  lemma AllowedTagPositions33()
    ensures forall i :: 33 <= i < 36 ==> AllowedTagPosition(ALLOWED_TAGS[i]) == i
  {
    forall i | 33 <= i < 36 ensures AllowedTagPosition(ALLOWED_TAGS[i]) == i {
      assert i == 33 || i == 34 || i == 35;
    }
  }

  lemma AllowedTagPositions36()
    ensures forall i :: 36 <= i < 39 ==> AllowedTagPosition(ALLOWED_TAGS[i]) == i
  {
    forall i | 36 <= i < 39 ensures AllowedTagPosition(ALLOWED_TAGS[i]) == i {
      assert i == 36 || i == 37 || i == 38;
    }
  }

  lemma AllowedTagPositions39()
    ensures forall i :: 39 <= i < 42 ==> AllowedTagPosition(ALLOWED_TAGS[i]) == i
  {
    forall i | 39 <= i < 42 ensures AllowedTagPosition(ALLOWED_TAGS[i]) == i {
      assert i == 39 || i == 40 || i == 41;
    }
  }

  lemma AllowedTagPositions42()
    ensures forall i :: 42 <= i < 45 ==> AllowedTagPosition(ALLOWED_TAGS[i]) == i
  {
    forall i | 42 <= i < 45 ensures AllowedTagPosition(ALLOWED_TAGS[i]) == i {
      assert i == 42 || i == 43 || i == 44;
    }
  }

  lemma AllowedTagPositions45()
    ensures forall i :: 45 <= i < 48 ==> AllowedTagPosition(ALLOWED_TAGS[i]) == i
  {
    forall i | 45 <= i < 48 ensures AllowedTagPosition(ALLOWED_TAGS[i]) == i {
      assert i == 45 || i == 46 || i == 47;
    }
  }

  lemma AllowedTagPositions48()
    ensures forall i :: 48 <= i < 51 ==> AllowedTagPosition(ALLOWED_TAGS[i]) == i
  {
    forall i | 48 <= i < 51 ensures AllowedTagPosition(ALLOWED_TAGS[i]) == i {
      assert i == 48 || i == 49 || i == 50;
    }
  }

  /** Fonts taken to be monospaced.  `'fixed' 'GNU Unifont'` lacks a comma in
      the source, so the two names are one entry. */
  const CODE_FONTS: seq<string> := FONTS_BEFORE + ["fixedGNU Unifont"] + FONTS_AFTER

  const FONTS_BEFORE: seq<string> :=
    ["Anonymous Pro", "Consolas", "Courier", "Courier New", "Envy Code R", "Fixed"]
  const FONTS_AFTER: seq<string> :=
    ["Inconsolata", "Inconsolata-g", "Lucida Console"] +
    ["M+ 1m", "Menlo", "Monaco", "Monofur", "OCR-A", "OCR-B"] +
    ["Pragmata Pro", "Source Code Pro", "Terminal", "Terminus"]

  /** `is_code_font(name)`, read as a truth value (an empty name is falsy). */
  predicate IsCodeFont(name: string)
  {
    name != "" && (EndsWith(Lower(name), " mono") || name in CODE_FONTS)
  }

  /** The missing comma: neither `fixed` nor `GNU Unifont` is recognised, but
      their concatenation is. */
  lemma CodeFontMissingComma()
    ensures !IsCodeFont("GNU Unifont") && !IsCodeFont("fixed")
    ensures IsCodeFont("fixedGNU Unifont")
  {
    JoinedEntryIsCodeFont();
    NotCodeFont("GNU Unifont");
    NotCodeFont("fixed");
  }

  /** The list as evidently intended, with `'fixed'` and `'GNU Unifont'`
      as two entries. */
  const CODE_FONTS_INTENDED: seq<string> :=
    FONTS_BEFORE + ["fixed", "GNU Unifont"] + FONTS_AFTER

  /** `is_code_font` over the intended list. */
  predicate IsCodeFontIntended(name: string)
  {
    name != "" && (EndsWith(Lower(name), " mono") || name in CODE_FONTS_INTENDED)
  }

  /** The corrected test recognises both names and no longer the joined
      one, and agrees with the written test on every other name. */
  lemma CodeFontIntended(name: string)
    ensures IsCodeFontIntended("fixed") && IsCodeFontIntended("GNU Unifont")
    ensures !IsCodeFontIntended("fixedGNU Unifont")
    ensures name !in {"fixed", "GNU Unifont", "fixedGNU Unifont"} ==>
      (IsCodeFontIntended(name) <==> IsCodeFont(name))
  {
    assert CODE_FONTS_INTENDED[6] == "fixed" && CODE_FONTS_INTENDED[7] == "GNU Unifont";
    JoinedNotIntended();
    if name !in {"fixed", "GNU Unifont", "fixedGNU Unifont"} {
      IntendedMembers(name);
    }
  }

  lemma JoinedNotIntended()
    ensures !IsCodeFontIntended("fixedGNU Unifont")
  {
    var joined := "fixedGNU Unifont";
    JoinedNotListed(joined);
    NotMono(joined);
  }

  lemma JoinedNotListed(joined: string)
    requires joined == "fixedGNU Unifont"
    ensures joined !in CODE_FONTS_INTENDED
  {
    assert joined !in FONTS_BEFORE;
    assert joined !in ["Inconsolata", "Inconsolata-g", "Lucida Console"];
    assert joined !in ["M+ 1m", "Menlo", "Monaco", "Monofur", "OCR-A", "OCR-B"];
    assert joined !in ["Pragmata Pro", "Source Code Pro", "Terminal", "Terminus"];
    assert joined !in FONTS_AFTER;
  }

  lemma IntendedMembers(name: string)
    requires name !in {"fixed", "GNU Unifont", "fixedGNU Unifont"}
    ensures name in CODE_FONTS_INTENDED <==> name in CODE_FONTS
  {
  }

  lemma JoinedEntryIsCodeFont()
    ensures IsCodeFont("fixedGNU Unifont")
  {
    assert CODE_FONTS[6] == "fixedGNU Unifont";
  }

  lemma NotCodeFont(name: string)
    requires name == "GNU Unifont" || name == "fixed"
    ensures !IsCodeFont(name)
  {
    NotMono(name);
    NotAFont(name);
  }

  lemma NotAFont(name: string)
    requires name == "GNU Unifont" || name == "fixed"
    ensures name !in CODE_FONTS
  {
    assert name !in ["Anonymous Pro", "Consolas", "Courier", "Courier New", "Envy Code R"];
    assert name !in ["Fixed", "fixedGNU Unifont", "Inconsolata", "Inconsolata-g", "Lucida Console"];
    assert name !in ["M+ 1m", "Menlo", "Monaco", "Monofur", "OCR-A", "OCR-B"];
    assert name !in ["Pragmata Pro", "Source Code Pro", "Terminal", "Terminus"];
  }

  lemma NotMono(name: string)
    requires |name| >= 5 && name[|name| - 5] != ' '
    ensures !EndsWith(Lower(name), " mono")
  {
    var g := Lower(name);
    assert g[|g| - 5] == LowerChar(name[|name| - 5]);
  }

  // ---------------------------------------------------------------------
  // Trees as Python values, and the checking constructor `mkel`

  function StyleToVal(kvs: seq<(string, string)>): seq<(string, Val)>
  {
    seq(|kvs|, i requires 0 <= i < |kvs| => (kvs[i].0, VStr(kvs[i].1)))
  }

  function AttrValToVal(v: AttrVal): Val
  {
    match v
    case Str(s) => VStr(s)
    case Classes(cs) => VList(seq(|cs|, i requires 0 <= i < |cs| => VStr(cs[i])))
    case Style(kvs) => VODict(StyleToVal(kvs))
    case Info(d) => VList([VStr(d), VTuple([]), VDict(map[])])
  }

  function AttrsToVal(a: Attrs): Val
  {
    VDict(map k | k in a :: AttrValToVal(a[k]))
  }

  function ToVal(n: Node): Val
  {
    match n
    case Text(s) => VStr(s)
    case Elem(t, a, b) => VTuple([VStr(t), AttrsToVal(a), BodyToVal(n, b)])
  }

  function BodyToVal(parent: Node, b: seq<Node>): Val
    requires forall i :: 0 <= i < |b| ==> b[i] < parent
    decreases parent, 0
  {
    VList(seq(|b|, i requires 0 <= i < |b| => ToVal(b[i])))
  }

  /** `mkel(head, attrs, body)`: the tag must be a string, a `style` entry an
      OrderedDict, and the body a list whose first item is not a list.  A
      non-dict `attrs` fails on `attrs['style']` with a TypeError. */
  function MkEl(head: Val, attrs: Val, body: Val): (r: Result<Val>)
    ensures r.Ok? ==> r.value == VTuple([head, attrs, body])
    ensures r.Ok? <==>
      head.VStr? &&
      ((attrs.VDict? && ("style" in attrs.m ==> attrs.m["style"].VODict?)) ||
       (attrs.VODict? && ("style" in ODictToMap(attrs.entries) ==> ODictToMap(attrs.entries)["style"].VODict?))) &&
      body.VList? && (body.items == [] || !body.items[0].VList?)
  {
    if !head.VStr? then Err("AssertionError")
    else if !attrs.VDict? && !attrs.VODict? then Err("TypeError")
    else
      var m := if attrs.VDict? then attrs.m else ODictToMap(attrs.entries);
      if "style" in m && !m["style"].VODict? then Err("AssertionError")
      else if !body.VList? || (body.items != [] && body.items[0].VList?) then Err("AssertionError")
      else Ok(VTuple([head, attrs, body]))
  }

  /** Every well-typed element is accepted by `mkel`. */
  lemma MkElAcceptsTree(t: string, a: Attrs, b: seq<Node>)
    requires WellTyped(a)
    ensures MkEl(VStr(t), AttrsToVal(a), BodyToVal(Elem(t, a, b), b)) == Ok(ToVal(Elem(t, a, b)))
  {
    var bv := BodyToVal(Elem(t, a, b), b);
    if b != [] {
      assert bv.items[0] == ToVal(b[0]);
    }
  }

  /** `{k: v}` with a plain string value, for a key other than `class`
      and `style`. */
  function StrAttrs(k: string, v: string): (a: WAttrs)
    requires k != CLASS && k != STYLE
    ensures k in a && a[k] == Str(v) && |a| == 1
  {
    map[k := Str(v)]
  }

  /** `mkcmd(name, body)`: a `CMD` element whose single class is the command
      name; a missing body is the empty list. */
  function MkCmd(name: string, body: Option<seq<Node>>): (r: Node)
    ensures IsCmd(r, name) && r.Elem? && r.body == (if body.Some? then body.value else [])
  {
    Elem("CMD", map["class" := Classes([name])], if body.Some? then body.value else [])
  }

  /** `mklit(name)`. */
  function MkLit(name: string): (r: Node)
    ensures IsLit(r, name) && r.Elem? && r.body == []
  {
    Elem("LIT", map["class" := Classes([name])], [])
  }

  /** `'%s' % v` of an attribute value: a string is itself; a class list, a
      style OrderedDict and an error's info print as Python 2 prints them,
      each string as `u'...'`. */
  function AttrText(v: AttrVal): string
  {
    match v
    case Str(s) => s
    case Classes(cs) => "[" + Join(", ", seq(|cs|, i requires 0 <= i < |cs| => UnicodeRepr(cs[i]))) + "]"
    case Style(kvs) =>
      "OrderedDict([" + Join(", ", seq(|kvs|, i requires 0 <= i < |kvs| =>
        "(" + UnicodeRepr(kvs[i].0) + ", " + UnicodeRepr(kvs[i].1) + ")")) + "])"
    case Info(d) => "[" + UnicodeRepr(d) + ", (), {}]"
  }

  /** Python 2's `repr` of a unicode string: `u` and the text in single
      quotes, or in double quotes when it holds a single quote and no
      double one.  Backslash, the quote used, tab, newline and carriage
      return are escaped with a backslash, and every other character below
      a space or from DEL up as `\xhh`, `\uhhhh` or `\Uhhhhhhhh`. */
  function UnicodeRepr(s: string): string
  {
    var q := ReprQuote(s);
    "u" + [q] + ReprChars(s, q) + [q]
  }

  function ReprQuote(s: string): char
  {
    if '\'' in s && '"' !in s then '"' else '\''
  }

  function ReprChars(s: string, q: char): string
  {
    if s == [] then "" else ReprChar(s[0], q) + ReprChars(s[1..], q)
  }

  /** A character `repr` writes as itself. */
  predicate ReprPlain(c: char, q: char)
  {
    ' ' <= c < '\U{7f}' && c != '\\' && c != q
  }

  function ReprChar(c: char, q: char): string
  {
    if c == q || c == '\\' then ['\\', c]
    else if c == '\t' then "\\t"
    else if c == '\n' then "\\n"
    else if c == '\r' then "\\r"
    else if ReprPlain(c, q) then [c]
    else if c as int < 0x100 then "\\x" + LowerHex(c as int, 2)
    else if c as int < 0x1_0000 then "\\u" + LowerHex(c as int, 4)
    else "\\U" + LowerHex(c as int, 8)
  }

  /** The last `w` lower-case hexadecimal digits of `n`. */
  function LowerHex(n: nat, w: nat): (r: string)
    ensures |r| == w
  {
    if w == 0 then "" else LowerHex(n / 16, w - 1) + ["0123456789abcdef"[n % 16]]
  }

  /** A text of characters `repr` writes as themselves is quoted as it is. */
  lemma {:induction false} ReprCharsPlain(s: string, q: char)
    requires forall i :: 0 <= i < |s| ==> ReprPlain(s[i], q)
    ensures ReprChars(s, q) == s
    decreases |s|
  {
    if s != [] {
      assert ReprPlain(s[0], q);
      ReprCharsPlain(s[1..], q);
    }
  }

  /** Printable ASCII text is written between single quotes when it has no
      single quote, and between double quotes when it has a single quote
      and no double one. */
  lemma ReprQuoted(s: string)
    requires forall i :: 0 <= i < |s| ==> ' ' <= s[i] < '\U{7f}' && s[i] != '\\'
    ensures '\'' !in s ==> UnicodeRepr(s) == "u'" + s + "'"
    ensures '\'' in s && '"' !in s ==> UnicodeRepr(s) == "u\"" + s + "\""
  {
    if '\'' !in s || '"' !in s {
      ReprCharsPlain(s, ReprQuote(s));
    }
  }

  /** `mkerr(body, description)`; the extra format arguments are not kept.
      The error element keeps the offending content as its body; the
      contract lets callers see that without unfolding the element. */
  function MkErr(body: seq<Node>, description: string): (r: Node)
    ensures r.Elem? && r.tag == "ERR" && r.body == body && r.attrs == map["info" := Info(description)]
  {
    Elem("ERR", map["info" := Info(description)], body)
  }

  /** The element `mkerr` builds is the tuple `('ERR', {'info': [description,
      (), {}]}, body)`, and it is accepted by `mkel`. */
  lemma MkErrIsMkEl(body: seq<Node>, description: string)
    ensures MkEl(VStr("ERR"), VDict(map["info" := VList([VStr(description), VTuple([]), VDict(map[])])]),
                 BodyToVal(MkErr(body, description), body)) == Ok(ToVal(MkErr(body, description)))
  {
    var a := map["info" := Info(description)];
    MkElAcceptsTree("ERR", a, body);
    assert AttrsToVal(a) == VDict(map["info" := VList([VStr(description), VTuple([]), VDict(map[])])]);
  }

  predicate IsCmd(n: Node, name: string)
  {
    n.Elem? && n.tag == "CMD" && n.attrs == map["class" := Classes([name])]
  }

  predicate IsLit(n: Node, name: string)
  {
    n.Elem? && n.tag == "LIT" && n.attrs == map["class" := Classes([name])]
  }

  /** The commands built by `mkcmd`/`mklit` are accepted by `mkel`, and a
      command's name is recovered from its class. */
  lemma MkCmdWellFormed(name: string, body: Option<seq<Node>>)
    ensures var n := MkCmd(name, body);
      MkEl(VStr("CMD"), AttrsToVal(n.attrs), BodyToVal(n, n.body)) == Ok(ToVal(n)) &&
      n.attrs["class"].cs[0] == name
    ensures MkEl(VStr("LIT"), AttrsToVal(MkLit(name).attrs), VList([])) == Ok(ToVal(MkLit(name)))
  {
    var n := MkCmd(name, body);
    MkElAcceptsTree("CMD", n.attrs, n.body);
    var l := MkLit(name);
    MkElAcceptsTree("LIT", l.attrs, []);
    assert BodyToVal(l, []) == VList([]);
  }

  // ---------------------------------------------------------------------
  // Classes

  function ClassesOf(a: Attrs): seq<string>
  {
    if "class" in a && a["class"].Classes? then a["class"].cs else []
  }

  /** `add_class(attrs, *cs)`: the existing class list must already be
      `sorted(set(...))`; the result holds the sorted union; `attrs` itself is
      a value and is not changed. */
  function AddClass(attrs: Attrs, cs: seq<string>): (r: Result<Attrs>)
    ensures r.Ok? <==> ("class" in attrs ==> attrs["class"].Classes? && StrictlySorted(attrs["class"].cs))
    ensures r.Ok? ==>
      r.value.Keys == attrs.Keys + {"class"} &&
      (forall k :: k in attrs && k != "class" ==> r.value[k] == attrs[k]) &&
      r.value["class"].Classes? &&
      StrictlySorted(r.value["class"].cs) &&
      Elems(r.value["class"].cs) == Elems(cs) + Elems(ClassesOf(attrs))
  {
    SortedSetFixesSorted(ClassesOf(attrs));
    ElemsAppend(cs, ClassesOf(attrs));
    if "class" in attrs && !(attrs["class"].Classes? && attrs["class"].cs == SortedSet(attrs["class"].cs)) then
      Err("AssertionError")
    else
      var all := if "class" in attrs then cs + attrs["class"].cs else cs;
      Ok(attrs["class" := Classes(SortedSet(all))])
  }

  lemma ElemsAppend(xs: seq<string>, ys: seq<string>)
    ensures Elems(xs + ys) == Elems(xs) + Elems(ys)
  {
    var l := xs + ys;
    forall y | y in Elems(xs) + Elems(ys) ensures y in Elems(l) {
      if y in Elems(xs) {
        var i :| 0 <= i < |xs| && xs[i] == y;
        assert l[i] == y;
      } else {
        var i :| 0 <= i < |ys| && ys[i] == y;
        assert l[|xs| + i] == y;
      }
    }
  }

  // ---------------------------------------------------------------------
  // Style maps (OrderedDicts)

  function StyleKeys(kvs: seq<(string, string)>): seq<string>
  {
    seq(|kvs|, i requires 0 <= i < |kvs| => kvs[i].0)
  }

  function StyleGet(kvs: seq<(string, string)>, k: string): Option<string>
  {
    if kvs == [] then None else if kvs[0].0 == k then Some(kvs[0].1) else StyleGet(kvs[1..], k)
  }

  /** `style[k] = v`: an existing key keeps its place, a new one goes last. */
  function StyleSet(kvs: seq<(string, string)>, k: string, v: string): (r: seq<(string, string)>)
    ensures StyleGet(r, k) == Some(v)
    ensures forall k' :: k' != k ==> StyleGet(r, k') == StyleGet(kvs, k')
    ensures StyleKeys(r) == if k in StyleKeys(kvs) then StyleKeys(kvs) else StyleKeys(kvs) + [k]
  {
    if kvs == [] then [(k, v)]
    else if kvs[0].0 == k then
      StyleKeysCons(kvs[0], kvs[1..]);
      StyleKeysCons((k, v), kvs[1..]);
      ConsTail(kvs);
      [(k, v)] + kvs[1..]
    else
      var rest := StyleSet(kvs[1..], k, v);
      StyleKeysCons(kvs[0], kvs[1..]);
      StyleKeysCons(kvs[0], rest);
      ConsTail(kvs);
      [kvs[0]] + rest
  }

  lemma StyleKeysCons(p: (string, string), rest: seq<(string, string)>)
    ensures StyleKeys([p] + rest) == [p.0] + StyleKeys(rest)
    ensures StyleGet([p] + rest, p.0) == Some(p.1)
    ensures forall k :: k != p.0 ==> StyleGet([p] + rest, k) == StyleGet(rest, k)
  {
    assert ([p] + rest)[1..] == rest;
  }

  /** `for k in bw: aw[k] = bw[k]`. */
  function StyleUpdate(aw: seq<(string, string)>, bw: seq<(string, string)>): seq<(string, string)>
    decreases |bw|
  {
    if bw == [] then aw else StyleUpdate(StyleSet(aw, bw[0].0, bw[0].1), bw[1..])
  }

  /** The pairs `zip(kvs, kvs[1:])`: consecutive arguments, overlapping. */
  function StylePairs(kvs: seq<string>): seq<(string, string)>
  {
    if |kvs| < 2 then [] else seq(|kvs| - 1, i requires 0 <= i < |kvs| - 1 => (kvs[i], kvs[i + 1]))
  }

  function StyleOf(a: Attrs): seq<(string, string)>
  {
    if "style" in a && a["style"].Style? then a["style"].kvs else []
  }

  /** `add_style(attrs, *kvs)` on values: `attrs` with `style` created if
      absent and every pair of `zip(kvs, kvs[1:])` set in order; a `style`
      that is not an OrderedDict fails the assertion. */
  function AddStyle(attrs: Attrs, kvs: seq<string>): (r: Result<Attrs>)
    ensures r.Ok? <==> ("style" in attrs ==> attrs["style"].Style?)
    ensures r.Ok? ==> r.value.Keys == attrs.Keys + {"style"}
    ensures r.Ok? ==> forall k :: k in attrs && k != "style" ==> r.value[k] == attrs[k]
    ensures r.Ok? ==> r.value["style"] == Style(StyleUpdate(StyleOf(attrs), StylePairs(kvs)))
  {
    if "style" in attrs && !attrs["style"].Style? then Err("AssertionError")
    else Ok(attrs["style" := Style(StyleUpdate(StyleOf(attrs), StylePairs(kvs)))])
  }

  /** For one key and value, only that style entry changes. */
  lemma AddStyleOnePair(attrs: Attrs, k: string, v: string)
    requires "style" in attrs ==> attrs["style"].Style?
    ensures AddStyle(attrs, [k, v]).Ok?
    ensures var s := AddStyle(attrs, [k, v]).value["style"].kvs;
      StyleGet(s, k) == Some(v) &&
      forall k' :: k' != k ==> StyleGet(s, k') == StyleGet(StyleOf(attrs), k')
  {
    assert StylePairs([k, v]) == [(k, v)];
    assert StyleUpdate(StyleOf(attrs), [(k, v)]) == StyleSet(StyleOf(attrs), k, v);
  }

  /** The overlap of `zip(kvs, kvs[1:])`: four arguments set three entries,
      the middle one mapping the first value to the second key. */
  lemma AddStylePairsOverlap(k1: string, v1: string, k2: string, v2: string)
    requires k1 != v1 && v1 != k2 && k1 != k2
    ensures StyleOf(AddStyle(map[], [k1, v1, k2, v2]).value) == [(k1, v1), (v1, k2), (k2, v2)]
  {
    var ps := [(k1, v1), (v1, k2), (k2, v2)];
    assert StylePairs([k1, v1, k2, v2]) == ps;
    var s1 := [(k1, v1)];
    var s2 := [(k1, v1), (v1, k2)];
    var s3 := [(k1, v1), (v1, k2), (k2, v2)];
    assert StyleSet([], k1, v1) == s1;
    assert StyleSet(s1, v1, k2) == s2 by {
      assert StyleSet(s1[1..], v1, k2) == [(v1, k2)];
    }
    assert StyleSet(s2, k2, v2) == s3 by {
      assert s2[1..] == [(v1, k2)];
      assert StyleSet(s2[1..], k2, v2) == [(v1, k2), (k2, v2)] by {
        assert StyleSet(s2[1..][1..], k2, v2) == [(k2, v2)];
      }
    }
    StyleUpdateCons(s2, (k2, v2), []);
    StyleUpdateCons(s1, (v1, k2), [(k2, v2)]);
    StyleUpdateCons([], (k1, v1), [(v1, k2), (k2, v2)]);
  }

  lemma StyleUpdateCons(aw: seq<(string, string)>, p: (string, string), rest: seq<(string, string)>)
    ensures StyleUpdate(aw, [p] + rest) == StyleUpdate(StyleSet(aw, p.0, p.1), rest)
  {
    assert ([p] + rest)[1..] == rest;
  }

  // ---------------------------------------------------------------------
  // The mutable attribute dict behind `iadd_style`/`add_style`

  /** The OrderedDict object stored under `style`. */
  class StyleDict {
    var entries: seq<(string, string)>

    constructor (entries: seq<(string, string)>)
      ensures this.entries == entries
    {
      this.entries := entries;
    }

    /** `style[k] = v`. */
    method Set(k: string, v: string)
      modifies this
      ensures entries == StyleSet(old(entries), k, v)
    {
      entries := StyleSet(entries, k, v);
    }
  }

  /** An attrs dict object.  `style` is the OrderedDict object under the
      `style` key, when there is one; `others` holds every other entry
      (including a `style` entry that is not an OrderedDict). */
  class AttrDict {
    var others: Attrs
    var style: StyleDict?

    ghost predicate Valid()
      reads this
    {
      style != null ==> "style" !in others
    }

    /** The dict's current value. */
    function Value(): Attrs
      reads this, style
    {
      if style == null then others else others["style" := Style(style.entries)]
    }

    constructor (others: Attrs, style: StyleDict?)
      requires style != null ==> "style" !in others
      ensures this.others == others && this.style == style && Valid()
    {
      this.others := others;
      this.style := style;
    }

    /** `iadd_style(attrs, *kvs)`: `setdefault` a fresh OrderedDict, assert it
      is one, then set each pair of `zip(kvs, kvs[1:])`.  An existing
      OrderedDict is updated in place. */
    method IAddStyle(kvs: seq<string>) returns (ok: bool)
      requires Valid()
      modifies this, style
      ensures Valid()
      ensures ok <==> old(style) != null || "style" !in old(others)
      ensures ok ==> AddStyle(old(Value()), kvs) == Ok(Value())
      ensures ok && old(style) != null ==> style == old(style)
      ensures ok && old(style) == null ==> fresh(style)
      ensures !ok ==> others == old(others) && style == old(style)
      ensures others == old(others)
    {
      ghost var v0 := Value();
      if style == null {
        if "style" in others {
          return false;
        }
        style := new StyleDict([]);
      }
      ghost var start := style.entries;
      var pairs := StylePairs(kvs);
      var i := 0;
      while i < |pairs|
        invariant 0 <= i <= |pairs|
        invariant StyleUpdate(start, pairs) == StyleUpdate(style.entries, pairs[i..])
        modifies style
      {
        style.Set(pairs[i].0, pairs[i].1);
        assert pairs[i..][1..] == pairs[i + 1..];
        i := i + 1;
      }
      assert pairs[i..] == [];
      assert StyleOf(v0) == start;
      assert Value() == v0["style" := Style(StyleUpdate(start, pairs))];
      ok := true;
    }

    /** `add_style(attrs, *kvs)`: a shallow copy of the dict, updated by
      `iadd_style`.  The copy shares an existing style OrderedDict, so the
      original dict's style changes with it. */
    method AddStyleShared(kvs: seq<string>) returns (r: AttrDict, ok: bool)
      requires Valid()
      modifies style
      ensures fresh(r) && r.Valid()
      ensures ok <==> style != null || "style" !in others
      ensures ok ==> AddStyle(old(Value()), kvs) == Ok(r.Value())
      ensures ok && style != null ==> r.style == style && Value() == r.Value()
      ensures r.others == others
    {
      r := new AttrDict(others, style);
      ok := r.IAddStyle(kvs);
    }
  }

  // ---------------------------------------------------------------------
  // merge_attrs

  /** `[v for v in bw if v not in aw]`. */
  function NotIn(bw: seq<string>, aw: seq<string>): (r: seq<string>)
    ensures forall v :: v in r <==> v in bw && v !in aw
  {
    if bw == [] then [] else (if bw[0] in aw then [] else [bw[0]]) + NotIn(bw[1..], aw)
  }

  /** The entry `_merge_attrs(a, b)` leaves under key `k`. */
  function MergeEntry(a: Attrs, b: Attrs, k: string): Option<AttrVal>
    requires k in a || k in b
  {
    if k == "class" then
      var aw := ClassesOf(a);
      var bw := ClassesOf(b);
      if aw != [] || bw != [] then Some(Classes(aw + NotIn(bw, aw)))
      else if k in a then Some(a[k]) else None
    else if k == "style" then
      var aw := StyleOf(a);
      var bw := StyleOf(b);
      if aw != [] || bw != [] then Some(Style(StyleUpdate(aw, bw)))
      else if k in a then Some(a[k]) else None
    else if k in b then Some(b[k])
    else Some(a[k])
  }

  /** `_merge_attrs(a, b)`. */
  function MergeAttrs2(a: Attrs, b: Attrs): (r: Attrs)
    requires WellTyped(a) && WellTyped(b)
    ensures WellTyped(r)
  {
    map k | k in a.Keys + b.Keys && MergeEntry(a, b, k).Some? :: MergeEntry(a, b, k).value
  }

  /** `merge_attrs(a, *bs)`: a left fold of `_merge_attrs`. */
  function MergeAttrs(a: Attrs, bs: seq<Attrs>): (r: Attrs)
    requires WellTyped(a) && forall i :: 0 <= i < |bs| ==> WellTyped(bs[i])
    ensures WellTyped(r)
    decreases |bs|
  {
    if bs == [] then a else MergeAttrs(MergeAttrs2(a, bs[0]), bs[1..])
  }

  /** Classes: `a`'s list followed by `b`'s classes not already in `a`. */
  lemma MergeClasses(a: Attrs, b: Attrs)
    requires WellTyped(a) && WellTyped(b)
    ensures ClassesOf(MergeAttrs2(a, b)) == ClassesOf(a) + NotIn(ClassesOf(b), ClassesOf(a))
  {
    var r := MergeAttrs2(a, b);
    if "class" in a || "class" in b {
      assert MergeEntry(a, b, "class").Some? ==> r["class"] == MergeEntry(a, b, "class").value;
    }
  }

  /** Style: `a`'s OrderedDict updated by `b`'s, key by key. */
  lemma MergeStyle(a: Attrs, b: Attrs)
    requires WellTyped(a) && WellTyped(b)
    ensures StyleOf(MergeAttrs2(a, b)) == StyleUpdate(StyleOf(a), StyleOf(b))
  {
    var r := MergeAttrs2(a, b);
    if "style" in a || "style" in b {
      assert MergeEntry(a, b, "style").Some? ==> r["style"] == MergeEntry(a, b, "style").value;
    }
  }

  /** Any other key: `b` overrides `a`, and no key is lost. */
  lemma MergeOthers(a: Attrs, b: Attrs, k: string)
    requires WellTyped(a) && WellTyped(b)
    requires k != "class" && k != "style"
    ensures k in MergeAttrs2(a, b) <==> k in a || k in b
    ensures k in b ==> MergeAttrs2(a, b)[k] == b[k]
    ensures k in a && k !in b ==> MergeAttrs2(a, b)[k] == a[k]
  {
  }

  /** In the style update `b`'s value wins for every key... */
  lemma {:induction false} StyleUpdateGet(aw: seq<(string, string)>, bw: seq<(string, string)>, k: string)
    ensures StyleGet(StyleUpdate(aw, bw), k) ==
      if LastGet(bw, k).Some? then LastGet(bw, k) else StyleGet(aw, k)
    decreases |bw|
  {
    if bw != [] {
      StyleUpdateGet(StyleSet(aw, bw[0].0, bw[0].1), bw[1..], k);
    }
  }

  /** The value of the last entry for `k` (the one a dict keeps). */
  function LastGet(kvs: seq<(string, string)>, k: string): Option<string>
  {
    if kvs == [] then None
    else
      var r := LastGet(kvs[1..], k);
      if r.Some? then r else if kvs[0].0 == k then Some(kvs[0].1) else None
  }

  /** ...and `a`'s keys keep their order, `b`'s new keys following in order. */
  lemma {:induction false} StyleUpdateKeys(aw: seq<(string, string)>, bw: seq<(string, string)>)
    ensures StyleKeys(StyleUpdate(aw, bw)) == StyleKeys(aw) + NewKeys(StyleKeys(aw), StyleKeys(bw))
    decreases |bw|
  {
    if bw != [] {
      var k := bw[0].0;
      var aw' := StyleSet(aw, k, bw[0].1);
      StyleUpdateKeys(aw', bw[1..]);
      StyleKeysCons(bw[0], bw[1..]);
      ConsTail(bw);
      var ks := StyleKeys(bw[1..]);
      if k in StyleKeys(aw) {
        NewKeysSkip(StyleKeys(aw), k, ks);
      } else {
        NewKeysShift(StyleKeys(aw), k, ks);
        AppendAssoc(StyleKeys(aw), [k], NewKeys(StyleKeys(aw) + [k], ks));
      }
    }
  }

  /** The keys of `ks` that are not yet in `seen`, each once, in order. */
  function NewKeys(seen: seq<string>, ks: seq<string>): seq<string>
    decreases |ks|
  {
    if ks == [] then []
    else if ks[0] in seen then NewKeys(seen, ks[1..])
    else [ks[0]] + NewKeys(seen + [ks[0]], ks[1..])
  }

  lemma NewKeysSkip(seen: seq<string>, k: string, ks: seq<string>)
    requires k in seen
    ensures NewKeys(seen, [k] + ks) == NewKeys(seen, ks)
  {
    assert ([k] + ks)[1..] == ks;
  }

  lemma NewKeysShift(seen: seq<string>, k: string, ks: seq<string>)
    requires k !in seen
    ensures NewKeys(seen, [k] + ks) == [k] + NewKeys(seen + [k], ks)
  {
    assert ([k] + ks)[1..] == ks;
  }

  /** Merging with nothing gives a copy equal to `a` (for style maps with
      distinct keys). */
  lemma MergeWithEmpty(a: Attrs)
    requires WellTyped(a)
    requires StyleKeysDistinct(StyleOf(a))
    ensures MergeAttrs2(a, map[]) == a
  {
    var r := MergeAttrs2(a, map[]);
    forall k | k in a ensures k in r && r[k] == a[k] {
      if k == "class" {
        assert NotIn([], ClassesOf(a)) == [];
        assert ClassesOf(a) + [] == ClassesOf(a);
      }
    }
  }

  predicate StyleKeysDistinct(kvs: seq<(string, string)>)
  {
    forall i, j :: 0 <= i < j < |kvs| ==> kvs[i].0 != kvs[j].0
  }
}
