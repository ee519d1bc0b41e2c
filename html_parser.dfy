/** The per-element clean-up `html_parser.py` applies while it turns a parsed
    HTML tree into the internal tree: whitespace folding of text, promotion
    of marker classes to tags, the attribute allow-list, the canonical order
    of a figure's children, and the linking of footnote references to the
    footnote bodies that follow them. */
module HtmlParser {
  import opened Wrappers
  import opened PyStr
  import opened Internal
  import Preprocess
  import opened Seqs

  // ---------------------------------------------------------------------
  // space_normalize
  // ---------------------------------------------------------------------

  /** `space_normalize(s)`: falsy input gives `''`; otherwise every run of
      newline, carriage return, tab and space becomes one space.  The result
      has none of the first three and no double space, and keeps every
      visible character in order. */
  function SpaceNormalize(s: string): (r: string)
    ensures s == "" ==> r == ""
    ensures Folded(r) && Visible(r) == Visible(s)
  {
    if s == "" then "" else VisibleCollapse(s); CollapseSpace(s)
  }

  lemma SpaceNormalizeIdempotent(s: string)
    ensures SpaceNormalize(SpaceNormalize(s)) == SpaceNormalize(s)
  {
    CollapseFolded(SpaceNormalize(s));
  }

  /** No folding whitespace at all. */
  predicate Solid(s: string)
  {
    forall i :: 0 <= i < |s| ==> !IsFoldSpace(s[i])
  }

  /** A non-empty run of folding whitespace. */
  predicate FoldRun(w: string)
  {
    w != [] && forall i :: 0 <= i < |w| ==> IsFoldSpace(w[i])
  }

  lemma CollapseKeptHead(s: string)
    requires s != [] && !IsFoldSpace(s[0])
    ensures CollapseSpace(s) == [s[0]] + CollapseSpace(s[1..])
  {
  }

  lemma CollapseFoldHead(s: string)
    requires s != [] && IsFoldSpace(s[0])
    ensures CollapseSpace(s) == " " + CollapseSpace(DropFoldSpace(s[1..]))
  {
  }

  lemma ConsAppend(x: string, c: string)
    requires x != []
    ensures [x[0]] + (x[1..] + c) == x + c
  {
    assert [x[0]] + x[1..] == x;
  }

  lemma {:induction false} CollapseSolidPrefix(x: string, t: string)
    requires Solid(x)
    ensures CollapseSpace(x + t) == x + CollapseSpace(t)
    decreases |x|
  {
    if x != [] {
      var s := x + t;
      assert s[0] == x[0] && s[1..] == x[1..] + t;
      CollapseKeptHead(s);
      assert Solid(x[1..]) by {
        assert forall i :: 0 <= i < |x| - 1 ==> x[1..][i] == x[i + 1];
      }
      CollapseSolidPrefix(x[1..], t);
      ConsAppend(x, CollapseSpace(t));
    } else {
      assert x + t == t;
    }
  }

  lemma {:induction false} DropRun(w: string, y: string)
    requires forall i :: 0 <= i < |w| ==> IsFoldSpace(w[i])
    requires y == [] || !IsFoldSpace(y[0])
    ensures DropFoldSpace(w + y) == y
    decreases |w|
  {
    if w == [] {
      assert w + y == y;
    } else {
      assert (w + y)[1..] == w[1..] + y;
      DropRun(w[1..], y);
    }
  }

  lemma SolidFolded(y: string)
    requires Solid(y)
    ensures CollapseSpace(y) == y
  {
    CollapseSolidPrefix(y, "");
    assert y + "" == y;
  }

  lemma CollapseRun(w: string, y: string)
    requires FoldRun(w) && Solid(y)
    ensures CollapseSpace(w + y) == " " + y
  {
    var s := w + y;
    assert s[0] == w[0] && s[1..] == w[1..] + y;
    CollapseFoldHead(s);
    DropRun(w[1..], y);
    SolidFolded(y);
  }

  /** Two words separated by any run of whitespace come out separated by
      exactly one space. */
  lemma SpaceNormalizeJoinsWords(x: string, w: string, y: string)
    requires Solid(x) && FoldRun(w) && Solid(y)
    ensures SpaceNormalize(x + w + y) == x + " " + y
  {
    AppendAssoc(x, w, y);
    CollapseSolidPrefix(x, w + y);
    CollapseRun(w, y);
    AppendAssoc(x, " ", y);
  }

  // ---------------------------------------------------------------------
  // _cleanup_classes
  // ---------------------------------------------------------------------

  const ALIGNMENTS: seq<string> := ["left", "center", "right", "justify"]

  /** The promotion table: a class and the tags it is promoted on. */
  const PROMOTIONS: seq<(string, seq<string>)> := [
    ("title", ["h1"]),
    ("subtitle", ["h2"]),
    ("footnote", ["span", "div", "aside"]),
    ("pagebreak", ["span", "div"]),
    ("tex2jax_process", ["span"])
  ]

  /** The tag a promoted class gives its element: the class itself for
      `title` and `subtitle`, the class behind a `.` otherwise. */
  function PromotedTag(c: string): string
  {
    if c == "title" || c == "subtitle" then c else "." + c
  }

  /** The first entry of `table` that promotes `c` on `tag`. */
  function PromoteIn(c: string, tag: string, table: seq<(string, seq<string>)>): (r: Option<string>)
    ensures r.Some? ==> r.value == PromotedTag(c)
    ensures r.Some? <==> exists i :: 0 <= i < |table| && table[i].0 == c && tag in table[i].1
  {
    if table == [] then None
    else if c == table[0].0 && tag in table[0].1 then Some(PromotedTag(c))
    else
      var r := PromoteIn(c, tag, table[1..]);
      assert forall i :: 1 <= i < |table| ==> table[i] == table[1..][i - 1];
      r
  }

  function Promotion(c: string, tag: string): Option<string>
  {
    PromoteIn(c, tag, PROMOTIONS)
  }

  /** What the table says, entry by entry. */
  lemma PromotionTable(c: string, tag: string)
    ensures Promotion(c, tag).Some? <==>
      (c == "title" && tag == "h1") || (c == "subtitle" && tag == "h2") ||
      (c == "footnote" && tag in {"span", "div", "aside"}) ||
      (c == "pagebreak" && tag in {"span", "div"}) ||
      (c == "tex2jax_process" && tag == "span")
    ensures Promotion(c, tag).Some? ==> Promotion(c, tag).value == PromotedTag(c)
  {
  }

  /** A promoted tag is on no entry's list, so at most one class is ever
      promoted. */
  lemma PromotedTagIsFinal(c: string, d: string)
    requires Promotion(c, d).Some?
    ensures forall e :: Promotion(e, Promotion(c, d).value).None?
  {
    PromotionTable(c, d);
    forall e ensures Promotion(e, PromotedTag(c)).None? {
      PromotionTable(e, PromotedTag(c));
    }
  }

  /** An alignment class on a table cell is dropped. */
  predicate Dropped(tag: string, c: string)
  {
    (tag == "td" || tag == "th") && c in ALIGNMENTS
  }

  /** What the loop appends for a class that promotes nothing. */
  function KeepOne(tag: string, c: string): seq<string>
  {
    if Dropped(tag, c) then [] else [c]
  }

  /** The `for c in ...` loop: the tag it ends with and the classes it
      keeps, class by class. */
  function CleanClasses(tag: string, cs: seq<string>): (string, seq<string>)
    decreases |cs|
  {
    if cs == [] then (tag, [])
    else match Promotion(cs[0], tag)
      case Some(t) => CleanClasses(t, cs[1..])
      case None =>
        var rest := CleanClasses(tag, cs[1..]);
        (rest.0, KeepOne(tag, cs[0]) + rest.1)
  }

  /** The classes that are not dropped, in order. */
  function Kept(tag: string, cs: seq<string>): (r: seq<string>)
    decreases |cs|
  {
    if cs == [] then [] else KeepOne(tag, cs[0]) + Kept(tag, cs[1..])
  }

  lemma {:induction false} KeptMembers(tag: string, cs: seq<string>, c: string)
    ensures c in Kept(tag, cs) <==> c in cs && !Dropped(tag, c)
    decreases |cs|
  {
    if cs != [] {
      KeptMembers(tag, cs[1..], c);
      assert c in cs <==> c == cs[0] || c in cs[1..];
    }
  }

  /** The index of the first class that promotes the element. */
  function FirstPromotion(tag: string, cs: seq<string>): (r: Option<nat>)
    ensures r.Some? ==> r.value < |cs| && Promotion(cs[r.value], tag).Some?
    decreases |cs|
  {
    if cs == [] then None
    else if Promotion(cs[0], tag).Some? then Some(0)
    else match FirstPromotion(tag, cs[1..])
      case None => None
      case Some(k) => Some(k + 1)
  }

  /** `FirstPromotion` finds the first promoting class, or there is none. */
  lemma {:induction false} FirstPromotionIsFirst(tag: string, cs: seq<string>, j: nat)
    requires j < |cs|
    requires FirstPromotion(tag, cs).None? || j < FirstPromotion(tag, cs).value
    ensures Promotion(cs[j], tag).None?
    decreases |cs|
  {
    if j > 0 && Promotion(cs[0], tag).None? {
      FirstPromotionIsFirst(tag, cs[1..], j - 1);
    }
  }

  lemma {:induction false} CleanClassesFinal(t: string, cs: seq<string>)
    requires forall e :: Promotion(e, t).None?
    requires t != "td" && t != "th"
    ensures CleanClasses(t, cs) == (t, cs)
    decreases |cs|
  {
    if cs != [] {
      CleanClassesFinal(t, cs[1..]);
      assert [cs[0]] + cs[1..] == cs;
    }
  }

  lemma CleanClassesAt(t: string, cs: seq<string>, i: nat)
    requires i < |cs|
    ensures Promotion(cs[i], t).Some? ==>
      CleanClasses(t, cs[i..]) == CleanClasses(Promotion(cs[i], t).value, cs[i + 1..])
    ensures Promotion(cs[i], t).None? ==>
      CleanClasses(t, cs[i..]) ==
        (CleanClasses(t, cs[i + 1..]).0, KeepOne(t, cs[i]) + CleanClasses(t, cs[i + 1..]).1)
  {
    assert cs[i..][0] == cs[i] && cs[i..][1..] == cs[i + 1..];
  }

  lemma PromotedHead(tag: string, cs: seq<string>)
    requires cs != [] && Promotion(cs[0], tag).Some?
    ensures CleanClasses(tag, cs) == (PromotedTag(cs[0]), cs[1..])
    ensures FirstPromotion(tag, cs) == Some(0)
  {
    PromotedTagIsFinal(cs[0], tag);
    PromotionTable(cs[0], tag);
    CleanClassesFinal(PromotedTag(cs[0]), cs[1..]);
  }

  lemma KeptPrefix(tag: string, cs: seq<string>, k: nat)
    requires 0 < k <= |cs|
    ensures Kept(tag, cs[..k]) == KeepOne(tag, cs[0]) + Kept(tag, cs[1..][..k - 1])
  {
    assert cs[..k][0] == cs[0];
    assert cs[..k][1..] == cs[1..][..k - 1];
  }

  /** The loop, stated outright: the first class that promotes the element
      gives the tag and is removed, the alignment classes before it are
      dropped, and everything after it is kept as it is (the new tag promotes
      nothing and is no table cell).  Without a promotion the tag stays and
      only the alignment classes go. */
  lemma {:induction false} CleanClassesSpec(tag: string, cs: seq<string>)
    ensures FirstPromotion(tag, cs).None? ==> CleanClasses(tag, cs) == (tag, Kept(tag, cs))
    ensures FirstPromotion(tag, cs).Some? ==>
      var k := FirstPromotion(tag, cs).value;
      CleanClasses(tag, cs) == (PromotedTag(cs[k]), Kept(tag, cs[..k]) + cs[k + 1..])
    decreases |cs|
  {
    if cs != [] {
      if Promotion(cs[0], tag).Some? {
        PromotedHead(tag, cs);
        assert cs[..0] == [];
        assert Kept(tag, cs[..0]) + cs[0 + 1..] == cs[1..];
      } else {
        CleanClassesSpec(tag, cs[1..]);
        var rest := CleanClasses(tag, cs[1..]);
        assert CleanClasses(tag, cs) == (rest.0, KeepOne(tag, cs[0]) + rest.1);
        match FirstPromotion(tag, cs[1..])
        case None =>
        case Some(k1) =>
          assert FirstPromotion(tag, cs) == Some(k1 + 1);
          KeptPrefix(tag, cs, k1 + 1);
          assert cs[1..][k1] == cs[k1 + 1];
          assert cs[1..][k1 + 1..] == cs[k1 + 2..];
          var a, b, c := KeepOne(tag, cs[0]), Kept(tag, cs[1..][..k1]), cs[k1 + 2..];
          AppendAssoc(a, b, c);
      }
    }
  }

  /** `_cleanup_classes(tag, attrs)` on the value of `attrs`: the class
      string is split on single spaces; the promoted tag comes back, and
      `class` holds the kept classes or is deleted when none is left.  A
      missing `class` is a `KeyError`, a value that is not a string an
      `AttributeError` (`split`). */
  function CleanupClasses(tag: string, attrs: Attrs): Result<(string, Attrs)>
  {
    if "class" !in attrs then Err("KeyError")
    else if !attrs["class"].Str? then Err("AttributeError")
    else
      var res := CleanClasses(tag, Split(attrs["class"].s, " "));
      Ok((res.0, if res.1 == [] then attrs - {"class"} else attrs["class" := Classes(res.1)]))
  }

  /** Only `class` changes; it is gone exactly when nothing is kept. */
  lemma CleanupClassesKeys(tag: string, attrs: Attrs, k: string)
    requires CleanupClasses(tag, attrs).Ok?
    ensures var (t, a) := CleanupClasses(tag, attrs).value;
      ("class" in a <==> CleanClasses(tag, Split(attrs["class"].s, " ")).1 != []) &&
      ("class" in a ==> a["class"] == Classes(CleanClasses(tag, Split(attrs["class"].s, " ")).1)) &&
      (k != "class" ==> (k in a <==> k in attrs) && (k in a ==> a[k] == attrs[k]))
  {
  }

  /** A title heading: `<h1 class="title big">` becomes a `title` element
      keeping `big`. */
  lemma CleanupClassesTitle(big: string)
    ensures CleanClasses("h1", ["title", big]) == ("title", [big])
  {
    PromotionTable("title", "h1");
    PromotedHead("h1", ["title", big]);
    assert ["title", big][1..] == [big];
  }

  /** A table cell loses its alignment class and then its `class` key. */
  lemma {:induction false} SplitFromNoSep(s: string, sep: string, cur: string)
    requires |sep| == 1 && sep[0] !in s
    ensures SplitFrom(s, sep, cur) == [cur + s]
    decreases |s|
  {
    if |s| >= 1 {
      assert s[..1] != sep by {
        assert s[..1][0] == s[0];
      }
      SplitFromNoSep(s[1..], sep, cur + [s[0]]);
      assert cur + [s[0]] + s[1..] == cur + s;
    } else {
      assert cur + s == cur;
    }
  }

  /** A class value without a space is one class. */
  lemma SplitOneClass(s: string)
    requires ' ' !in s
    ensures Split(s, " ") == [s]
  {
    SplitFromNoSep(s, " ", "");
    assert "" + s == s;
  }

  lemma CleanupClassesCell(a: Attrs)
    requires a == map["class" := Str("center")]
    ensures CleanupClasses("td", a) == Ok(("td", map[]))
  {
    SplitOneClass("center");
    assert Promotion("center", "td").None? by {
      PromotionTable("center", "td");
    }
    assert Dropped("td", "center");
    assert CleanClasses("td", ["center"]) == ("td", []) by {
      assert ["center"][1..] == [];
    }
  }

  /** The `attrs` dict object, whose values are still the plain strings of
      the HTML attributes until the clean-ups replace some of them. */
  class RawAttrs {
    var value: Attrs

    constructor (value: Attrs)
      ensures this.value == value
    {
      this.value := value;
    }

    /** `_cleanup_classes(tag, attrs)`: the loop over the split classes,
      with the inner search of the promotion table, then the write-back of
      `class`. */
    method CleanupClassesInPlace(tag: string) returns (r: Result<string>)
      modifies this
      ensures CleanupClasses(tag, old(value)).Err? ==>
        r == Err(CleanupClasses(tag, old(value)).error) && value == old(value)
      ensures CleanupClasses(tag, old(value)).Ok? ==>
        r == Ok(CleanupClasses(tag, old(value)).value.0) && value == CleanupClasses(tag, old(value)).value.1
    {
      if "class" !in value {
        return Err("KeyError");
      }
      if !value["class"].Str? {
        return Err("AttributeError");
      }
      var cs := Split(value["class"].s, " ");
      var t := tag;
      var classes: seq<string> := [];
      var i := 0;
      assert cs[i..] == cs;
      assert CleanClasses(t, cs[i..]) == CleanClasses(tag, cs);
      assert classes + CleanClasses(tag, cs).1 == CleanClasses(tag, cs).1;
      while i < |cs|
        invariant 0 <= i <= |cs|
        invariant CleanClasses(tag, cs) == (CleanClasses(t, cs[i..]).0, classes + CleanClasses(t, cs[i..]).1)
        invariant value == old(value)
      {
        var c := cs[i];
        CleanClassesAt(t, cs, i);
        ghost var before := classes;
        var promoted := Promotion(c, t);
        if promoted.Some? {
          t := promoted.value;
        } else {
          if !Dropped(t, c) {
            classes := classes + [c];
          }
          assert classes == before + KeepOne(t, c);
          AppendAssoc(before, KeepOne(t, c), CleanClasses(t, cs[i + 1..]).1);
        }
        i := i + 1;
      }
      assert cs[i..] == [];
      assert CleanClasses(t, cs[i..]) == (t, []);
      assert classes + [] == classes;
      assert CleanClasses(tag, cs) == (t, classes);
      ghost var v0 := value;
      assert Split(v0["class"].s, " ") == cs;
      if classes == [] {
        value := value - {"class"};
      } else {
        value := value["class" := Classes(classes)];
      }
      assert CleanupClasses(tag, v0) == Ok((t, value));
      return Ok(t);
    }

    /** `_cleanup_attrs(tag, attrs)`: every key not on the allow-list is
      deleted, in whatever order the keys come; a `col`'s `width` is first
      copied into `style`. */
    method CleanupAttrsInPlace(tag: string)
      requires tag == "col" && "width" in value ==> value["width"].Str?
      modifies this
      ensures value == CleanAttrs(tag, old(value))
    {
      ghost var a0 := value;
      var keys := value.Keys;
      while keys != {}
        invariant keys <= a0.Keys
        invariant value == Partial(tag, a0, a0.Keys - keys)
        decreases keys
      {
        var k :| k in keys;
        ghost var done := a0.Keys - keys;
        assert k in value by {
          PartialHas(tag, a0, done, k);
        }
        if !(k in {"style", "class", "id"} || StartsWith(k, "data-")) {
          if (k in {"name", "href"} && tag == "a") || (k == "src" && tag == "img") ||
             (k == "start" && tag in {"ol", "ul"}) {
          } else {
            if k == "width" && tag == "col" {
              PartialHas(tag, a0, done, "width");
              value := value["style" := Str("width:" + value["width"].s)];
            }
            value := value - {k};
          }
        }
        PartialStep(tag, a0, done, k, value);
        keys := keys - {k};
      }
      assert a0.Keys - keys == a0.Keys;
      PartialAll(tag, a0);
    }
  }

  // ---------------------------------------------------------------------
  // _cleanup_attrs
  // ---------------------------------------------------------------------

  /** The allow-list: `style`, `class`, `id` and `data-*` everywhere;
      `name` and `href` on `a`; `src` on `img`; `start` on `ol` and `ul`. */
  predicate KeepsAttr(tag: string, k: string)
  {
    k in {"style", "class", "id"} || StartsWith(k, "data-") ||
    (k in {"name", "href"} && tag == "a") || (k == "src" && tag == "img") ||
    (k == "start" && tag in {"ol", "ul"})
  }

  /** Whether a `col`'s width moves into `style`. */
  predicate MovesWidth(tag: string, a: Attrs)
  {
    tag == "col" && "width" in a && a["width"].Str?
  }

  /** The cleaned attributes. */
  function CleanAttrs(tag: string, a: Attrs): (r: Attrs)
  {
    var kept := map k | k in a && KeepsAttr(tag, k) :: a[k];
    if MovesWidth(tag, a) then kept["style" := Str("width:" + a["width"].s)] else kept
  }

  /** The dict once the keys in `done` have had their turn. */
  ghost function Partial(tag: string, a: Attrs, done: set<string>): Attrs
  {
    var kept := map k | k in a && (k !in done || KeepsAttr(tag, k)) :: a[k];
    if MovesWidth(tag, a) && "width" in done then kept["style" := Str("width:" + a["width"].s)] else kept
  }

  lemma PartialHas(tag: string, a: Attrs, done: set<string>, k: string)
    requires k in a && k !in done
    ensures k in Partial(tag, a, done)
    ensures k != "style" ==> Partial(tag, a, done)[k] == a[k]
  {
  }

  lemma PartialStep(tag: string, a: Attrs, done: set<string>, k: string, v: Attrs)
    requires k in a && k !in done
    requires tag == "col" && "width" in a ==> a["width"].Str?
    requires var p := Partial(tag, a, done);
      v == if KeepsAttr(tag, k) then p
           else if k == "width" && tag == "col" then p["style" := Str("width:" + a["width"].s)] - {k}
           else p - {k}
    ensures v == Partial(tag, a, done + {k})
  {
    var q := Partial(tag, a, done + {k});
    assert KeepsAttr(tag, "style");
    assert !KeepsAttr(tag, "width") by {
      assert "width"[0] != "data-"[0];
    }
    var kept1 := map j | j in a && (j !in done || KeepsAttr(tag, j)) :: a[j];
    var kept2 := map j | j in a && (j !in done + {k} || KeepsAttr(tag, j)) :: a[j];
    if KeepsAttr(tag, k) {
      assert kept2 == kept1;
    } else {
      assert kept2 == kept1 - {k};
    }
  }

  lemma PartialAll(tag: string, a: Attrs)
    ensures Partial(tag, a, a.Keys) == CleanAttrs(tag, a)
  {
  }

  /** Key by key: an allowed key keeps its value, any other key is gone, and
      a `col` with a `width` has `style` set to `width:` and that width. */
  lemma CleanAttrsKeys(tag: string, a: Attrs, k: string)
    ensures k in CleanAttrs(tag, a) <==> (k in a && KeepsAttr(tag, k)) || (k == "style" && MovesWidth(tag, a))
    ensures k in a && KeepsAttr(tag, k) && !(k == "style" && MovesWidth(tag, a)) ==> CleanAttrs(tag, a)[k] == a[k]
    ensures k == "style" && MovesWidth(tag, a) ==> CleanAttrs(tag, a)[k] == Str("width:" + a["width"].s)
  {
  }

  /** A second clean-up changes nothing. */
  lemma CleanAttrsIdempotent(tag: string, a: Attrs)
    ensures CleanAttrs(tag, CleanAttrs(tag, a)) == CleanAttrs(tag, a)
  {
    var c := CleanAttrs(tag, a);
    assert !KeepsAttr(tag, "width") by {
      assert "width"[0] != "data-"[0];
    }
    assert !MovesWidth(tag, c);
    assert forall k :: k in c ==> KeepsAttr(tag, k);
  }

  // ---------------------------------------------------------------------
  // _cleanup_fig
  // ---------------------------------------------------------------------

  predicate IsTag(n: Node, tag: string)
  {
    n.Elem? && n.tag == tag
  }

  /** `_get_width(attrs, None)`. */
  function FigWidth(a: Attrs): Option<string>
  {
    StyleGet(StyleOf(a), "width")
  }

  /** `del body[-1]` when the last child is whitespace-only text. */
  function TrimFig(body: seq<Node>): (r: seq<Node>)
    ensures |r| <= |body| && r == body[..|r|]
  {
    if body != [] && body[|body| - 1].Text? && AllSpace(body[|body| - 1].text) then body[..|body| - 1]
    else body
  }

  /** `body[0], body[-1] = body[-1], body[0]` when the last child is the
      caption. */
  function CaptionFirst(body: seq<Node>): (r: seq<Node>)
    requires body != []
    ensures |r| == |body|
  {
    var n := |body| - 1;
    if IsTag(body[n], "figcaption") then body[0 := body[n]][n := body[0]] else body
  }

  /** The figure style with the width of its image: `display` defaults to
      `block`, `width` is set. */
  function WidthStyle(style: seq<(string, string)>, width: string): seq<(string, string)>
  {
    var s1 := if StyleGet(style, "display").Some? then style else StyleSet(style, "display", "block");
    StyleSet(s1, "width", width)
  }

  /** The image's width, or `100%`. */
  function ImgWidth(img: Node): string
  {
    match StyleGet(StyleOf(if img.Elem? then img.attrs else map[]), "width")
    case Some(w) => w
    case None => "100%"
  }

  /** The width step of `_cleanup_fig`: a figure without a width whose last
      child is an image takes the image's width and loses nothing else; the
      image loses its style. */
  function FigAdjust(attrs: WAttrs, c: seq<Node>): (WAttrs, seq<Node>)
    requires c != []
  {
    var img := c[|c| - 1];
    if FigWidth(attrs).None? && IsTag(img, "img") then
      var fig: WAttrs := attrs[STYLE := Style(WidthStyle(StyleOf(attrs), ImgWidth(img)))];
      var imgAttrs: WAttrs := img.attrs - {STYLE};
      (fig, c[|c| - 1 := Elem("img", imgAttrs, img.body)])
    else (attrs, c)
  }

  /** `_cleanup_fig(attrs, body)` on values.  A body that is only one
      whitespace string is an `IndexError` once that string is gone. */
  function CleanupFig(attrs: WAttrs, body: seq<Node>): (r: Result<(WAttrs, seq<Node>)>)
    ensures r.Err? <==> body != [] && TrimFig(body) == []
    ensures r.Err? ==> r.error == "IndexError"
    ensures body == [] ==> r == Ok((attrs, body))
  {
    if body == [] then Ok((attrs, body))
    else
      var b := TrimFig(body);
      if b == [] then Err("IndexError") else Ok(FigAdjust(attrs, CaptionFirst(b)))
  }

  /** A trailing caption moves to the front, the child that was first takes
      its place, and the children between stay where they are. */
  lemma CleanupFigCaption(attrs: WAttrs, body: seq<Node>)
    requires CleanupFig(attrs, body).Ok? && body != []
    requires IsTag(TrimFig(body)[|TrimFig(body)| - 1], "figcaption")
    ensures var b := TrimFig(body); var r := CleanupFig(attrs, body).value.1;
      |r| == |b| && r[0] == b[|b| - 1] &&
      (forall i :: 0 < i < |b| - 1 ==> r[i] == b[i]) &&
      (|b| > 1 ==>
        (r[|b| - 1].Elem? <==> b[0].Elem?) &&
        (b[0].Elem? ==> r[|b| - 1].tag == b[0].tag && r[|b| - 1].body == b[0].body))
  {
  }

  /** A figure without a width gets its image's width (or `100%`) and a
      `display`; the image loses its style. */
  lemma CleanupFigWidth(attrs: WAttrs, c: seq<Node>)
    requires c != [] && FigWidth(attrs).None? && IsTag(c[|c| - 1], "img")
    ensures var img := c[|c| - 1]; var (fig, r) := FigAdjust(attrs, c);
      FigWidth(fig) == Some(if FigWidth(img.attrs).Some? then FigWidth(img.attrs).value else "100%") &&
      StyleGet(StyleOf(fig), "display").Some? &&
      |r| == |c| && r[..|c| - 1] == c[..|c| - 1] &&
      IsTag(r[|r| - 1], "img") && STYLE !in r[|r| - 1].attrs && r[|r| - 1].body == img.body &&
      (forall k :: k != STYLE ==> (k in fig <==> k in attrs) && (k in fig ==> fig[k] == attrs[k]))
  {
    var img := c[|c| - 1];
    WidthStyleGets(StyleOf(attrs), ImgWidth(img));
    var fig: WAttrs := attrs[STYLE := Style(WidthStyle(StyleOf(attrs), ImgWidth(img)))];
    assert StyleOf(fig) == WidthStyle(StyleOf(attrs), ImgWidth(img));
  }

  lemma WidthStyleGets(style: seq<(string, string)>, width: string)
    ensures StyleGet(WidthStyle(style, width), "width") == Some(width)
    ensures StyleGet(WidthStyle(style, width), "display").Some?
  {
    var s1 := if StyleGet(style, "display").Some? then style else StyleSet(style, "display", "block");
    assert StyleGet(s1, "display").Some?;
    StyleSetOther(s1, "width", width, "display");
  }

  lemma StyleSetOther(kvs: seq<(string, string)>, k: string, v: string, other: string)
    requires other != k
    ensures StyleGet(StyleSet(kvs, k, v), other) == StyleGet(kvs, other)
  {
  }

  /** A figure that has its width, or whose last child is no image, keeps
      its attributes. */
  lemma CleanupFigKeepsAttrs(attrs: WAttrs, body: seq<Node>)
    requires CleanupFig(attrs, body).Ok? && body != []
    requires var c := CaptionFirst(TrimFig(body));
      FigWidth(attrs).Some? || !IsTag(c[|c| - 1], "img")
    ensures CleanupFig(attrs, body).value == (attrs, CaptionFirst(TrimFig(body)))
  {
  }

  /** `_cleanup_fig` in place on the figure's attrs and body list. */
  method CleanupFigInPlace(attrs: Preprocess.AttrsObject, body: Preprocess.BodyList) returns (r: Result<()>)
    modifies attrs, body
    ensures var c := CleanupFig(old(attrs.value), old(body.items));
      (c.Ok? ==> r == Ok(()) && (attrs.value, body.items) == c.value) &&
      (c.Err? ==> r == Err(c.error) && attrs.value == old(attrs.value) && body.items == [])
  {
    if body.items == [] {
      return Ok(());
    }
    var n := |body.items|;
    if body.items[n - 1].Text? && AllSpace(body.items[n - 1].text) {
      body.items := body.items[..n - 1];
    }
    if body.items == [] {
      return Err("IndexError");
    }
    n := |body.items|;
    if IsTag(body.items[n - 1], "figcaption") {
      var first, last := body.items[0], body.items[n - 1];
      body.items := body.items[0 := last][n - 1 := first];
    }
    assert body.items == CaptionFirst(TrimFig(old(body.items)));
    AdjustWidth(attrs, body);
    return Ok(());
  }

  /** The width step in place. */
  method AdjustWidth(attrs: Preprocess.AttrsObject, body: Preprocess.BodyList)
    requires body.items != []
    modifies attrs, body
    ensures (attrs.value, body.items) == FigAdjust(old(attrs.value), old(body.items))
  {
    var n := |body.items|;
    if FigWidth(attrs.value).None? {
      var img := body.items[n - 1];
      if IsTag(img, "img") {
        var width := "100%";
        var w := StyleGet(StyleOf(img.attrs), "width");
        if w.Some? {
          width := w.value;
        }
        var style := StyleOf(attrs.value);
        if StyleGet(style, "display").None? {
          style := StyleSet(style, "display", "block");
        }
        style := StyleSet(style, "width", width);
        assert width == ImgWidth(img);
        assert style == WidthStyle(StyleOf(old(attrs.value)), ImgWidth(img));
        attrs.value := attrs.value[STYLE := Style(style)];
        var imgAttrs: WAttrs := img.attrs - {STYLE};
        body.items := body.items[n - 1 := Elem("img", imgAttrs, img.body)];
      }
    }
  }

  // ---------------------------------------------------------------------
  // _maybe_handle_footnote
  // ---------------------------------------------------------------------

  /** `footnote_state`: each footnote id seen in a reference, mapped to the
      body list object of that reference. */
  class FootnoteState {
    var saved: map<string, Preprocess.BodyList>

    constructor ()
      ensures saved == map[]
    {
      saved := map[];
    }

    /** `_maybe_handle_footnote(tag, attrs, body, footnote_state)`:
      - an `a.noteref` whose `href` is `#id` saves its own body list under
        `id` and yields a `.footnote` holding that very list object, so
        whatever is later written into the list shows in the `.footnote`;
        any other `href` yields nothing;
      - an `aside.endnote` pops its `id` and, when a reference saved a body
        under it, overwrites that saved list with its own body; it yields
        nothing;
      - any other element gives `None`.
      A reference without `href` or a body without `id` is a `KeyError`. */
    method MaybeHandleFootnote(tag: string, attrs: WAttrs, body: Preprocess.BodyList)
      returns (r: Result<Option<Yield>>)
      modifies this, saved.Values
      ensures Kind(tag, attrs) == Other ==> r == Ok(None) && saved == old(saved)
      ensures Kind(tag, attrs) == NoteRef ==> NoteRefOutcome(attrs, body, r, old(saved), saved)
      ensures Kind(tag, attrs) == EndNote ==> EndNoteOutcome(attrs, body, r, old(saved), saved)
      ensures Kind(tag, attrs) != EndNote || !EndNoteMatches(attrs, old(saved)) ==>
        forall b :: b in old(saved.Values) ==> b.items == old(b.items)
      ensures Kind(tag, attrs) == EndNote && EndNoteMatches(attrs, old(saved)) ==>
        var target := old(saved)[attrs["id"].s];
        target.items == old(body.items) &&
        forall b :: b in old(saved.Values) && b != target ==> b.items == old(b.items)
    {
      var classes := ClassesOf(attrs);
      if tag == "a" && "noteref" in classes {
        if "href" !in attrs {
          return Err("KeyError");
        }
        if !attrs["href"].Str? {
          return Err("AttributeError");
        }
        var href := attrs["href"].s;
        if StartsWith(href, "#") {
          saved := saved[href[1..] := body];
          return Ok(Some(FootnoteOf(body)));
        }
        return Ok(Some(Nodes([])));
      }
      if tag == "aside" && "endnote" in classes {
        if "id" !in attrs {
          return Err("KeyError");
        }
        if !attrs["id"].Str? {
          return Err("TypeError");
        }
        var id := attrs["id"].s;
        if id in saved {
          var old_body := saved[id];
          saved := saved - {id};
          old_body.items := body.items;
        }
        return Ok(Some(Nodes([])));
      }
      return Ok(None);
    }
  }

  /** What `_maybe_handle_footnote` yields for an element: a list of
      nodes, or `[mkel('.footnote', {}, body)]`, whose body is the list
      object `body` itself rather than a copy of its items. */
  datatype Yield = Nodes(nodes: seq<Node>) | FootnoteOf(list: Preprocess.BodyList)

  /** The nodes a yield stands for, read from the list objects as they are
      now. */
  function YieldedNodes(y: Yield): seq<Node>
    reads if y.FootnoteOf? then {y.list} else {}
  {
    match y
    case Nodes(ns) => ns
    case FootnoteOf(b) => [Elem(".footnote", map[], b.items)]
  }

  datatype FootnoteKind = NoteRef | EndNote | Other

  /** Which branch of `_maybe_handle_footnote` an element takes. */
  function Kind(tag: string, attrs: Attrs): FootnoteKind
  {
    if tag == "a" && "noteref" in ClassesOf(attrs) then NoteRef
    else if tag == "aside" && "endnote" in ClassesOf(attrs) then EndNote
    else Other
  }

  /** The id a reference's `href` names, when it is `#id`. */
  function RefId(attrs: Attrs): Option<string>
  {
    if "href" in attrs && attrs["href"].Str? && StartsWith(attrs["href"].s, "#") then Some(attrs["href"].s[1..])
    else None
  }

  ghost predicate NoteRefOutcome(attrs: Attrs, body: Preprocess.BodyList, r: Result<Option<Yield>>,
                                 before: map<string, Preprocess.BodyList>, after: map<string, Preprocess.BodyList>)
  {
    ("href" !in attrs ==> r == Err("KeyError") && after == before) &&
    ("href" in attrs && !attrs["href"].Str? ==> r == Err("AttributeError") && after == before) &&
    ("href" in attrs && attrs["href"].Str? && RefId(attrs).None? ==> r == Ok(Some(Nodes([]))) && after == before) &&
    (RefId(attrs).Some? ==>
      r == Ok(Some(FootnoteOf(body))) && after == before[RefId(attrs).value := body])
  }

  /** Whether an endnote's id names a saved reference. */
  predicate EndNoteMatches(attrs: Attrs, saved: map<string, Preprocess.BodyList>)
  {
    "id" in attrs && attrs["id"].Str? && attrs["id"].s in saved
  }

  ghost predicate EndNoteOutcome(attrs: Attrs, body: Preprocess.BodyList, r: Result<Option<Yield>>,
                                 before: map<string, Preprocess.BodyList>, after: map<string, Preprocess.BodyList>)
  {
    ("id" !in attrs ==> r == Err("KeyError") && after == before) &&
    ("id" in attrs && !attrs["id"].Str? ==> r == Err("TypeError") && after == before) &&
    ("id" in attrs && attrs["id"].Str? ==> r == Ok(Some(Nodes([]))) && after == before - {attrs["id"].s})
  }

  /** A reference followed by the endnote with its id: the `.footnote`
      the reference yielded (returned here) holds the endnote's body once
      the endnote is handled, the reference's own body list holds it too,
      and the id is no longer pending. */
  method NoteThenBody(state: FootnoteState, id: string, refBody: Preprocess.BodyList, noteBody: Preprocess.BodyList)
    returns (footnote: Result<Option<Yield>>)
    modifies state, state.saved.Values, refBody, noteBody
    ensures footnote == Ok(Some(FootnoteOf(refBody)))
    ensures YieldedNodes(footnote.value.value) == [Elem(".footnote", map[], old(noteBody.items))]
    ensures refBody.items == old(noteBody.items)
    ensures id !in state.saved
  {
    var refAttrs: WAttrs := map["href" := Str("#" + id), CLASS := Classes(["noteref"])];
    var noteAttrs: WAttrs := map["id" := Str(id), CLASS := Classes(["endnote"])];
    assert Kind("a", refAttrs) == NoteRef && RefId(refAttrs) == Some(id);
    assert ("#" + id)[1..] == id;
    footnote := state.MaybeHandleFootnote("a", refAttrs, refBody);
    assert state.saved[id] == refBody;
    assert Kind("aside", noteAttrs) == EndNote && EndNoteMatches(noteAttrs, state.saved);
    var y := state.MaybeHandleFootnote("aside", noteAttrs, noteBody);
  }
}
