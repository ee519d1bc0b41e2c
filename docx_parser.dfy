/** The paragraph-level helpers of docx_parser.py: paragraph styles to
    tags, background colours, the list builder that turns numbered
    paragraphs into nested lists, run styles, and two tree rewrites. */
module DocxParser {
  import opened Wrappers
  import opened PyStr
  import opened Internal

  // ---------------------------------------------------------------------
  // style_to_tag

  /** `style_to_tag(stylename)`: heading styles by their last character,
      the title styles by name, every other style a plain paragraph. */
  function StyleToTag(name: string): (r: string)
    ensures StartsWith(name, "Heading") ==> r == "h" + [name[|name| - 1]]
    ensures !StartsWith(name, "Heading") && name == "Title" ==> r == "title"
    ensures !StartsWith(name, "Heading") && name == "Subtitle" ==> r == "subtitle"
    ensures !StartsWith(name, "Heading") && name != "Title" && name != "Subtitle" ==> r == "p"
  {
    if StartsWith(name, "Heading") then "h" + [name[|name| - 1]]
    else if name == "Title" || name == "Subtitle" then Lower(name)
    else "p"
  }

  /** Every style gives a two-letter heading tag, a title tag or `p`; the
      Word headings 1-6 give `h1`-`h6`, and a bare `Heading` gives `hg`. */
  lemma StyleToTagShapes(name: string)
    ensures (|StyleToTag(name)| == 2 && StyleToTag(name)[0] == 'h') ||
            StyleToTag(name) in ["title", "subtitle", "p"]
    ensures StyleToTag("Heading1") == "h1" && StyleToTag("Heading6") == "h6"
    ensures StyleToTag("Heading") == "hg"
    ensures StyleToTag("Normal") == "p" && StyleToTag("") == "p"
  {
    assert StartsWith("Heading1", "Heading") && StartsWith("Heading6", "Heading");
    assert StartsWith("Heading", "Heading");
    assert !StartsWith("Normal", "Heading");
  }

  // ---------------------------------------------------------------------
  // add_bg

  predicate IsUpperHex(c: char) { '0' <= c <= '9' || 'A' <= c <= 'F' }

  /** `re.match('^#[0-9A-F]{6}$', s)`: `$` also matches before one final
      newline. */
  predicate HexColour(s: string)
  {
    (|s| == 7 || (|s| == 8 && s[7] == '\n')) && s[0] == '#' &&
    forall i :: 1 <= i < 7 ==> IsUpperHex(s[i])
  }

  /** `add_bg(a, rgb)`: the upper-cased colour must be `#RRGGBB`; white is
      not recorded, any other colour becomes the style's background. */
  function AddBg(a: WAttrs, rgb: string): (r: Result<WAttrs>)
    ensures r.Ok? <==> HexColour(Upper(rgb))
    ensures r.Err? ==> r.error == "AssertionError"
    ensures r.Ok? && Upper(rgb) == "#FFFFFF" ==> r.value == a
    ensures r.Ok? && Upper(rgb) != "#FFFFFF" ==>
      AddStyle(a, ["background-color", Upper(rgb)]).Ok? &&
      AddStyle(a, ["background-color", Upper(rgb)]).value == r.value
  {
    var up := Upper(rgb);
    if !HexColour(up) then Err("AssertionError")
    else if up == "#FFFFFF" then var same: WAttrs := a; Ok(same)
    else
      AddStyleOnePair(a, "background-color", up);
      var b: WAttrs := AddStyle(a, ["background-color", up]).value;
      assert WellTyped(b) by {
        if CLASS in b { assert b[CLASS] == a[CLASS]; }
      }
      Ok(b)
  }

  /** Any other colour is the new background; nothing else changes. */
  lemma AddBgSetsBackground(a: WAttrs, rgb: string)
    requires AddBg(a, rgb).Ok? && Upper(rgb) != "#FFFFFF"
    ensures var b := AddBg(a, rgb).value;
      STYLE in b &&
      StyleGet(StyleOf(b), "background-color") == Some(Upper(rgb)) &&
      (forall k :: k != "background-color" ==> StyleGet(StyleOf(b), k) == StyleGet(StyleOf(a), k)) &&
      (forall k :: k in a && k != STYLE ==> k in b && b[k] == a[k])
  {
    AddStyleOnePair(a, "background-color", Upper(rgb));
  }

  lemma UpperIdempotent(s: string)
    ensures Upper(Upper(s)) == Upper(s)
  {
  }

  /** The colour's case does not matter. */
  lemma AddBgIgnoresCase(a: WAttrs, rgb: string)
    ensures AddBg(a, rgb) == AddBg(a, Upper(rgb))
  {
    UpperIdempotent(rgb);
  }

  /** White, in any case, leaves the attributes alone. */
  lemma AddBgWhite(a: WAttrs, rgb: string)
    requires Upper(rgb) == "#FFFFFF"
    ensures AddBg(a, rgb) == Ok(a)
  {
    assert HexColour("#FFFFFF");
  }

  /** A colour with one trailing newline is accepted by the colour test and then is not
      recognised as white: it becomes the background, newline included. */
  lemma AddBgTrailingNewline(a: WAttrs, rgb: string)
    requires Upper(rgb) == "#FFFFFF\n"
    ensures AddBg(a, rgb).Ok?
    ensures StyleGet(StyleOf(AddBg(a, rgb).value), "background-color") == Some("#FFFFFF\n")
  {
    assert HexColour("#FFFFFF\n");
    AddBgSetsBackground(a, rgb);
  }

  /** A colour of the wrong length, one without the leading `#` and one
      with a letter past `F` are refused. */
  lemma AddBgRejects(a: WAttrs, rgb: string)
    ensures |rgb| != 7 && |rgb| != 8 ==> AddBg(a, rgb).Err?
    ensures rgb != [] && rgb[0] != '#' ==> AddBg(a, rgb).Err?
    ensures |rgb| == 7 && rgb[6] == 'g' ==> AddBg(a, rgb).Err?
  {
    if rgb != [] {
      assert Upper(rgb)[0] == UpperChar(rgb[0]);
    }
    if |rgb| == 7 && rgb[6] == 'g' {
      assert Upper(rgb)[6] == 'G';
    }
  }

  // ---------------------------------------------------------------------
  // ListBuilder.list_type

  const WORD_OL_TO_CSS: map<string, string> := map[
    "decimal" := "decimal",
    "lowerLetter" := "lower-alpha",
    "lowerRoman" := "lower-roman",
    "upperLetter" := "upper-alpha",
    "upperRoman" := "upper-roman",
    "hebrew1" := "hebrew",
    "iroha" := "katakana-iroha",
    "aiueo" := "hiragana-aiueo",
    "ideographDigital" := "cjk-ideographic"]

  const WORD_UL_TO_CSS: map<string, string> := map[
    "\U{25CF}" := "disc",
    "\U{25CB}" := "circle",
    "\U{25A0}" := "square",
    "-" := "hyphen"]

  /** The formats each level gets without saying: decimal, letters, roman
      numerals; filled circle, hollow circle, square. */
  const OL_DEFAULTS: seq<string> := ["decimal", "lowerLetter", "lowerRoman"]
  const UL_DEFAULTS: seq<string> := ["\U{25CF}", "\U{25CB}", "\U{25A0}"]

  /** `list_type(numid, level)`, given the numbering style's `numFmt` and
      `lvlText`: bullets make a `ul`, anything else an `ol`, and a format
      that is known but not the level's default becomes a class. */
  function ListType(numFmt: string, lvlText: string, level: int): (r: (string, WAttrs))
    ensures r.0 == (if numFmt == "bullet" then "ul" else "ol")
    ensures r.1.Keys <= {CLASS}
    ensures numFmt == "bullet" ==>
      (CLASS in r.1 <==> lvlText != UL_DEFAULTS[level % 3] && lvlText in WORD_UL_TO_CSS) &&
      (CLASS in r.1 ==> r.1[CLASS] == Classes([WORD_UL_TO_CSS[lvlText]]))
    ensures numFmt != "bullet" ==>
      (CLASS in r.1 <==> numFmt != OL_DEFAULTS[level % 3] && numFmt in WORD_OL_TO_CSS) &&
      (CLASS in r.1 ==> r.1[CLASS] == Classes([WORD_OL_TO_CSS[numFmt]]))
  {
    if numFmt == "bullet" then
      if lvlText != UL_DEFAULTS[level % 3] && lvlText in WORD_UL_TO_CSS then
        ("ul", map[CLASS := Classes([WORD_UL_TO_CSS[lvlText]])])
      else ("ul", map[])
    else
      if numFmt != OL_DEFAULTS[level % 3] && numFmt in WORD_OL_TO_CSS then
        ("ol", map[CLASS := Classes([WORD_OL_TO_CSS[numFmt]])])
      else ("ol", map[])
  }

  /** The defaults cycle with the level: a second-level lower-letter list
      is plain, a first-level one is classed; a square bullet is plain on
      the third level only; an unknown format is never classed. */
  lemma ListTypeDefaults()
    ensures ListType("lowerLetter", "", 1).1 == map[]
    ensures ListType("lowerLetter", "", 0).1 == map[CLASS := Classes(["lower-alpha"])]
    ensures ListType("bullet", "\U{25A0}", 5).1 == map[]
    ensures ListType("bullet", "\U{25A0}", 0).1 == map[CLASS := Classes(["square"])]
    ensures ListType("cardinalText", "", 0) == ("ol", map[])
  {
    assert OL_DEFAULTS[0] != "lowerLetter";
    assert UL_DEFAULTS[0] != "\U{25A0}";
  }

  // ---------------------------------------------------------------------
  // ListBuilder.build_list

  /** An entry of the list under construction: a paragraph with its list
      type, or a nested list. */
  datatype LEntry = Item(tag: string, attrs: WAttrs, p: Node) | Nested(entries: seq<LEntry>)

  /** `mkel('li', {}, [p])`. */
  function Li(p: Node): Node
  {
    Elem("li", map[], [p])
  }

  /** The last `li` of a list body, extended by a built sublist. */
  function ExtendLast(lis: seq<Node>, more: seq<Node>): (r: seq<Node>)
    requires lis != [] && lis[|lis| - 1].Elem?
    ensures r != [] && r[|r| - 1] == Elem(lis[|lis| - 1].tag, lis[|lis| - 1].attrs, lis[|lis| - 1].body + more)
  {
    var last := lis[|lis| - 1];
    lis[..|lis| - 1] + [Elem(last.tag, last.attrs, last.body + more)]
  }

  /** The end of the group that starts before `k`: the first later item of
      another list type. */
  function GroupEnd(tree: seq<LEntry>, tag: string, attrs: WAttrs, k: nat): (j: nat)
    requires k <= |tree|
    ensures k <= j <= |tree|
    ensures forall i :: k <= i < j ==> tree[i].Nested? || (tree[i].tag == tag && tree[i].attrs == attrs)
    ensures j < |tree| ==> tree[j].Item? && (tree[j].tag != tag || tree[j].attrs != attrs)
    decreases |tree| - k
  {
    if k == |tree| then k
    else if tree[k].Item? && (tree[k].tag != tag || tree[k].attrs != attrs) then k
    else GroupEnd(tree, tag, attrs, k + 1)
  }

  /** `build_list(tree)`, as evidently intended: each run of items of one
      list type, with the sublists after them, makes one list element; a
      sublist with no item before it becomes a `.block` of its own. */
  function BuildList(tree: seq<LEntry>): seq<Node>
    decreases tree
  {
    BuildFrom(tree, 0)
  }

  function BuildFrom(tree: seq<LEntry>, i: nat): seq<Node>
    requires i <= |tree|
    decreases tree, |tree| - i, 1
  {
    if i == |tree| then []
    else match tree[i]
      case Nested(sub) => [Elem(".block", map[], BuildList(sub))] + BuildFrom(tree, i + 1)
      case Item(tag, attrs, _) =>
        var j := GroupEnd(tree, tag, attrs, i + 1);
        [Elem(tag, attrs, Lis(tree, i, j))] + BuildFrom(tree, j)
  }

  /** `this_body` for the group `tree[i..j]`, which starts with an item: an
      item adds an `li`, a sublist extends the last `li`'s body. */
  function Lis(tree: seq<LEntry>, i: nat, j: nat): (r: seq<Node>)
    requires i < j <= |tree| && tree[i].Item?
    ensures r != [] && r[|r| - 1].Elem? && r[|r| - 1].body != []
    decreases tree, |tree| - i, 0, j
  {
    if j == i + 1 then [Li(tree[i].p)]
    else
      var prev := Lis(tree, i, j - 1);
      match tree[j - 1]
      case Item(_, _, p) => prev + [Li(p)]
      case Nested(sub) => ExtendLast(prev, BuildList(sub))
  }

  /** `build_list(tree)` as written.  The group key of a sublist is the
      pair `(_, _)` of an ezmatch variable without predicate, which equals
      every key; so a group that starts with a sublist takes in everything
      after it, and `body, = body` raises `ValueError` unless the sublist
      was the last entry. */
  function BuildListAsWritten(tree: seq<LEntry>): Result<seq<Node>>
    decreases tree
  {
    BuildFromAsWritten(tree, 0)
  }

  function BuildFromAsWritten(tree: seq<LEntry>, i: nat): Result<seq<Node>>
    requires i <= |tree|
    decreases tree, |tree| - i, 1
  {
    if i == |tree| then Ok([])
    else match tree[i]
      case Nested(sub) =>
        if i + 1 < |tree| then Err("ValueError")
        else
          (match BuildListAsWritten(sub)
           case Ok(b) => Ok([Elem(".block", map[], b)])
           case Err(e) => Err(e))
      case Item(tag, attrs, _) =>
        var j := GroupEnd(tree, tag, attrs, i + 1);
        match LisAsWritten(tree, i, j)
        case Err(e) => Err(e)
        case Ok(lis) =>
          match BuildFromAsWritten(tree, j)
          case Err(e) => Err(e)
          case Ok(rest) => Ok([Elem(tag, attrs, lis)] + rest)
  }

  function LisAsWritten(tree: seq<LEntry>, i: nat, j: nat): (r: Result<seq<Node>>)
    requires i < j <= |tree| && tree[i].Item?
    ensures r.Ok? ==> r.value != [] && forall k :: 0 <= k < |r.value| ==> r.value[k].Elem?
    decreases tree, |tree| - i, 0, j
  {
    if j == i + 1 then Ok([Li(tree[i].p)])
    else
      match LisAsWritten(tree, i, j - 1)
      case Err(e) => Err(e)
      case Ok(prev) =>
        match tree[j - 1]
        case Item(_, _, p) => Ok(prev + [Li(p)])
        case Nested(sub) =>
          match BuildListAsWritten(sub)
          case Err(e) => Err(e)
          case Ok(b) => Ok(ExtendLast(prev, b))
  }

  // ----- the paragraphs of a tree and of the lists built from it

  /** The paragraphs of the entries, depth first, in document order. */
  function ItemsOf(tree: seq<LEntry>): seq<Node>
    decreases tree
  {
    if tree == [] then [] else EntryItems(tree[0]) + ItemsOf(tree[1..])
  }

  function EntryItems(e: LEntry): seq<Node>
    decreases e
  {
    if e.Item? then [e.p] else ItemsOf(e.entries)
  }

  lemma ItemsConcat(a: seq<LEntry>, b: seq<LEntry>)
    ensures ItemsOf(a + b) == ItemsOf(a) + ItemsOf(b)
    decreases |a|
  {
    if a == [] {
      assert a + b == b;
    } else {
      assert (a + b)[1..] == a[1..] + b;
      ItemsConcat(a[1..], b);
    }
  }

  /** The paragraphs of built lists: each `li` starts with its paragraph
      and goes on with the lists nested under it; a `.block` holds lists. */
  function ListParas(ns: seq<Node>): seq<Node>
    decreases ns
  {
    if ns == [] then [] else NodeParas(ns[0]) + ListParas(ns[1..])
  }

  function NodeParas(n: Node): seq<Node>
    decreases n
  {
    if n.Text? then []
    else if n.tag == ".block" then ListParas(n.body)
    else LiParas(n.body)
  }

  function LiParas(lis: seq<Node>): seq<Node>
    decreases lis
  {
    if lis == [] then [] else LiPara(lis[0]) + LiParas(lis[1..])
  }

  function LiPara(li: Node): seq<Node>
    decreases li
  {
    if li.Text? || li.body == [] then [] else [li.body[0]] + ListParas(li.body[1..])
  }

  lemma ListParasConcat(a: seq<Node>, b: seq<Node>)
    ensures ListParas(a + b) == ListParas(a) + ListParas(b)
    decreases |a|
  {
    if a == [] {
      assert a + b == b;
    } else {
      assert (a + b)[1..] == a[1..] + b;
      ListParasConcat(a[1..], b);
    }
  }

  lemma LiParasConcat(a: seq<Node>, b: seq<Node>)
    ensures LiParas(a + b) == LiParas(a) + LiParas(b)
    decreases |a|
  {
    if a == [] {
      assert a + b == b;
    } else {
      assert (a + b)[1..] == a[1..] + b;
      LiParasConcat(a[1..], b);
    }
  }

  /** Extending an `li` by built lists adds their paragraphs. */
  lemma LiParaExtend(li: Node, more: seq<Node>)
    requires li.Elem? && li.body != []
    ensures LiPara(Elem(li.tag, li.attrs, li.body + more)) == LiPara(li) + ListParas(more)
  {
    var b := li.body + more;
    assert b[0] == li.body[0];
    assert b[1..] == li.body[1..] + more;
    ListParasConcat(li.body[1..], more);
  }

  lemma LiParasSingle(li: Node)
    ensures LiParas([li]) == LiPara(li)
  {
    assert [li][1..] == [];
  }

  lemma ExtendParas(init: seq<Node>, last: Node, more: seq<Node>)
    requires last.Elem? && last.body != []
    ensures LiParas(init + [Elem(last.tag, last.attrs, last.body + more)]) ==
      LiParas(init + [last]) + ListParas(more)
  {
    var li := Elem(last.tag, last.attrs, last.body + more);
    LiParasConcat(init, [li]);
    LiParasSingle(li);
    LiParasConcat(init, [last]);
    LiParasSingle(last);
    LiParaExtend(last, more);
  }

  lemma ExtendLastParas(lis: seq<Node>, more: seq<Node>)
    requires lis != [] && lis[|lis| - 1].Elem? && lis[|lis| - 1].body != []
    ensures LiParas(ExtendLast(lis, more)) == LiParas(lis) + ListParas(more)
  {
    var last := lis[|lis| - 1];
    var init := lis[..|lis| - 1];
    ExtendParas(init, last, more);
    assert lis == init + [last];
  }

  /** No item is tagged like a `.block`, at any depth. */
  predicate ListTags(tree: seq<LEntry>)
    decreases tree
  {
    forall k :: 0 <= k < |tree| ==>
      (tree[k].Item? ==> tree[k].tag != ".block") &&
      (tree[k].Nested? ==> ListTags(tree[k].entries))
  }

  /** `build_list` keeps every paragraph, in document order. */
  lemma {:induction false} BuildListKeepsParagraphs(tree: seq<LEntry>)
    requires ListTags(tree)
    ensures ListParas(BuildList(tree)) == ItemsOf(tree)
    decreases tree
  {
    BuildFromParas(tree, 0);
    assert tree[0..] == tree;
  }

  lemma {:induction false} BuildFromParas(tree: seq<LEntry>, i: nat)
    requires i <= |tree| && ListTags(tree)
    ensures ListParas(BuildFrom(tree, i)) == ItemsOf(tree[i..])
    decreases tree, |tree| - i, 1
  {
    if i < |tree| {
      match tree[i]
      case Nested(sub) =>
        BuildListKeepsParagraphs(sub);
        BuildFromParas(tree, i + 1);
        NestedParasStep(tree, i);
      case Item(tag, attrs, _) =>
        var j := GroupEnd(tree, tag, attrs, i + 1);
        LisParas(tree, i, j);
        BuildFromParas(tree, j);
        ItemParasStep(tree, i, j);
    }
  }

  /** The step of `BuildFromParas` at a nested list. */
  lemma NestedParasStep(tree: seq<LEntry>, i: nat)
    requires i < |tree| && tree[i].Nested?
    requires ListParas(BuildList(tree[i].entries)) == ItemsOf(tree[i].entries)
    requires ListParas(BuildFrom(tree, i + 1)) == ItemsOf(tree[i + 1..])
    ensures ListParas(BuildFrom(tree, i)) == ItemsOf(tree[i..])
  {
    assert tree[i..] == [tree[i]] + tree[i + 1..];
    var blk := Elem(".block", map[], BuildList(tree[i].entries));
    calc {
      ListParas(BuildFrom(tree, i));
      ListParas([blk] + BuildFrom(tree, i + 1));
      NodeParas(blk) + ListParas(BuildFrom(tree, i + 1));
      ItemsOf(tree[i].entries) + ItemsOf(tree[i + 1..]);
      EntryItems(tree[i]) + ItemsOf(tree[i + 1..]);
      ItemsOf(tree[i..]);
    }
  }

  /** The step of `BuildFromParas` at a run of items, `j` being where the
      run ends. */
  lemma ItemParasStep(tree: seq<LEntry>, i: nat, j: nat)
    requires i < |tree| && tree[i].Item? && tree[i].tag != ".block"
    requires j == GroupEnd(tree, tree[i].tag, tree[i].attrs, i + 1)
    requires LiParas(Lis(tree, i, j)) == ItemsOf(tree[i..j])
    requires ListParas(BuildFrom(tree, j)) == ItemsOf(tree[j..])
    ensures ListParas(BuildFrom(tree, i)) == ItemsOf(tree[i..])
  {
    var lst := Elem(tree[i].tag, tree[i].attrs, Lis(tree, i, j));
    var rest := BuildFrom(tree, j);
    assert BuildFrom(tree, i) == [lst] + rest;
    ListParasConcat([lst], rest);
    assert [lst][1..] == [];
    assert ListParas([lst]) == NodeParas(lst) + ListParas([]);
    assert NodeParas(lst) == LiParas(Lis(tree, i, j));
    assert tree[i..] == tree[i..j] + tree[j..];
    ItemsConcat(tree[i..j], tree[j..]);
  }

  lemma {:induction false} LisParas(tree: seq<LEntry>, i: nat, j: nat)
    requires i < j <= |tree| && tree[i].Item? && ListTags(tree)
    ensures LiParas(Lis(tree, i, j)) == ItemsOf(tree[i..j])
    decreases tree, |tree| - i, 0, j
  {
    if j == i + 1 {
      LisParasOne(tree, i);
    } else {
      LisParas(tree, i, j - 1);
      if tree[j - 1].Item? {
        LisParasItem(tree, i, j);
      } else {
        BuildListKeepsParagraphs(tree[j - 1].entries);
        LisParasNested(tree, i, j);
      }
    }
  }

  lemma LisParasOne(tree: seq<LEntry>, i: nat)
    requires i < |tree| && tree[i].Item?
    ensures LiParas(Lis(tree, i, i + 1)) == ItemsOf(tree[i..i + 1])
  {
    assert tree[i..i + 1] == [tree[i]];
    assert [tree[i]][1..] == [];
    LiParasSingle(Li(tree[i].p));
    assert LiPara(Li(tree[i].p)) == [tree[i].p] + ListParas([]);
  }

  lemma ItemsSliceSnoc(tree: seq<LEntry>, i: nat, j: nat)
    requires i < j <= |tree|
    ensures ItemsOf(tree[i..j]) == ItemsOf(tree[i..j - 1]) + EntryItems(tree[j - 1])
  {
    assert tree[i..j] == tree[i..j - 1] + [tree[j - 1]];
    ItemsConcat(tree[i..j - 1], [tree[j - 1]]);
    assert ItemsOf([tree[j - 1]]) == EntryItems(tree[j - 1]) + ItemsOf([]);
  }

  lemma LisParasItem(tree: seq<LEntry>, i: nat, j: nat)
    requires i + 1 < j <= |tree| && tree[i].Item? && tree[j - 1].Item?
    requires LiParas(Lis(tree, i, j - 1)) == ItemsOf(tree[i..j - 1])
    ensures LiParas(Lis(tree, i, j)) == ItemsOf(tree[i..j])
  {
    var prev := Lis(tree, i, j - 1);
    var p := tree[j - 1].p;
    assert Lis(tree, i, j) == prev + [Li(p)];
    LiParasConcat(prev, [Li(p)]);
    assert [Li(p)][1..] == [];
    assert LiPara(Li(p)) == [p] + ListParas([]);
    ItemsSliceSnoc(tree, i, j);
  }

  lemma LisParasNested(tree: seq<LEntry>, i: nat, j: nat)
    requires i + 1 < j <= |tree| && tree[i].Item? && tree[j - 1].Nested?
    requires LiParas(Lis(tree, i, j - 1)) == ItemsOf(tree[i..j - 1])
    requires ListParas(BuildList(tree[j - 1].entries)) == ItemsOf(tree[j - 1].entries)
    ensures LiParas(Lis(tree, i, j)) == ItemsOf(tree[i..j])
  {
    var prev := Lis(tree, i, j - 1);
    var sub := tree[j - 1].entries;
    var more := BuildList(sub);
    assert LiParas(ExtendLast(prev, more)) == LiParas(prev) + ListParas(more) by {
      ExtendLastParas(prev, more);
    }
    assert Lis(tree, i, j) == ExtendLast(prev, more);
    assert ItemsOf(tree[i..j]) == ItemsOf(tree[i..j - 1]) + ItemsOf(sub) by {
      ItemsSliceSnoc(tree, i, j);
    }
  }

  // ----- the as-written builder against the intended one

  /** The lists `build_list` as written accepts: at no depth does a list
      with more than one entry start with a sublist. */
  predicate Buildable(tree: seq<LEntry>)
    decreases tree
  {
    !(|tree| > 1 && tree[0].Nested?) && SubsBuildable(tree, 0, |tree|)
  }

  predicate SubsBuildable(tree: seq<LEntry>, i: nat, j: nat)
    requires i <= j <= |tree|
    decreases tree, 0
  {
    forall k :: i <= k < j && tree[k].Nested? ==> Buildable(tree[k].entries)
  }

  /** As written, `build_list` fails with `ValueError` exactly on the
      trees that are not `Buildable`, and otherwise builds what the
      intended builder builds. */
  lemma {:induction false} AsWrittenAgrees(tree: seq<LEntry>)
    ensures BuildListAsWritten(tree) == if Buildable(tree) then Ok(BuildList(tree)) else Err("ValueError")
    decreases tree, |tree|, 2
  {
    FromAgrees(tree, 0);
  }

  lemma {:induction false} FromAgrees(tree: seq<LEntry>, i: nat)
    requires i <= |tree|
    ensures BuildFromAsWritten(tree, i) ==
      if !(i + 1 < |tree| && tree[i].Nested?) && SubsBuildable(tree, i, |tree|)
      then Ok(BuildFrom(tree, i)) else Err("ValueError")
    decreases tree, |tree| - i, 1
  {
    if i < |tree| {
      match tree[i]
      case Nested(sub) =>
        if i + 1 == |tree| {
          AsWrittenAgrees(sub);
          assert SubsBuildable(tree, i, |tree|) == Buildable(sub);
          assert BuildFrom(tree, i + 1) == [];
          assert BuildFrom(tree, i) == [Elem(".block", map[], BuildList(sub))];
          if Buildable(sub) {
            assert BuildFromAsWritten(tree, i) == Ok([Elem(".block", map[], BuildList(sub))]);
          } else {
            assert BuildFromAsWritten(tree, i) == Err("ValueError");
          }
        }
      case Item(tag, attrs, _) =>
        var j := GroupEnd(tree, tag, attrs, i + 1);
        LisAgrees(tree, i, j);
        FromAgrees(tree, j);
        SubsSplit(tree, i, j, |tree|);
    }
  }

  lemma SubsSplit(tree: seq<LEntry>, i: nat, j: nat, k: nat)
    requires i <= j <= k <= |tree|
    ensures SubsBuildable(tree, i, k) == (SubsBuildable(tree, i, j) && SubsBuildable(tree, j, k))
  {
  }

  lemma {:induction false} LisAgrees(tree: seq<LEntry>, i: nat, j: nat)
    requires i < j <= |tree| && tree[i].Item?
    ensures LisAsWritten(tree, i, j) ==
      if SubsBuildable(tree, i, j) then Ok(Lis(tree, i, j)) else Err("ValueError")
    decreases tree, |tree| - i, 0, j
  {
    if j > i + 1 {
      LisAgrees(tree, i, j - 1);
      SubsSplit(tree, i, j - 1, j);
      if tree[j - 1].Nested? {
        AsWrittenAgrees(tree[j - 1].entries);
      }
    }
  }

  // ----- examples

  /** Paragraphs of one list type make one list. */
  lemma BuildListOneGroup(tag: string, attrs: WAttrs, p: Node, q: Node)
    ensures BuildList([Item(tag, attrs, p), Item(tag, attrs, q)]) == [Elem(tag, attrs, [Li(p), Li(q)])]
  {
    var tree := [Item(tag, attrs, p), Item(tag, attrs, q)];
    assert GroupEnd(tree, tag, attrs, 2) == 2;
    assert GroupEnd(tree, tag, attrs, 1) == 2;
    assert Lis(tree, 0, 1) == [Li(p)];
    assert Lis(tree, 0, 2) == [Li(p), Li(q)];
    assert BuildFrom(tree, 2) == [];
  }

  /** A change of list type starts a new list. */
  lemma BuildListSplits(tag: string, attrs: WAttrs, tag2: string, attrs2: WAttrs, p: Node, q: Node)
    requires tag != tag2 || attrs != attrs2
    ensures BuildList([Item(tag, attrs, p), Item(tag2, attrs2, q)]) ==
      [Elem(tag, attrs, [Li(p)]), Elem(tag2, attrs2, [Li(q)])]
  {
    var tree := [Item(tag, attrs, p), Item(tag2, attrs2, q)];
    assert GroupEnd(tree, tag, attrs, 1) == 1;
    assert GroupEnd(tree, tag2, attrs2, 2) == 2;
    assert Lis(tree, 0, 1) == [Li(p)];
    assert Lis(tree, 1, 2) == [Li(q)];
    assert BuildFrom(tree, 2) == [];
    assert BuildFrom(tree, 1) == [Elem(tag2, attrs2, [Li(q)])];
  }

  /** A deeper paragraph goes into the `li` before it. */
  lemma BuildListNests(tag: string, attrs: WAttrs, tag2: string, attrs2: WAttrs, p: Node, q: Node)
    ensures BuildList([Item(tag, attrs, p), Nested([Item(tag2, attrs2, q)])]) ==
      [Elem(tag, attrs, [Elem("li", map[], [p, Elem(tag2, attrs2, [Li(q)])])])]
  {
    var sub := [Item(tag2, attrs2, q)];
    var tree := [Item(tag, attrs, p), Nested(sub)];
    assert GroupEnd(sub, tag2, attrs2, 1) == 1;
    assert Lis(sub, 0, 1) == [Li(q)];
    assert BuildFrom(sub, 1) == [];
    assert BuildList(sub) == [Elem(tag2, attrs2, [Li(q)])];
    assert GroupEnd(tree, tag, attrs, 2) == 2;
    assert GroupEnd(tree, tag, attrs, 1) == 2;
    assert Lis(tree, 0, 1) == [Li(p)];
    assert Lis(tree, 0, 2) == ExtendLast([Li(p)], BuildList(sub));
    assert [Li(p)][..0] == [];
    assert Li(p).body + BuildList(sub) == [p, Elem(tag2, attrs2, [Li(q)])];
    assert ExtendLast([Li(p)], BuildList(sub)) == [Elem("li", map[], [p, Elem(tag2, attrs2, [Li(q)])])];
    assert BuildFrom(tree, 2) == [];
  }

  /** A list that starts deeper than its successor: the intended builder
      wraps the orphan sublist in a `.block`; as written it fails. */
  lemma OrphanSublist(tag: string, attrs: WAttrs, p: Node, q: Node)
    ensures BuildList([Nested([Item(tag, attrs, p)]), Item(tag, attrs, q)]) ==
      [Elem(".block", map[], [Elem(tag, attrs, [Li(p)])]), Elem(tag, attrs, [Li(q)])]
    ensures BuildListAsWritten([Nested([Item(tag, attrs, p)]), Item(tag, attrs, q)]) == Err("ValueError")
  {
    var sub := [Item(tag, attrs, p)];
    var tree := [Nested(sub), Item(tag, attrs, q)];
    assert GroupEnd(sub, tag, attrs, 1) == 1;
    assert Lis(sub, 0, 1) == [Li(p)];
    assert BuildFrom(sub, 1) == [];
    assert BuildList(sub) == [Elem(tag, attrs, [Li(p)])];
    assert GroupEnd(tree, tag, attrs, 2) == 2;
    assert Lis(tree, 1, 2) == [Li(q)];
    assert BuildFrom(tree, 2) == [];
    assert BuildFrom(tree, 1) == [Elem(tag, attrs, [Li(q)])];
  }

  // ---------------------------------------------------------------------
  // ListBuilder: append_points, level, flush, process

  /** `append_points` can reach `depth` levels below the top-level list:
      each list on the way ends in the nested list that is the next. */
  predicate Reaches(tree: seq<LEntry>, depth: nat)
    decreases depth
  {
    depth == 0 || (tree != [] && tree[|tree| - 1].Nested? && Reaches(tree[|tree| - 1].entries, depth - 1))
  }

  /** `append_points` itself: the top-level list, then at each step the
      trailing nested list of the one before. */
  function Points(tree: seq<LEntry>, depth: nat): (r: seq<seq<LEntry>>)
    requires Reaches(tree, depth)
    ensures |r| == depth + 1 && r[0] == tree
    ensures forall k :: 0 <= k < depth ==> r[k] != [] && r[k][|r[k]| - 1] == Nested(r[k + 1])
    decreases depth
  {
    if depth == 0 then [tree]
    else [tree] + Points(tree[|tree| - 1].entries, depth - 1)
  }

  /** `append_points[depth].append(x)`, seen from the top-level list. */
  function AppendAt(tree: seq<LEntry>, depth: nat, x: LEntry): (r: seq<LEntry>)
    requires Reaches(tree, depth)
    decreases depth
  {
    if depth == 0 then tree + [x]
    else tree[..|tree| - 1] + [Nested(AppendAt(tree[|tree| - 1].entries, depth - 1, x))]
  }

  /** `x` wrapped in `k` fresh nested lists. */
  function Nest(k: nat, x: LEntry): LEntry
  {
    if k == 0 then x else Nested([Nest(k - 1, x)])
  }

  /** The lists after `k` pushes from depth `f`: each push appends an
      empty list at the deepest point, which becomes the new point. */
  function Pushed(tree: seq<LEntry>, f: nat, k: nat): seq<LEntry>
    requires Reaches(tree, f)
  {
    if k == 0 then tree else AppendAt(tree, f, Nest(k - 1, Nested([])))
  }

  lemma ReachesLess(tree: seq<LEntry>, d: nat, e: nat)
    requires Reaches(tree, d) && e <= d
    ensures Reaches(tree, e)
    decreases e
  {
    if e > 0 {
      ReachesLess(tree[|tree| - 1].entries, d - 1, e - 1);
    }
  }

  lemma NestReaches(k: nat, x: LEntry, e: nat)
    requires Reaches([x], e)
    ensures Reaches([Nest(k, x)], k + e)
    decreases k
  {
    if k > 0 {
      NestReaches(k - 1, x, e);
    }
  }

  lemma AppendReaches(tree: seq<LEntry>, f: nat, x: LEntry, e: nat)
    requires Reaches(tree, f) && Reaches([x], e)
    ensures Reaches(AppendAt(tree, f, x), f + e)
    decreases f
  {
    if f > 0 {
      AppendReaches(tree[|tree| - 1].entries, f - 1, x, e);
    } else if e > 0 {
      assert (tree + [x])[|tree|] == x;
    }
  }

  lemma SnocParts(init: seq<LEntry>, z: LEntry)
    ensures (init + [z])[..|init|] == init && (init + [z])[|init|] == z
  {
  }

  /** Appending below the last entry leaves the entries before it alone. */
  lemma AppendBelowLast(init: seq<LEntry>, y: LEntry, d: nat, x: LEntry)
    requires d > 0 && Reaches([y], d)
    ensures Reaches(init + [y], d)
    ensures AppendAt(init + [y], d, x) == init + AppendAt([y], d, x)
  {
    SnocParts(init, y);
    SnocParts([], y);
  }

  /** Appending into `k` fresh lists at their depth gives `x` wrapped in
      `k` lists. */
  lemma {:induction false} AppendIntoNest(k: nat, x: LEntry)
    requires k > 0
    ensures Reaches([Nest(k - 1, Nested([]))], k)
    ensures AppendAt([Nest(k - 1, Nested([]))], k, x) == [Nest(k, x)]
    decreases k
  {
    assert Reaches([Nested([])], 1);
    NestReaches(k - 1, Nested([]), 1);
    SnocParts([], Nest(k - 1, Nested([])));
    if k == 1 {
      assert AppendAt([], 0, x) == [x];
    } else {
      AppendIntoNest(k - 1, x);
      assert Nest(k - 1, Nested([])).entries == [Nest(k - 2, Nested([]))];
    }
  }

  /** Pushing `k` lists and appending `x` at the new depth is appending `x`
      wrapped in `k` lists at the old one. */
  lemma {:induction false} AppendAfterPushes(tree: seq<LEntry>, f: nat, k: nat, x: LEntry)
    requires Reaches(tree, f)
    ensures Reaches(Pushed(tree, f, k), f + k)
    ensures AppendAt(Pushed(tree, f, k), f + k, x) == AppendAt(tree, f, Nest(k, x))
    decreases f, k
  {
    if k > 0 {
      var y := Nest(k - 1, Nested([]));
      assert Reaches([Nested([])], 1);
      NestReaches(k - 1, Nested([]), 1);
      AppendReaches(tree, f, y, k);
      if f == 0 {
        AppendBelowLast(tree, y, k, x);
        AppendIntoNest(k, x);
      } else {
        AppendAfterPushesDeeper(tree, f, k, x);
      }
    }
  }

  lemma {:induction false} AppendAfterPushesDeeper(tree: seq<LEntry>, f: nat, k: nat, x: LEntry)
    requires Reaches(tree, f) && f > 0 && k > 0
    requires Reaches(Pushed(tree, f, k), f + k)
    ensures AppendAt(Pushed(tree, f, k), f + k, x) == AppendAt(tree, f, Nest(k, x))
    decreases f, 0
  {
    var last := tree[|tree| - 1];
    var init := tree[..|tree| - 1];
    var inner := Pushed(last.entries, f - 1, k);
    AppendAfterPushes(last.entries, f - 1, k, x);
    var t := Pushed(tree, f, k);
    assert t == init + [Nested(inner)];
    SnocParts(init, Nested(inner));
    calc {
      AppendAt(t, f + k, x);
      init + [Nested(AppendAt(inner, f - 1 + k, x))];
      init + [Nested(AppendAt(last.entries, f - 1, Nest(k, x)))];
      AppendAt(tree, f, Nest(k, x));
    }
  }

  /** Where `process` puts a paragraph of level `lvl` when the deepest list
      is at depth `f`: pushes wrap it in new lists, pops append it higher. */
  function Placed(tree: seq<LEntry>, f: nat, lvl: nat, x: LEntry): (r: seq<LEntry>)
    requires Reaches(tree, f)
    ensures Reaches(r, lvl)
  {
    if lvl >= f then
      NestReaches(lvl - f, x, 0);
      AppendReaches(tree, f, Nest(lvl - f, x), lvl - f);
      AppendAt(tree, f, Nest(lvl - f, x))
    else
      ReachesLess(tree, f, lvl);
      AppendReaches(tree, lvl, x, 0);
      AppendAt(tree, lvl, x)
  }

  /** A list paragraph at level 1 on a fresh builder, then one at level 0,
      leave the tree `[[x], y]`, which is not `Buildable`: the next
      paragraph without numbering makes `process` raise `ValueError`. */
  lemma OrphanSublistPlaced(x: LEntry, y: LEntry)
    ensures Placed([], 0, 1, x) == [Nested([x])]
    ensures Placed([Nested([x])], 1, 0, y) == [Nested([x]), y]
    ensures !Buildable([Nested([x]), y])
  {
    assert Nest(1, x) == Nested([x]);
  }

  /** Appending anywhere along `append_points` adds the entry's paragraphs
      after all others. */
  lemma {:induction false} ItemsAppendAt(tree: seq<LEntry>, d: nat, x: LEntry)
    requires Reaches(tree, d)
    ensures ItemsOf(AppendAt(tree, d, x)) == ItemsOf(tree) + EntryItems(x)
    decreases d
  {
    if d == 0 {
      ItemsConcat(tree, [x]);
      assert ItemsOf([x]) == EntryItems(x) + ItemsOf([]);
    } else {
      var init := tree[..|tree| - 1];
      var last := tree[|tree| - 1];
      var inner := AppendAt(last.entries, d - 1, x);
      assert tree == init + [last];
      ItemsAppendAt(last.entries, d - 1, x);
      calc {
        ItemsOf(AppendAt(tree, d, x));
        ItemsOf(init + [Nested(inner)]);
        { ItemsConcat(init, [Nested(inner)]); }
        ItemsOf(init) + ItemsOf([Nested(inner)]);
        ItemsOf(init) + (ItemsOf(inner) + ItemsOf([]));
        ItemsOf(init) + (ItemsOf(last.entries) + EntryItems(x));
        ItemsOf(init) + (EntryItems(last) + ItemsOf([])) + EntryItems(x);
        ItemsOf(init) + ItemsOf([last]) + EntryItems(x);
        { ItemsConcat(init, [last]); }
        ItemsOf(tree) + EntryItems(x);
      }
    }
  }

  lemma NestItems(k: nat, x: LEntry)
    ensures EntryItems(Nest(k, x)) == EntryItems(x)
    decreases k
  {
    if k > 0 {
      NestItems(k - 1, x);
      assert ItemsOf([Nest(k - 1, x)]) == EntryItems(Nest(k - 1, x)) + ItemsOf([]);
    }
  }

  /** Whatever the level, each paragraph is placed after all earlier ones. */
  lemma PlacedItems(tree: seq<LEntry>, f: nat, lvl: nat, x: LEntry)
    requires Reaches(tree, f)
    ensures ItemsOf(Placed(tree, f, lvl, x)) == ItemsOf(tree) + EntryItems(x)
  {
    if lvl >= f {
      ItemsAppendAt(tree, f, Nest(lvl - f, x));
      NestItems(lvl - f, x);
    } else {
      ReachesLess(tree, f, lvl);
      ItemsAppendAt(tree, lvl, x);
    }
  }

  /** The paragraph lands at the end of `append_points[lvl]`: in a fresh
      list when the level went up, after the siblings already there when
      it did not. */
  lemma PlacedAtPoint(tree: seq<LEntry>, f: nat, lvl: nat, x: LEntry)
    requires Reaches(tree, f)
    ensures var r := Placed(tree, f, lvl, x);
      var pts := Points(r, lvl);
      pts[lvl] == (if lvl > f then [x] else (ReachesLess(tree, f, lvl); Points(tree, lvl)[lvl] + [x]))
  {
    if lvl > f {
      PlacedDeeper(tree, f, lvl, x);
    } else {
      ReachesLess(tree, f, lvl);
      PointsAppend(tree, lvl, x);
    }
  }

  lemma PlacedDeeper(tree: seq<LEntry>, f: nat, lvl: nat, x: LEntry)
    requires Reaches(tree, f) && lvl > f
    ensures Points(Placed(tree, f, lvl, x), lvl)[lvl] == [x]
  {
    var t := Pushed(tree, f, lvl - f);
    PlacedAfterPushes(tree, f, lvl, x);
    PushedPointAt(tree, f, lvl);
    PointsAppend(t, lvl, x);
  }

  /** Placing deeper is pushing, then appending at the new depth. */
  lemma PlacedAfterPushes(tree: seq<LEntry>, f: nat, lvl: nat, x: LEntry)
    requires Reaches(tree, f) && lvl > f
    ensures Reaches(Pushed(tree, f, lvl - f), lvl)
    ensures Placed(tree, f, lvl, x) == AppendAt(Pushed(tree, f, lvl - f), lvl, x)
  {
    var k := lvl - f;
    assert Placed(tree, f, lvl, x) == AppendAt(tree, f, Nest(k, x));
    assert Reaches(Pushed(tree, f, k), lvl) && AppendAt(Pushed(tree, f, k), lvl, x) == AppendAt(tree, f, Nest(k, x)) by {
      AppendAfterPushes(tree, f, k, x);
      assert f + k == lvl;
    }
  }

  lemma PushedPointAt(tree: seq<LEntry>, f: nat, lvl: nat)
    requires Reaches(tree, f) && lvl > f
    ensures Reaches(Pushed(tree, f, lvl - f), lvl)
    ensures Points(Pushed(tree, f, lvl - f), lvl)[lvl] == []
  {
    var k := lvl - f;
    PushedPoint(tree, f, k);
    assert f + k == lvl;
  }

  /** After appending at depth `d`, the point at `d` is the old one with the
      entry added. */
  lemma {:induction false} PointsAppend(tree: seq<LEntry>, d: nat, x: LEntry)
    requires Reaches(tree, d)
    ensures Reaches(AppendAt(tree, d, x), d)
    ensures Points(AppendAt(tree, d, x), d)[d] == Points(tree, d)[d] + [x]
    decreases d
  {
    assert Reaches([x], 0);
    AppendReaches(tree, d, x, 0);
    if d > 0 {
      var last := tree[|tree| - 1];
      var t := AppendAt(tree, d, x);
      assert t[|t| - 1] == Nested(AppendAt(last.entries, d - 1, x));
      PointsAppend(last.entries, d - 1, x);
    }
  }

  /** The points below the last entry do not depend on the entries before. */
  lemma PointsBelowLast(init: seq<LEntry>, y: LEntry, d: nat)
    requires d > 0 && Reaches([y], d)
    ensures Reaches(init + [y], d)
    ensures Points(init + [y], d)[d] == Points([y], d)[d]
  {
    SnocParts(init, y);
    SnocParts([], y);
    assert Points(init + [y], d)[d] == Points(y.entries, d - 1)[d - 1];
    assert Points([y], d)[d] == Points(y.entries, d - 1)[d - 1];
  }

  /** After `k` pushes from depth `f`, the point at `f + k` is empty. */
  lemma {:induction false} PushedPoint(tree: seq<LEntry>, f: nat, k: nat)
    requires Reaches(tree, f) && k > 0
    ensures Reaches(Pushed(tree, f, k), f + k)
    ensures Points(Pushed(tree, f, k), f + k)[f + k] == []
    decreases f, 1
  {
    if f == 0 {
      PushedPointTop(tree, k);
    } else {
      PushedPointDeeper(tree, f, k);
    }
  }

  lemma PushedPointTop(tree: seq<LEntry>, k: nat)
    requires k > 0
    ensures Reaches(Pushed(tree, 0, k), k)
    ensures Points(Pushed(tree, 0, k), k)[k] == []
  {
    var y := Nest(k - 1, Nested([]));
    assert Pushed(tree, 0, k) == tree + [y];
    NestPoint(k - 1);
    PointsBelowLast(tree, y, k);
  }

  lemma PushedSplit(tree: seq<LEntry>, f: nat, k: nat)
    requires Reaches(tree, f) && f > 0 && k > 0
    ensures Pushed(tree, f, k) == tree[..|tree| - 1] + [Nested(Pushed(tree[|tree| - 1].entries, f - 1, k))]
  {
  }

  lemma {:induction false} PushedPointDeeper(tree: seq<LEntry>, f: nat, k: nat)
    requires Reaches(tree, f) && f > 0 && k > 0
    ensures Reaches(Pushed(tree, f, k), f + k)
    ensures Points(Pushed(tree, f, k), f + k)[f + k] == []
    decreases f, 0
  {
    var last := tree[|tree| - 1];
    var init := tree[..|tree| - 1];
    var inner := Pushed(last.entries, f - 1, k);
    var d := f - 1 + k;
    PushedPoint(last.entries, f - 1, k);
    PushedSplit(tree, f, k);
    PointsBelowLast(init, Nested(inner), d + 1);
    assert Points([Nested(inner)], d + 1)[d + 1] == Points(inner, d)[d];
  }

  lemma {:induction false} NestPoint(k: nat)
    ensures Reaches([Nest(k, Nested([]))], k + 1)
    ensures Points([Nest(k, Nested([]))], k + 1)[k + 1] == []
    decreases k
  {
    assert Reaches([Nested([])], 1);
    NestReaches(k, Nested([]), 1);
    if k > 0 {
      NestPoint(k - 1);
    }
  }

  /** One more push: an empty list appended at the deepest point. */
  lemma PushStep(tree: seq<LEntry>, f: nat, k: nat)
    requires Reaches(tree, f)
    ensures Reaches(Pushed(tree, f, k), f + k)
    ensures AppendAt(Pushed(tree, f, k), f + k, Nested([])) == Pushed(tree, f, k + 1)
    ensures Reaches(Pushed(tree, f, k + 1), f + k + 1)
  {
    AppendAfterPushes(tree, f, k, Nested([]));
    AppendAfterPushes(tree, f, k + 1, Nested([]));
  }

  /** `ListBuilder`. `lists` is the tree of entries; `append_points` is not
      stored but determined by `level`, the depth of its last list (`-1`
      once it was popped empty), as `AppendPoints()`; `inList` records a
      list paragraph since the last flush. The document the numbering
      styles come from is a parameter of `Process`. */
  class ListBuilder {
    var lists: seq<LEntry>
    var level: int
    var inList: bool

    ghost predicate Valid()
      reads this
    {
      level >= -1 && (level >= 0 ==> Reaches(lists, level))
    }

    /** `append_points`: the top-level list, then each trailing nested one
        down to `level`. */
    ghost function AppendPoints(): (r: seq<seq<LEntry>>)
      reads this
      requires Valid()
      ensures |r| == level + 1
      ensures level >= 0 ==> r[0] == lists
      ensures forall k :: 0 <= k < level ==> r[k] != [] && r[k][|r[k]| - 1] == Nested(r[k + 1])
    {
      if level < 0 then [] else Points(lists, level)
    }

    /** `__init__` and `reset`: no lists, one point, not in a list. */
    constructor()
      ensures Valid() && lists == [] && level == 0 && !inList
    {
      lists := [];
      level := 0;
      inList := false;
    }

    method Reset()
      modifies this
      ensures Valid() && lists == [] && level == 0 && !inList
    {
      lists := [];
      level := 0;
      inList := false;
    }

    /** `flush`: after a list paragraph, `build_list(self.lists)` as
        written, which raises `ValueError` on a tree that is not
        `Buildable`, and a reset in the `finally` either way; otherwise
        nothing, and nothing changes.  On a buildable tree the lists are
        those of the intended builder. */
    method Flush() returns (r: Result<seq<Node>>)
      requires Valid()
      modifies this
      ensures Valid()
      ensures r == (if old(inList) then BuildListAsWritten(old(lists)) else Ok([]))
      ensures old(inList) && Buildable(old(lists)) ==> r == Ok(BuildList(old(lists)))
      ensures old(inList) && !Buildable(old(lists)) ==> r == Err("ValueError")
      ensures old(inList) ==> lists == [] && level == 0
      ensures !old(inList) ==> lists == old(lists) && level == old(level)
      ensures !inList
    {
      if inList {
        AsWrittenAgrees(lists);
        r := BuildListAsWritten(lists);
        Reset();
      } else {
        r := Ok([]);
      }
    }

    /** `process(e, handle_p)` for a paragraph with numbering id `numid`
        (empty when it has none) and level `lvl`, whose numbering style
        has `numFmt` and `lvlText`; `handleP(inList)` is the converted
        paragraph. */
    method Process(numid: string, lvl: int, numFmt: string, lvlText: string, handleP: bool -> Node)
      returns (r: Result<seq<Node>>)
      requires Valid()
      modifies this
      ensures Valid()
      ensures numid == "" ==>
        var built := if old(inList) then BuildListAsWritten(old(lists)) else Ok([]);
        r == (if built.Ok? then Ok(built.value + [handleP(false)]) else Err(built.error)) && !inList &&
        (old(inList) ==> lists == [] && level == 0) &&
        (!old(inList) ==> lists == old(lists) && level == old(level))
      ensures numid == "" && old(inList) && Buildable(old(lists)) ==>
        r == Ok(BuildList(old(lists)) + [handleP(false)])
      ensures numid == "" && old(inList) && !Buildable(old(lists)) ==> r == Err("ValueError")
      ensures numid != "" ==> inList
      ensures numid != "" && (old(level) < 0 || lvl < 0) ==>
        r == Err("IndexError") && lists == old(lists) && level == -1
      ensures numid != "" && old(level) >= 0 && lvl >= 0 ==>
        var ty := ListType(numFmt, lvlText, lvl);
        r == Ok([]) && level == lvl &&
        lists == Placed(old(lists), old(level), lvl, Item(ty.0, ty.1, handleP(true))) &&
        ItemsOf(lists) == ItemsOf(old(lists)) + [handleP(true)]
    {
      if numid == "" {
        var done := Flush();
        if done.Err? {
          return Err(done.error);
        }
        return Ok(done.value + [handleP(false)]);
      }
      r := ProcessNumbered(lvl, numFmt, lvlText, handleP(true));
    }

    /** The rest of `process` for a numbered paragraph `p`: move
        `append_points` to level `lvl`, then append the paragraph with its
        list type there. */
    method ProcessNumbered(lvl: int, numFmt: string, lvlText: string, p: Node) returns (r: Result<seq<Node>>)
      requires Valid()
      modifies this
      ensures Valid() && inList
      ensures old(level) < 0 || lvl < 0 ==> r == Err("IndexError") && lists == old(lists) && level == -1
      ensures old(level) >= 0 && lvl >= 0 ==>
        var ty := ListType(numFmt, lvlText, lvl);
        r == Ok([]) && level == lvl &&
        lists == Placed(old(lists), old(level), lvl, Item(ty.0, ty.1, p)) &&
        ItemsOf(lists) == ItemsOf(old(lists)) + [p]
    {
      inList := true;
      ghost var f := level;
      ghost var k: nat := 0;
      while lvl != level
        invariant Valid() && inList
        invariant f < 0 ==> level == f && lists == old(lists)
        invariant f >= 0 && lvl > f ==> level == f + k <= lvl && lists == Pushed(old(lists), f, k)
        invariant f >= 0 && lvl <= f ==> lists == old(lists) && level <= f && (lvl >= 0 ==> lvl <= level)
        decreases if lvl > level then lvl - level else level - lvl
      {
        if level < 0 {
          return Err("IndexError");
        }
        if lvl > level {
          PushStep(old(lists), f, k);
          Push();
          k := k + 1;
        } else {
          Pop();
        }
      }
      if level < 0 {
        return Err("IndexError");
      }
      var ty := ListType(numFmt, lvlText, lvl);
      var x := Item(ty.0, ty.1, p);
      if lvl > f {
        PlacedAfterPushes(old(lists), f, lvl, x);
      }
      PlacedItems(old(lists), f, lvl, x);
      Append(x);
      return Ok([]);
    }

    /** `append_points[-1].append([])` and push it: one level deeper. */
    method Push()
      requires Valid() && level >= 0
      modifies this
      ensures Valid() && level == old(level) + 1 && inList == old(inList)
      ensures lists == AppendAt(old(lists), old(level), Nested([]))
    {
      assert Reaches([Nested([])], 1);
      AppendReaches(lists, level, Nested([]), 1);
      lists := AppendAt(lists, level, Nested([]));
      level := level + 1;
    }

    /** `append_points.pop()`: one level shallower; the lists are kept. */
    method Pop()
      requires Valid() && level >= 0
      modifies this
      ensures Valid() && level == old(level) - 1 && lists == old(lists) && inList == old(inList)
    {
      if level > 0 {
        ReachesLess(lists, level, level - 1);
      }
      level := level - 1;
    }

    /** `append_points[self.level].append(x)`. */
    method Append(x: LEntry)
      requires Valid() && level >= 0
      modifies this
      ensures Valid() && level == old(level) && inList == old(inList)
      ensures lists == AppendAt(old(lists), old(level), x)
    {
      assert Reaches([x], 0);
      AppendReaches(lists, level, x, 0);
      lists := AppendAt(lists, level, x);
    }
  }

  // ---------------------------------------------------------------------
  // apply_html_style: add one run property to a `w:r` element
  // ---------------------------------------------------------------------

  /** The tags `apply_html_style` knows. */
  const HTML_STYLE_TAGS: set<string> := {"u", "b", "s", "i"}

  /** The run property element for each of those tags. */
  function RunProp(tag: string): (r: Node)
    requires tag in HTML_STYLE_TAGS
    ensures r.Elem? && r.body == [] && r.attrs.Keys == {"w:val"}
    ensures tag == "u" <==> r.attrs["w:val"] == Str("single")
  {
    var one: WAttrs := map["w:val" := Str("1")];
    match tag
    case "u" => var single: WAttrs := map["w:val" := Str("single")]; Elem("w:u", single, [])
    case "b" => Elem("w:b", one, [])
    case "s" => Elem("w:strike", one, [])
    case "i" => Elem("w:i", one, [])
  }

  /** Whether a run's first child is its property element `w:rPr`. */
  predicate HasRPr(body: seq<Node>)
  {
    body != [] && body[0].Elem? && body[0].tag == "w:rPr"
  }

  /** The run properties already on a run body. */
  function PropsOf(body: seq<Node>): seq<Node>
  {
    if HasRPr(body) then body[0].body else []
  }

  /** A run body without its `w:rPr`. */
  function ContentOf(body: seq<Node>): seq<Node>
  {
    if HasRPr(body) then body[1..] else body
  }

  /** `apply_html_style(tag, run)`: the run keeps its tag, attributes and
      content and gains the property for `tag` after those it already had, in
      a single `w:rPr` as its first child.  An unknown tag is a `KeyError`,
      an empty body an `IndexError` (`b[0]`), a `w:rPr` with attributes an
      `AssertionError`.  A text node unpacks into three characters or fails
      to unpack (`ValueError`); three characters then fail on `list + str`
      (`TypeError`). */
  function ApplyHtmlStyle(tag: string, run: Node): (r: Result<Node>)
    ensures tag !in HTML_STYLE_TAGS ==> r == Err("KeyError")
    ensures run.Text? && tag in HTML_STYLE_TAGS ==>
      r == Err(if |run.text| == 3 then "TypeError" else "ValueError")
    ensures run.Elem? && tag in HTML_STYLE_TAGS ==>
      (r.Ok? <==> run.body != [] && !(HasRPr(run.body) && run.body[0].attrs != map[]))
    ensures run.Elem? && tag in HTML_STYLE_TAGS && run.body == [] ==> r == Err("IndexError")
    ensures r.Ok? ==>
      r.value.Elem? && r.value.tag == run.tag && r.value.attrs == run.attrs &&
      HasRPr(r.value.body) && r.value.body[0].attrs == map[] &&
      PropsOf(r.value.body) == PropsOf(run.body) + [RunProp(tag)] &&
      ContentOf(r.value.body) == ContentOf(run.body)
  {
    if tag !in HTML_STYLE_TAGS then Err("KeyError")
    else if run.Text? then Err(if |run.text| == 3 then "TypeError" else "ValueError")
    else if run.body == [] then Err("IndexError")
    else if HasRPr(run.body) && run.body[0].attrs != map[] then Err("AssertionError")
    else
      var none: WAttrs := map[];
      var rpr := Elem("w:rPr", none, PropsOf(run.body) + [RunProp(tag)]);
      Ok(Elem(run.tag, run.attrs, [rpr] + ContentOf(run.body)))
  }

  /** Applying a second style accumulates: both properties, in order, in one
      `w:rPr`, and the content is untouched. */
  lemma ApplyHtmlStyleTwice(t1: string, t2: string, run: Node)
    requires t1 in HTML_STYLE_TAGS && t2 in HTML_STYLE_TAGS
    requires ApplyHtmlStyle(t1, run).Ok?
    ensures ApplyHtmlStyle(t2, ApplyHtmlStyle(t1, run).value).Ok?
    ensures var r := ApplyHtmlStyle(t2, ApplyHtmlStyle(t1, run).value).value;
      PropsOf(r.body) == PropsOf(run.body) + [RunProp(t1), RunProp(t2)] &&
      ContentOf(r.body) == ContentOf(run.body)
  {
    var r1 := ApplyHtmlStyle(t1, run).value;
    assert r1.body != [];
    var r2 := ApplyHtmlStyle(t2, r1).value;
    assert PropsOf(r2.body) == PropsOf(r1.body) + [RunProp(t2)];
  }

  /** The docstring: bold, then italic, on a run holding `'...'`. */
  lemma ApplyHtmlStyleExample()
    ensures ApplyHtmlStyle("b", Elem("w:r", map[], [Text("...")])) ==
      Ok(Elem("w:r", map[], [Elem("w:rPr", map[], [RunProp("b")]), Text("...")]))
    ensures ApplyHtmlStyle("i", Elem("w:r", map[], [Elem("w:rPr", map[], [RunProp("b")]), Text("...")])) ==
      Ok(Elem("w:r", map[], [Elem("w:rPr", map[], [RunProp("b"), RunProp("i")]), Text("...")]))
  {
    var b, i, dots := RunProp("b"), RunProp("i"), Text("...");
    var run1 := Elem("w:r", map[], [dots]);
    var props1: seq<Node> := [];
    assert PropsOf(run1.body) == props1 && ContentOf(run1.body) == [dots];
    assert props1 + [b] == [b];
    var run2 := Elem("w:r", map[], [Elem("w:rPr", map[], [b]), dots]);
    assert [Elem("w:rPr", map[], [b])] + [dots] == run2.body;
    assert PropsOf(run2.body) == [b] && ContentOf(run2.body) == [dots];
    assert [b] + [i] == [b, i];
    assert [Elem("w:rPr", map[], [b, i])] + [dots] == [Elem("w:rPr", map[], [b, i]), dots];
  }

  // ---------------------------------------------------------------------
  // lift_code: a paragraph of nothing but code becomes one code element
  // ---------------------------------------------------------------------

  predicate IsCode(n: Node)
  {
    n.Elem? && n.tag == "code"
  }

  /** The children of `ns`'s elements, concatenated in order. */
  function Bodies(ns: seq<Node>): seq<Node>
  {
    if ns == [] then [] else Bodies(ns[..|ns| - 1]) + ChildrenOf(ns[|ns| - 1])
  }

  function ChildrenOf(n: Node): seq<Node>
  {
    if n.Elem? then n.body else []
  }

  /** Whether `lift_code` lifts: a `p` with no attributes whose children are
      all `code` elements (vacuously so when it has none). */
  predicate AllCodePara(para: Node)
  {
    para.Elem? && para.tag == "p" && para.attrs == map[] &&
    forall k :: 0 <= k < |para.body| ==> IsCode(para.body[k])
  }

  /** `lift_code(para)`: an all-code paragraph becomes a bare `code` element
      holding its code elements' children in order (their attributes are
      dropped); anything else comes back unchanged. */
  function LiftCode(para: Node): (r: Node)
    ensures AllCodePara(para) ==> r == Elem("code", map[], Bodies(para.body))
    ensures !AllCodePara(para) ==> r == para
  {
    if AllCodePara(para) then Elem("code", map[], Bodies(para.body)) else para
  }

  lemma BodiesConcat(xs: seq<Node>, ys: seq<Node>)
    ensures Bodies(xs + ys) == Bodies(xs) + Bodies(ys)
    decreases |ys|
  {
    if ys == [] {
      assert xs + ys == xs;
    } else {
      assert (xs + ys)[..|xs + ys| - 1] == xs + ys[..|ys| - 1];
      BodiesConcat(xs, ys[..|ys| - 1]);
    }
  }

  /** Lifting is idempotent: the result is never a `p`. */
  lemma LiftCodeIdempotent(para: Node)
    ensures LiftCode(LiftCode(para)) == LiftCode(para)
  {
  }

  /** A code-only paragraph made of two code runs gives one code element
      holding both runs' text, first run first. */
  lemma LiftCodeJoins(a: Node, b: Node)
    requires IsCode(a) && IsCode(b)
    ensures LiftCode(Elem("p", map[], [a, b])) == Elem("code", map[], a.body + b.body)
  {
    assert [a, b][..1] == [a];
    assert [a][..0] == [];
    assert Bodies([a]) == a.body;
    assert Bodies([a, b]) == a.body + b.body;
    assert AllCodePara(Elem("p", map[], [a, b]));
  }

  /** An empty paragraph is (vacuously) all code and becomes an empty code
      element; one with text directly inside it is kept. */
  lemma LiftCodeEdges(s: string, att: WAttrs)
    ensures LiftCode(Elem("p", map[], [])) == Elem("code", map[], [])
    ensures LiftCode(Elem("p", map[], [Text(s)])) == Elem("p", map[], [Text(s)])
    ensures att != map[] ==> LiftCode(Elem("p", att, [])) == Elem("p", att, [])
  {
    assert !IsCode([Text(s)][0]);
  }

  // ---------------------------------------------------------------------
  // hacky_flatten_block: a block holding just one paragraph
  // ---------------------------------------------------------------------

  /** Whether the block has the shape `('.block', _, [('p', _, _)])`. */
  predicate FlattensBlock(block: Node)
  {
    block.Elem? && block.tag == ".block" && |block.body| == 1 &&
    block.body[0].Elem? && block.body[0].tag == "p"
  }

  /** `hacky_flatten_block(block)`: a block whose one child is a paragraph
      takes the paragraph's body, with the paragraph's attributes merged into
      its own; anything else comes back unchanged. */
  function HackyFlattenBlock(block: Node): (r: Node)
    ensures !FlattensBlock(block) ==> r == block
    ensures FlattensBlock(block) ==>
      r.Elem? && r.tag == ".block" && r.body == block.body[0].body
  {
    if FlattensBlock(block) then
      var p := block.body[0];
      var merged: WAttrs := MergeAttrs(block.attrs, [p.attrs]);
      Elem(".block", merged, p.body)
    else block
  }

  /** The merged attributes: the block's classes then the paragraph's new
      ones, the block's style updated by the paragraph's, and for every other
      key the paragraph's value over the block's. */
  lemma HackyFlattenBlockAttrs(block: Node, k: string)
    requires FlattensBlock(block)
    ensures var a := block.attrs; var b := block.body[0].attrs;
      var r := HackyFlattenBlock(block).attrs;
      ClassesOf(r) == ClassesOf(a) + NotIn(ClassesOf(b), ClassesOf(a)) &&
      StyleOf(r) == StyleUpdate(StyleOf(a), StyleOf(b)) &&
      (k != CLASS && k != STYLE ==>
        (k in r <==> k in a || k in b) &&
        (k in b ==> r[k] == b[k]) &&
        (k in a && k !in b ==> r[k] == a[k]))
  {
    var a := block.attrs;
    var b := block.body[0].attrs;
    assert MergeAttrs(a, [b]) == MergeAttrs2(a, b) by {
      assert MergeAttrs(MergeAttrs2(a, b), [b][1..]) == MergeAttrs2(a, b);
    }
    MergeClasses(a, b);
    MergeStyle(a, b);
    if k != CLASS && k != STYLE {
      MergeOthers(a, b, k);
    }
  }
}
