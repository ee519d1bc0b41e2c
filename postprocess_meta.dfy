/** Metadata extraction of postprocess.py (`extract_meta` and the `_pop_*`
    helpers) and the `postprocess` pipeline.  The head is an OrderedDict,
    here an ordered list of key/value pairs. */
module PostprocessMeta {
  import opened Wrappers
  import opened PyStr
  import opened Internal
  import opened Postprocess
  import opened PostprocessPasses
  import opened PostprocessCites
  import opened PostprocessCommands
  import Literal
  import HtmlParser

  /** What the head holds under a key. */
  datatype MetaVal =
    /** A body: a tidied command body, or a (sub)title as its list of
        one-character strings. */
    | MBody(body: seq<Node>)
    /** The plaintext of a `dd`. */
    | MNode(node: Node)
    /** The `data-value` attribute of a `dd`. */
    | MAttr(value: AttrVal)
    | MLit(lit: Literal.LitVal)
    /** `literal.Image`: the image's `src` (its bytes and MIME type are
        read from transclusions, which this model does not hold) and the
        figure's style. */
    | MImage(src: AttrVal, style: seq<(string, string)>)

  type Head = seq<(string, MetaVal)>

  function Keys(h: Head): (r: seq<string>)
    ensures |r| == |h|
  {
    if h == [] then [] else [h[0].0] + Keys(h[1..])
  }

  /** `head.get(k)`. */
  function Get(h: Head, k: string): Option<MetaVal>
  {
    if h == [] then None else if h[0].0 == k then Some(h[0].1) else Get(h[1..], k)
  }

  /** `head[k] = v`. */
  function Put(h: Head, k: string, v: MetaVal): Head
  {
    if h == [] then [(k, v)]
    else if h[0].0 == k then [(k, v)] + h[1..]
    else [h[0]] + Put(h[1..], k, v)
  }

  lemma {:induction false} KeysAt(h: Head, i: nat)
    requires i < |h|
    ensures Keys(h)[i] == h[i].0
  {
    if i > 0 {
      KeysAt(h[1..], i - 1);
    }
  }

  lemma {:induction false} GetNone(h: Head, k: string)
    ensures Get(h, k).None? <==> k !in Keys(h)
  {
    if h != [] {
      GetNone(h[1..], k);
      assert Keys(h) == [h[0].0] + Keys(h[1..]);
    }
  }

  /** The value put is the one got back, ... */
  lemma {:induction false} PutGet(h: Head, k: string, v: MetaVal)
    ensures Get(Put(h, k, v), k) == Some(v)
  {
    if h != [] && h[0].0 != k {
      PutGet(h[1..], k, v);
    }
  }

  /** ... every other key keeps its value, ... */
  lemma {:induction false} PutOther(h: Head, k: string, v: MetaVal, k': string)
    requires k' != k
    ensures Get(Put(h, k, v), k') == Get(h, k')
  {
    if h != [] && h[0].0 != k {
      PutOther(h[1..], k, v, k');
    }
  }

  /** ... an existing key keeps its place, and a new one goes last. */
  lemma {:induction false} PutKeys(h: Head, k: string, v: MetaVal)
    ensures Keys(Put(h, k, v)) == if k in Keys(h) then Keys(h) else Keys(h) + [k]
  {
    if h != [] {
      assert Keys(h) == [h[0].0] + Keys(h[1..]);
      if h[0].0 != k {
        PutKeys(h[1..], k, v);
        assert Keys(Put(h, k, v)) == [h[0].0] + Keys(Put(h[1..], k, v));
      } else {
        assert Keys(Put(h, k, v)) == [k] + Keys(h[1..]);
      }
    }
  }

  predicate IsSuffix(s: seq<Node>, t: seq<Node>)
  {
    |s| <= |t| && s == t[|t| - |s|..]
  }

  predicate IsPrefix(s: seq<string>, t: seq<string>)
  {
    |s| <= |t| && s == t[..|s|]
  }

  lemma PutExtends(h: Head, k: string, v: MetaVal)
    ensures IsPrefix(Keys(h), Keys(Put(h, k, v)))
  {
    PutKeys(h, k, v);
  }

  lemma SuffixTrans(a: seq<Node>, b: seq<Node>, c: seq<Node>)
    requires IsSuffix(a, b) && IsSuffix(b, c)
    ensures IsSuffix(a, c)
  {
    assert c[|c| - |b|..][|b| - |a|..] == c[|c| - |a|..];
  }

  lemma SuffixCons(s: seq<Node>, t: seq<Node>)
    requires t != [] && IsSuffix(s, t[1..])
    ensures IsSuffix(s, t)
  {
    assert t[1..][|t| - 1 - |s|..] == t[|t| - |s|..];
  }

  lemma PrefixTrans(a: seq<string>, b: seq<string>, c: seq<string>)
    requires IsPrefix(a, b) && IsPrefix(b, c)
    ensures IsPrefix(a, c)
  {
    assert c[..|b|][..|a|] == c[..|a|];
  }

  // ---------------------------------------------------------------------
  // _pop_title_and_subtitle

  /** `space_normalize` of a string: it iterates over the characters, so
      the result is a list of one-character strings. A `[\n\r\t ]` becomes
      a space and sets `lstrip`; in that state `s.lstrip()` turns every
      whitespace character, not only the foldable ones, into `''`, which is
      dropped and keeps `lstrip` set. */
  function SpaceNormalizeChars(s: string, lstrip: bool): (r: seq<Node>)
    ensures forall i :: 0 <= i < |r| ==> r[i].Text? && |r[i].text| == 1
  {
    if s == [] then []
    else if IsFoldSpace(s[0]) then
      if lstrip then SpaceNormalizeChars(s[1..], true) else [Text(" ")] + SpaceNormalizeChars(s[1..], true)
    else if lstrip && IsSpace(s[0]) then SpaceNormalizeChars(s[1..], true)
    else [Text([s[0]])] + SpaceNormalizeChars(s[1..], false)
  }

  /** The strings of a body, concatenated. */
  function Chars(b: seq<Node>): string
  {
    if b == [] then "" else (if b[0].Text? then b[0].text else "") + Chars(b[1..])
  }

  /** The substitution `re.sub(r'[\n\r\t ]\s*', ' ', s, flags=re.UNICODE)`:
      a foldable space together with all the whitespace after it, in the
      sense of `unicode.isspace`, becomes one space. */
  function FoldSwallow(s: string): string
    decreases |s|
  {
    if s == [] then []
    else if IsFoldSpace(s[0]) then " " + FoldSwallow(LStrip(s[1..]))
    else [s[0]] + FoldSwallow(s[1..])
  }

  /** The characters of the normalised title are those of the substitution
      `FoldSwallow`, applied after `lstrip()` when that is pending. */
  lemma {:induction false} SpaceNormalizeCharsText(s: string, lstrip: bool)
    ensures Chars(SpaceNormalizeChars(s, lstrip)) == FoldSwallow(if lstrip then LStrip(s) else s)
    decreases |s|
  {
    if s != [] {
      var r := SpaceNormalizeChars(s, lstrip);
      if IsFoldSpace(s[0]) {
        SpaceNormalizeCharsText(s[1..], true);
        if !lstrip {
          assert r == [Text(" ")] + SpaceNormalizeChars(s[1..], true);
          assert r[1..] == SpaceNormalizeChars(s[1..], true);
        }
      } else if lstrip && IsSpace(s[0]) {
        SpaceNormalizeCharsText(s[1..], true);
      } else {
        SpaceNormalizeCharsText(s[1..], false);
        assert r[1..] == SpaceNormalizeChars(s[1..], false);
      }
    }
  }

  /** Every whitespace character of `s` is a foldable one. */
  predicate FoldWhitespaceOnly(s: string)
    decreases |s|
  {
    s == [] || ((IsSpace(s[0]) ==> IsFoldSpace(s[0])) && FoldWhitespaceOnly(s[1..]))
  }

  /** Where every whitespace character is a foldable one, the substitution
      is the plain folding `re.sub(r'[\n\r\t ]+', ' ', s)`. */
  lemma {:induction false} FoldSwallowIsCollapse(s: string)
    requires FoldWhitespaceOnly(s)
    ensures FoldSwallow(s) == CollapseSpace(s)
    decreases |s|
  {
    if s != [] {
      if IsFoldSpace(s[0]) {
        LStripIsDropFoldSpace(s[1..]);
        FoldSwallowIsCollapse(LStrip(s[1..]));
        HtmlParser.CollapseFoldHead(s);
      } else {
        FoldSwallowIsCollapse(s[1..]);
        HtmlParser.CollapseKeptHead(s);
      }
    }
  }

  /** Without any other whitespace, `lstrip()` drops just the foldable
      spaces, and what is left still has no other whitespace. */
  lemma {:induction false} LStripIsDropFoldSpace(s: string)
    requires FoldWhitespaceOnly(s)
    ensures LStrip(s) == DropFoldSpace(s) && FoldWhitespaceOnly(LStrip(s))
    decreases |s|
  {
    if s != [] && IsSpace(s[0]) {
      LStripIsDropFoldSpace(s[1..]);
    }
  }

  /** The title `A`, space, vertical tab, `B` is stored as `A`, space, `B`:
      the vertical tab after the folded space is stripped. */
  lemma VerticalTabAfterSpaceDropped(a: char, b: char)
    requires !IsSpace(a) && !IsSpace(b)
    ensures SpaceNormalizeChars([a, ' ', '\U{0b}', b], false) == [Text([a]), Text(" "), Text([b])]
  {
    var s := [a, ' ', '\U{0b}', b];
    assert s[1..] == [' ', '\U{0b}', b] && s[1..][1..] == ['\U{0b}', b];
    assert s[1..][1..][1..] == [b] && [b][1..] == [];
    assert SpaceNormalizeChars([b], true) == [Text([b])];
    assert SpaceNormalizeChars(['\U{0b}', b], true) == [Text([b])];
    assert SpaceNormalizeChars([' ', '\U{0b}', b], false) == [Text(" ")] + [Text([b])];
  }

  /** A vertical tab that follows a visible character is kept. */
  lemma VerticalTabAfterTextKept(a: char, b: char)
    requires !IsSpace(a) && !IsSpace(b)
    ensures SpaceNormalizeChars([a, '\U{0b}', b], false) == [Text([a]), Text("\U{0b}"), Text([b])]
  {
    var s := [a, '\U{0b}', b];
    assert s[1..] == ['\U{0b}', b] && s[1..][1..] == [b] && [b][1..] == [];
    assert SpaceNormalizeChars([b], false) == [Text([b])];
    assert SpaceNormalizeChars(['\U{0b}', b], false) == [Text("\U{0b}")] + [Text([b])];
  }

  /** Nothing is dropped from a string that is not empty. */
  lemma SpaceNormalizeCharsEmpty(s: string)
    ensures SpaceNormalizeChars(s, false) == [] <==> s == []
  {
  }

  /** `(tag, {}, BODY)` at the front; the alternative `(alt_h, {'class':
      tag}, BODY)` compares `class` with a bare string, which no tree holds
      (`class` is always a list). */
  predicate TitleAt(body: seq<Node>, tag: string)
  {
    |body| > 0 && body[0].Elem? && body[0].tag == tag && body[0].attrs == map[]
  }

  lemma AltHeadingNeverMatches(tag: string, a: WAttrs)
    ensures a != map["class" := Str(tag)]
  {
    assert !WellTyped(map["class" := Str(tag)]);
  }

  /** The (sub)title text: `space_normalize(plaintextify(BODY))`. */
  function TitleText(b: seq<Node>): (r: Result<seq<Node>>)
  {
    var p := Plaintextify(b);
    if p.Err? then Err(p.error)
    else if p.value.Elem? then Err("TypeError")
    else Ok(SpaceNormalizeChars(p.value.text, false))
  }

  /** One round of the `for` loop before the gunk is skipped: a matching
      element is popped, and its text stored only if it is not empty. */
  function PopTitle(body: seq<Node>, head: Head, tag: string): (r: Result<(seq<Node>, Head)>)
  {
    if TitleAt(body, tag) then
      var t := TitleText(body[0].body);
      if t.Err? then Err(t.error)
      else Ok((body[1..], if t.value != [] then Put(head, tag, MBody(t.value)) else head))
    else Ok((body, head))
  }

  /** `blank_flat_body`: after splicing inline elements and tidying, only
      blank strings are left. */
  function BlankFlatBody(b: seq<Node>): (r: Result<bool>)
  {
    var t := Tidy(Whack(h => h in INLINE_TAG, b, false));
    if t.Err? then Err(t.error)
    else Ok(forall i :: 0 <= i < |t.value| ==> t.value[i].Text? && AllSpace(t.value[i].text))
  }

  /** Blank gunk: a blank string, or a `p` whose body is blank and flat. */
  function IsGunk(x: Node): (r: Result<bool>)
    ensures x.Text? ==> r == Ok(AllSpace(x.text))
    ensures x.Elem? && x.tag != "p" ==> r == Ok(false)
  {
    if x.Text? then Ok(AllSpace(x.text))
    else if x.tag == "p" then BlankFlatBody(x.body)
    else Ok(false)
  }

  /** The gunk-skipping `while` loop. */
  function PopGunk(body: seq<Node>): Result<seq<Node>>
  {
    if body == [] then Ok([])
    else
      var g := IsGunk(body[0]);
      if g.Err? then Err(g.error)
      else if g.value then PopGunk(body[1..])
      else Ok(body)
  }

  /** The loop drops a prefix of gunk and stops at the first item that is
      none. */
  lemma {:induction false} PopGunkDrops(body: seq<Node>)
    requires PopGunk(body).Ok?
    ensures IsSuffix(PopGunk(body).value, body)
    ensures forall i :: 0 <= i < |body| - |PopGunk(body).value| ==> IsGunk(body[i]) == Ok(true)
    ensures PopGunk(body).value != [] ==> IsGunk(PopGunk(body).value[0]) == Ok(false)
  {
    if body != [] && IsGunk(body[0]) == Ok(true) {
      PopGunkDrops(body[1..]);
      assert forall i :: 1 <= i < |body| ==> body[1..][i - 1] == body[i];
    }
  }

  method PopGunkLoop(body: seq<Node>) returns (r: Result<seq<Node>>)
    ensures r == PopGunk(body)
  {
    var b := body;
    while b != []
      invariant PopGunk(body) == PopGunk(b)
      decreases |b|
    {
      var g := IsGunk(b[0]);
      if g.Err? {
        return Err(g.error);
      }
      if !g.value {
        return Ok(b);
      }
      b := b[1..];
    }
    return Ok([]);
  }

  const TITLE_TAGS: seq<string> := ["title", "subtitle"]

  /** The `for` loop over `[('title', 'h1'), ('subtitle', 'h2')]`. */
  function PopTitles(body: seq<Node>, head: Head, tags: seq<string>): (r: Result<(seq<Node>, Head)>)
    decreases |tags|
  {
    if tags == [] then Ok((body, head))
    else
      var t := PopTitle(body, head, tags[0]);
      if t.Err? then Err(t.error)
      else
        var g := PopGunk(t.value.0);
        if g.Err? then Err(g.error)
        else PopTitles(g.value, t.value.1, tags[1..])
  }

  /** `_pop_title_and_subtitle(body, head)`. */
  method PopTitleAndSubtitle(body: seq<Node>, head: Head) returns (r: Result<(seq<Node>, Head)>)
    ensures r == PopTitles(body, head, TITLE_TAGS)
  {
    var b, h := body, head;
    var k := 0;
    while k < |TITLE_TAGS|
      invariant 0 <= k <= |TITLE_TAGS|
      invariant PopTitles(body, head, TITLE_TAGS) == PopTitles(b, h, TITLE_TAGS[k..])
    {
      assert TITLE_TAGS[k..][0] == TITLE_TAGS[k] && TITLE_TAGS[k..][1..] == TITLE_TAGS[k + 1..];
      var t := PopTitle(b, h, TITLE_TAGS[k]);
      if t.Err? {
        return Err(t.error);
      }
      var g := PopGunkLoop(t.value.0);
      if g.Err? {
        return Err(g.error);
      }
      b, h := g.value, t.value.1;
      k := k + 1;
    }
    return Ok((b, h));
  }

  lemma PopTitleDrops(body: seq<Node>, head: Head, tag: string)
    requires PopTitle(body, head, tag).Ok?
    ensures IsSuffix(PopTitle(body, head, tag).value.0, body)
    ensures IsPrefix(Keys(head), Keys(PopTitle(body, head, tag).value.1))
  {
    var t := TitleText(if TitleAt(body, tag) then body[0].body else []);
    if TitleAt(body, tag) && t.Ok? && t.value != [] {
      PutExtends(head, tag, MBody(t.value));
    }
  }

  /** The titles are popped from the front; the head only grows. */
  lemma {:induction false} PopTitlesDrops(body: seq<Node>, head: Head, tags: seq<string>)
    requires PopTitles(body, head, tags).Ok?
    ensures IsSuffix(PopTitles(body, head, tags).value.0, body)
    ensures IsPrefix(Keys(head), Keys(PopTitles(body, head, tags).value.1))
    decreases |tags|
  {
    if tags != [] {
      var t := PopTitle(body, head, tags[0]);
      PopTitleDrops(body, head, tags[0]);
      PopGunkDrops(t.value.0);
      var g := PopGunk(t.value.0);
      PopTitlesDrops(g.value, t.value.1, tags[1..]);
      var r := PopTitles(g.value, t.value.1, tags[1..]).value;
      SuffixTrans(g.value, t.value.0, body);
      SuffixTrans(r.0, g.value, body);
      PrefixTrans(Keys(head), Keys(t.value.1), Keys(r.1));
    }
  }

  /** A title with text goes first into the head, as its folded
      characters. */
  lemma TitleStored(body: seq<Node>, head: Head, s: string)
    requires TitleAt(body, "title") && Plaintextify(body[0].body) == Ok(Text(s)) && s != ""
    ensures PopTitle(body, head, "title").Ok?
    ensures var h := PopTitle(body, head, "title").value.1;
      Get(h, "title").Some? && Get(h, "title").value.MBody? &&
      Chars(Get(h, "title").value.body) == FoldSwallow(s)
  {
    SpaceNormalizeCharsText(s, false);
    SpaceNormalizeCharsEmpty(s);
    PutGet(head, "title", MBody(SpaceNormalizeChars(s, false)));
  }

  /** A title whose text is empty is popped all the same, and stored not. */
  lemma EmptyTitleDropped(body: seq<Node>, head: Head)
    requires TitleAt(body, "title") && Plaintextify(body[0].body) == Ok(Text(""))
    ensures PopTitle(body, head, "title") == Ok((body[1..], head))
  {
  }

  // ---------------------------------------------------------------------
  // _pop_dl_meta

  predicate DocPropsAt(body: seq<Node>)
  {
    |body| > 0 && body[0].Elem? && body[0].tag == "dl" && body[0].attrs == map["id" := Str("document-properties")]
  }

  /** One `(dt, dd)` pair: the `dd`'s single class names the key, and the
      value is its `data-value`, else the plaintext of its body, which is
      worked out (and may fail) in either case. */
  function DlEntry(dt: Node, dd: Node): (r: Result<(string, MetaVal)>)
    ensures r.Ok? ==> (dt.Elem? && dt.tag == "dt" && dd.Elem? && dd.tag == "dd" &&
      "class" in dd.attrs && dd.attrs["class"].cs == [r.value.0])
  {
    if !(dt.Elem? && dt.tag == "dt" && dd.Elem? && dd.tag == "dd") then Err("AssertionError")
    else if "class" !in dd.attrs then Err("KeyError")
    else if |dd.attrs["class"].cs| != 1 then Err("ValueError")
    else
      var p := Plaintextify(dd.body);
      if p.Err? then Err(p.error)
      else Ok((dd.attrs["class"].cs[0], if "data-value" in dd.attrs then MAttr(dd.attrs["data-value"]) else MNode(p.value)))
  }

  /** The `for` loop over `zip(dl_body[::2], dl_body[1::2])`. */
  function DlPairs(dl: seq<Node>, head: Head): (r: Result<Head>)
    decreases |dl|
  {
    if |dl| < 2 then Ok(head)
    else
      var e := DlEntry(dl[0], dl[1]);
      if e.Err? then Err(e.error)
      else DlPairs(dl[2..], Put(head, e.value.0, e.value.1))
  }

  function PopDl(body: seq<Node>, head: Head): (r: Result<(seq<Node>, Head)>)
  {
    if DocPropsAt(body) then
      var h := DlPairs(SpaceNormalize(body[0].body), head);
      if h.Err? then Err(h.error) else Ok((body[1..], h.value))
    else Ok((body, head))
  }

  /** `_pop_dl_meta(body, head)`. */
  method PopDlMeta(body: seq<Node>, head: Head) returns (r: Result<(seq<Node>, Head)>)
    ensures r == PopDl(body, head)
  {
    if !DocPropsAt(body) {
      return Ok((body, head));
    }
    var dl := SpaceNormalize(body[0].body);
    var h := head;
    var j := 0;
    while j + 1 < |dl|
      invariant 0 <= j <= |dl|
      invariant DlPairs(dl, head) == DlPairs(dl[j..], h)
      decreases |dl| - j
    {
      assert dl[j..][0] == dl[j] && dl[j..][1] == dl[j + 1] && dl[j..][2..] == dl[j + 2..];
      var e := DlEntry(dl[j], dl[j + 1]);
      if e.Err? {
        return Err(e.error);
      }
      h := Put(h, e.value.0, e.value.1);
      j := j + 2;
    }
    return Ok((body[1..], h));
  }

  /** The keys already in the head keep their order. */
  lemma {:induction false} DlPairsExtends(dl: seq<Node>, head: Head)
    requires DlPairs(dl, head).Ok?
    ensures IsPrefix(Keys(head), Keys(DlPairs(dl, head).value))
    decreases |dl|
  {
    if |dl| >= 2 {
      var e := DlEntry(dl[0], dl[1]);
      var h1 := Put(head, e.value.0, e.value.1);
      DlPairsExtends(dl[2..], h1);
      PutExtends(head, e.value.0, e.value.1);
      PrefixTrans(Keys(head), Keys(h1), Keys(DlPairs(dl[2..], h1).value));
    }
  }

  /** A `dt`/`dd` pair whose class is one of `keys`. */
  predicate PairStored(dt: Node, dd: Node, keys: seq<string>)
  {
    DlEntry(dt, dd).Ok? && DlEntry(dt, dd).value.0 in keys
  }

  /** Every pair is a `dt`/`dd` pair whose class is a key of the head. */
  lemma {:induction false} DlPairsStored(dl: seq<Node>, head: Head)
    requires DlPairs(dl, head).Ok?
    ensures forall j :: 0 <= j < |dl| / 2 ==> PairStored(dl[2 * j], dl[2 * j + 1], Keys(DlPairs(dl, head).value))
    decreases |dl|
  {
    if |dl| >= 2 {
      var e := DlEntry(dl[0], dl[1]);
      var h1 := Put(head, e.value.0, e.value.1);
      var r := DlPairs(dl[2..], h1).value;
      DlPairsStored(dl[2..], h1);
      DlPairsExtends(dl[2..], h1);
      PutKeys(head, e.value.0, e.value.1);
      PrefixIn(Keys(h1), Keys(r), e.value.0);
      assert PairStored(dl[0], dl[1], Keys(r));
      PairsShift(dl, Keys(r));
    }
  }

  lemma PairsShift(dl: seq<Node>, keys: seq<string>)
    requires |dl| >= 2 && PairStored(dl[0], dl[1], keys)
    requires forall j :: 0 <= j < |dl[2..]| / 2 ==> PairStored(dl[2..][2 * j], dl[2..][2 * j + 1], keys)
    ensures forall j :: 0 <= j < |dl| / 2 ==> PairStored(dl[2 * j], dl[2 * j + 1], keys)
  {
    forall j | 1 <= j < |dl| / 2
      ensures PairStored(dl[2 * j], dl[2 * j + 1], keys)
    {
      var j' := j - 1;
      assert dl[2 * j] == dl[2..][2 * j'] && dl[2 * j + 1] == dl[2..][2 * j' + 1];
    }
  }

  /** A pair that is not `dt` then `dd` fails the assertion. */
  lemma DlBadPair(dt: Node, dd: Node, rest: seq<Node>, head: Head)
    requires !(dt.Elem? && dt.tag == "dt" && dd.Elem? && dd.tag == "dd")
    ensures DlPairs([dt, dd] + rest, head) == Err("AssertionError")
  {
    assert ([dt, dd] + rest)[0] == dt && ([dt, dd] + rest)[1] == dd;
  }

  /** `zip` stops at the shorter list, so an odd last item is ignored. */
  lemma {:induction false} DlOddItemIgnored(dl: seq<Node>, x: Node, head: Head)
    requires |dl| % 2 == 0
    ensures DlPairs(dl + [x], head) == DlPairs(dl, head)
    decreases |dl|
  {
    if |dl| >= 2 {
      assert (dl + [x])[0] == dl[0] && (dl + [x])[1] == dl[1] && (dl + [x])[2..] == dl[2..] + [x];
      var e := DlEntry(dl[0], dl[1]);
      if e.Ok? {
        DlOddItemIgnored(dl[2..], x, Put(head, e.value.0, e.value.1));
      }
    } else {
      assert dl == [];
    }
  }

  /** The plaintext is worked out even when `data-value` is present. */
  lemma DataValueStillNeedsPlaintext(dt: Node, dd: Node)
    requires dt.Elem? && dt.tag == "dt" && dd.Elem? && dd.tag == "dd"
    requires "class" in dd.attrs && |dd.attrs["class"].cs| == 1 && "data-value" in dd.attrs
    ensures DlEntry(dt, dd).Ok? <==> Plaintextify(dd.body).Ok?
    ensures DlEntry(dt, dd).Ok? ==> DlEntry(dt, dd).value == (dd.attrs["class"].cs[0], MAttr(dd.attrs["data-value"]))
  {
  }

  // ---------------------------------------------------------------------
  // _pop_underlined_meta

  /** `varcmd(NAME, Seq[VALUES:])`: a `CMD` whose attrs are a class list of
      one name. */
  predicate CmdShape(x: Node)
  {
    x.Elem? && x.tag == "CMD" && x.attrs.Keys == {"class"} && |x.attrs["class"].cs| == 1
  }

  /** A paragraph holding one command, possibly after an empty anchor left
      over from a heading: the command's name and body. */
  function CommandParagraph(x: Node): (r: Option<(string, seq<Node>)>)
    ensures r.Some? ==> (x.Elem? && x.tag == "p" && |x.body| > 0 && CmdShape(x.body[|x.body| - 1]) &&
      r.value == (x.body[|x.body| - 1].attrs["class"].cs[0], x.body[|x.body| - 1].body))
  {
    if !(x.Elem? && x.tag == "p") then None
    else if |x.body| == 1 && CmdShape(x.body[0]) then
      Some((x.body[0].attrs["class"].cs[0], x.body[0].body))
    else if |x.body| == 2 && x.body[0].Elem? && x.body[0].tag == "a" && x.body[0].attrs.Keys == {"name"} &&
            x.body[0].body == [] && CmdShape(x.body[1]) then
      Some((x.body[1].attrs["class"].cs[0], x.body[1].body))
    else None
  }

  /** The value stored for a command: a literal is parsed (untyped), a lone
      figure holding a lone image becomes an image, anything else is tidied. */
  function UnderlinedValue(values: seq<Node>, lit: Literal.LitEnv): (r: Result<MetaVal>)
  {
    if |values| == 1 && values[0].Elem? && values[0].tag == "LIT" && values[0].body == [] &&
       values[0].attrs.Keys == {"class"} && |values[0].attrs["class"].cs| == 1 then
      var l := Literal.ParseLiteral(values[0].attrs["class"].cs[0], None, lit);
      if l.Err? then Err(l.error) else Ok(MLit(l.value))
    else if |values| == 1 && values[0].Elem? && values[0].tag == "figure" && |values[0].body| == 1 &&
            values[0].body[0].Elem? && values[0].body[0].tag == "img" &&
            values[0].body[0].attrs.Keys == {"src"} && values[0].body[0].body == [] then
      if "style" !in values[0].attrs then Err("KeyError")
      else Ok(MImage(values[0].body[0].attrs["src"], values[0].attrs["style"].kvs))
    else
      var t := Tidy(values);
      if t.Err? then Err(t.error) else Ok(MBody(t.value))
  }

  /** The `while` loop of `_pop_underlined_meta`. */
  function PopUnderlined(body: seq<Node>, head: Head, lit: Literal.LitEnv): (r: Result<(seq<Node>, Head)>)
    decreases |body|
  {
    if body == [] then Ok(([], head))
    else
      match CommandParagraph(body[0])
      case None => Ok((body, head))
      case Some(nv) =>
        var v := UnderlinedValue(nv.1, lit);
        if v.Err? then Err(v.error)
        else PopUnderlined(body[1..], Put(head, nv.0, v.value), lit)
  }

  /** `_pop_underlined_meta(body, head, transclusions)`. */
  method PopUnderlinedMeta(body: seq<Node>, head: Head, lit: Literal.LitEnv) returns (r: Result<(seq<Node>, Head)>)
    ensures r == PopUnderlined(body, head, lit)
  {
    var b, h := body, head;
    while b != []
      invariant PopUnderlined(body, head, lit) == PopUnderlined(b, h, lit)
      decreases |b|
    {
      var nv := CommandParagraph(b[0]);
      if nv.None? {
        return Ok((b, h));
      }
      var v := UnderlinedValue(nv.value.1, lit);
      if v.Err? {
        return Err(v.error);
      }
      h := Put(h, nv.value.0, v.value);
      b := b[1..];
    }
    return Ok(([], h));
  }

  /** The loop pops a prefix of command paragraphs, ... */
  lemma {:induction false} PopUnderlinedDrops(body: seq<Node>, head: Head, lit: Literal.LitEnv)
    requires PopUnderlined(body, head, lit).Ok?
    ensures IsSuffix(PopUnderlined(body, head, lit).value.0, body)
    decreases |body|
  {
    if body != [] && CommandParagraph(body[0]).Some? {
      var nv := CommandParagraph(body[0]).value;
      var v := UnderlinedValue(nv.1, lit);
      var h1 := Put(head, nv.0, v.value);
      assert PopUnderlined(body, head, lit) == PopUnderlined(body[1..], h1, lit);
      PopUnderlinedDrops(body[1..], h1, lit);
      SuffixCons(PopUnderlined(body[1..], h1, lit).value.0, body);
    }
  }

  /** ... and stops at the first paragraph that holds no command; ... */
  lemma {:induction false} PopUnderlinedStops(body: seq<Node>, head: Head, lit: Literal.LitEnv)
    requires PopUnderlined(body, head, lit).Ok?
    ensures var rest := PopUnderlined(body, head, lit).value.0;
      rest != [] ==> CommandParagraph(rest[0]).None?
    decreases |body|
  {
    if body != [] && CommandParagraph(body[0]).Some? {
      var nv := CommandParagraph(body[0]).value;
      var v := UnderlinedValue(nv.1, lit);
      PopUnderlinedStops(body[1..], Put(head, nv.0, v.value), lit);
    }
  }

  /** ... the keys already in the head keep their order; ... */
  lemma {:induction false} PopUnderlinedExtends(body: seq<Node>, head: Head, lit: Literal.LitEnv)
    requires PopUnderlined(body, head, lit).Ok?
    ensures IsPrefix(Keys(head), Keys(PopUnderlined(body, head, lit).value.1))
    decreases |body|
  {
    if body != [] && CommandParagraph(body[0]).Some? {
      var nv := CommandParagraph(body[0]).value;
      var v := UnderlinedValue(nv.1, lit);
      var h1 := Put(head, nv.0, v.value);
      PopUnderlinedExtends(body[1..], h1, lit);
      PutExtends(head, nv.0, v.value);
      PrefixTrans(Keys(head), Keys(h1), Keys(PopUnderlined(body[1..], h1, lit).value.1));
    }
  }

  /** A paragraph holding a command whose name is one of `keys`. */
  predicate CommandStored(n: Node, keys: seq<string>)
  {
    CommandParagraph(n).Some? && CommandParagraph(n).value.0 in keys
  }

  /** Every paragraph popped held a command, whose name is a key of the
      head. */
  lemma {:induction false} PopUnderlinedStored(body: seq<Node>, head: Head, lit: Literal.LitEnv)
    requires PopUnderlined(body, head, lit).Ok?
    ensures var r := PopUnderlined(body, head, lit).value;
      forall i :: 0 <= i < |body| - |r.0| ==> CommandStored(body[i], Keys(r.1))
    decreases |body|
  {
    if body != [] && CommandParagraph(body[0]).Some? {
      var nv := CommandParagraph(body[0]).value;
      var v := UnderlinedValue(nv.1, lit);
      var h1 := Put(head, nv.0, v.value);
      var r := PopUnderlined(body[1..], h1, lit).value;
      PopUnderlinedStored(body[1..], h1, lit);
      PopUnderlinedDrops(body[1..], h1, lit);
      PopUnderlinedExtends(body[1..], h1, lit);
      PutKeys(head, nv.0, v.value);
      PrefixIn(Keys(h1), Keys(r.1), nv.0);
      assert PopUnderlined(body, head, lit).value == r;
      CommandsShift(body, |body| - |r.0|, Keys(r.1));
    }
  }

  lemma CommandsShift(body: seq<Node>, n: nat, keys: seq<string>)
    requires 0 < n <= |body| && CommandStored(body[0], keys)
    requires forall i :: 0 <= i < n - 1 ==> CommandStored(body[1..][i], keys)
    ensures forall i :: 0 <= i < n ==> CommandStored(body[i], keys)
  {
    assert forall i :: 1 <= i < n ==> body[1..][i - 1] == body[i];
  }

  lemma PrefixIn(a: seq<string>, b: seq<string>, k: string)
    requires IsPrefix(a, b) && k in a
    ensures k in b
  {
    var i :| 0 <= i < |a| && a[i] == k;
    assert b[i] == k;
  }

  /** A literal command value is parsed untyped: `yes`/`no` become booleans. */
  lemma LiteralCommandValue(name: string, lit: Literal.LitEnv)
    requires Literal.BoolValid(name)
    ensures UnderlinedValue([MkLit(name)], lit) == Ok(MLit(Literal.LBool(Lower(name) == "yes")))
  {
    Literal.UntypedBoolean(name, lit);
  }

  /** A figure without a style fails with `KeyError`. */
  lemma ImageWithoutStyle(fattrs: WAttrs, src: AttrVal, lit: Literal.LitEnv)
    requires "style" !in fattrs
    ensures UnderlinedValue([Elem("figure", fattrs, [Elem("img", map["src" := src], [])])], lit) == Err("KeyError")
  {
  }

  // ---------------------------------------------------------------------
  // extract_meta

  /** `extract_meta(parsed_body, transclusions)`: the head and what is left
      of the body. */
  function ExtractMeta(body: seq<Node>, lit: Literal.LitEnv): (r: Result<(Head, seq<Node>)>)
  {
    var t := PopTitles(body, [], TITLE_TAGS);
    if t.Err? then Err(t.error)
    else
      var d := PopDl(t.value.0, t.value.1);
      if d.Err? then Err(d.error)
      else
        var u := PopUnderlined(d.value.0, d.value.1, lit);
        if u.Err? then Err(u.error) else Ok((u.value.1, u.value.0))
  }

  method ExtractMetaRun(body: seq<Node>, lit: Literal.LitEnv) returns (r: Result<(Head, seq<Node>)>)
    ensures r == ExtractMeta(body, lit)
  {
    var t := PopTitleAndSubtitle(body, []);
    if t.Err? {
      return Err(t.error);
    }
    var d := PopDlMeta(t.value.0, t.value.1);
    if d.Err? {
      return Err(d.error);
    }
    var u := PopUnderlinedMeta(d.value.0, d.value.1, lit);
    if u.Err? {
      return Err(u.error);
    }
    return Ok((u.value.1, u.value.0));
  }

  lemma PopDlDrops(body: seq<Node>, head: Head)
    requires PopDl(body, head).Ok?
    ensures IsSuffix(PopDl(body, head).value.0, body)
    ensures IsPrefix(Keys(head), Keys(PopDl(body, head).value.1))
  {
    if DocPropsAt(body) {
      DlPairsExtends(SpaceNormalize(body[0].body), head);
    }
  }

  /** The body that is left is a suffix of the input: metadata is only ever
      popped from the front, and nothing else in the body changes. */
  lemma ExtractMetaSuffix(body: seq<Node>, lit: Literal.LitEnv)
    requires ExtractMeta(body, lit).Ok?
    ensures IsSuffix(ExtractMeta(body, lit).value.1, body)
  {
    var t := PopTitles(body, [], TITLE_TAGS);
    PopTitlesDrops(body, [], TITLE_TAGS);
    var d := PopDl(t.value.0, t.value.1);
    PopDlDrops(t.value.0, t.value.1);
    PopUnderlinedDrops(d.value.0, d.value.1, lit);
    SuffixTrans(d.value.0, t.value.0, body);
    SuffixTrans(PopUnderlined(d.value.0, d.value.1, lit).value.0, d.value.0, body);
  }

  /** A body that starts with none of the metadata shapes is returned
      whole, with an empty head. */
  lemma NoMetaUnchanged(body: seq<Node>, lit: Literal.LitEnv)
    requires body != [] && !body[0].Text? && body[0].tag != "p"
    requires !TitleAt(body, "title") && !TitleAt(body, "subtitle") && !DocPropsAt(body)
    ensures ExtractMeta(body, lit) == Ok(([], body))
  {
  }

  /** A document title with text comes first in the head. */
  lemma TitleComesFirst(body: seq<Node>, lit: Literal.LitEnv, s: string)
    requires TitleAt(body, "title") && Plaintextify(body[0].body) == Ok(Text(s)) && s != ""
    requires ExtractMeta(body, lit).Ok?
    ensures var h := ExtractMeta(body, lit).value.0; |h| > 0 && h[0].0 == "title"
  {
    var t1 := PopTitle(body, [], "title");
    var tv := SpaceNormalizeChars(s, false);
    SpaceNormalizeCharsEmpty(s);
    assert t1.value.1 == [("title", MBody(tv))];
    assert Keys(t1.value.1) == ["title"];
    var g := PopGunk(t1.value.0);
    var t := PopTitles(body, [], TITLE_TAGS);
    assert TITLE_TAGS[1..] == ["subtitle"];
    assert t == PopTitles(g.value, t1.value.1, TITLE_TAGS[1..]);
    PopTitlesDrops(g.value, t1.value.1, TITLE_TAGS[1..]);
    var d := PopDl(t.value.0, t.value.1);
    PopDlDrops(t.value.0, t.value.1);
    PopUnderlinedExtends(d.value.0, d.value.1, lit);
    var h := ExtractMeta(body, lit).value.0;
    PrefixTrans(Keys(t1.value.1), Keys(t.value.1), Keys(d.value.1));
    PrefixTrans(Keys(t1.value.1), Keys(d.value.1), Keys(h));
    KeysAt(h, 0);
  }

  // ---------------------------------------------------------------------
  // postprocess

  /** What `postprocess` calls besides the modelled passes: the HTML chunk
      parser for underlined markup, and the literal parsers. */
  datatype Env = Env(chunk: ChunkParser, lit: Literal.LitEnv)

  /** The head, the body, and the citation key reported when citations
      are present but the head has no bibliography. */
  datatype Output = Output(head: Head, body: seq<Node>, missingBibliography: Option<string>)

  /** The body after the passes, before metadata is extracted, with the
      keys of all citations found. */
  function Passes(raw: seq<Node>, bib: Bib, asides: bool, env: Env): (r: Result<(seq<Node>, seq<string>)>)
  {
    var b0 := if !asides then Whack(t => t == "aside", raw, true) else raw;
    var c := Tidy(b0);
    if c.Err? then Err(c.error)
    else
      var p := ParseCites(c.value, bib);
      if p.Err? then Err(p.error)
      else
        var u := UnderlinesToCommands(p.value.nodes, false, env.chunk);
        if u.Err? then Err(u.error)
        else
          var f := UnwrapFigures(Captionize(u.value));
          if f.Err? then Err(f.error)
          else
            var t := Tidy(SpaceNormalize(f.value));
            if t.Err? then Err(t.error) else Ok((t.value, p.value.keys))
  }

  /** What follows the passes: metadata extraction, and the test for a
      bibliography when citations were found. */
  function Finish(body: seq<Node>, keys: seq<string>, lit: Literal.LitEnv): (r: Result<Output>)
  {
    var m := ExtractMeta(body, lit);
    if m.Err? then Err(m.error)
    else
      Ok(Output(m.value.0, m.value.1,
                if keys != [] && "bibliography" !in Keys(m.value.0) then Some(SortedSet(keys)[0]) else None))
  }

  /** `postprocess(raw_body, transclusions, bibliography, asides)`; without
      a bibliography the citations are parsed against no entries. */
  function PostprocessDoc(raw: seq<Node>, bibliography: Option<Bib>, asides: bool, env: Env): (r: Result<Output>)
  {
    var bib := if bibliography.Some? then bibliography.value else map[];
    var p := Passes(raw, bib, asides, env);
    if p.Err? then Err(p.error) else Finish(p.value.0, p.value.1, env.lit)
  }

  lemma SortedFirst(xs: seq<string>)
    requires xs != []
    ensures SortedSet(xs) != [] && SortedSet(xs)[0] in xs
    ensures forall x :: x in xs ==> x == SortedSet(xs)[0] || StrLt(SortedSet(xs)[0], x)
  {
    var s := SortedSet(xs);
    assert xs[0] in Elems(xs);
    forall x | x in xs
      ensures x == s[0] || StrLt(s[0], x)
    {
      var i :| 0 <= i < |xs| && xs[i] == x;
      assert x in Elems(s);
      var j :| 0 <= j < |s| && s[j] == x;
      if j > 0 {
        HeadIsLeast(s, j);
      }
    }
    assert s[0] in Elems(xs);
  }

  /** The missing bibliography is reported exactly when citations were
      found and the head has no bibliography, naming the least key. */
  lemma MissingBibliography(body: seq<Node>, keys: seq<string>, lit: Literal.LitEnv)
    requires Finish(body, keys, lit).Ok?
    ensures var o := Finish(body, keys, lit).value;
      (o.missingBibliography.Some? <==> keys != [] && Get(o.head, "bibliography").None?) &&
      (o.missingBibliography.Some? ==> (o.missingBibliography.value in keys &&
        forall k :: k in keys ==> k == o.missingBibliography.value || StrLt(o.missingBibliography.value, k)))
  {
    var o := Finish(body, keys, lit).value;
    GetNone(o.head, "bibliography");
    if keys != [] {
      SortedFirst(keys);
    }
  }

  /** The body handed on is a suffix of what the passes produced. */
  lemma FinishBodySuffix(body: seq<Node>, keys: seq<string>, lit: Literal.LitEnv)
    requires Finish(body, keys, lit).Ok?
    ensures IsSuffix(Finish(body, keys, lit).value.body, body)
  {
    ExtractMetaSuffix(body, lit);
  }

  /** Without comments in the input, keeping or killing them is the same. */
  lemma AsidesWithoutAsides(raw: seq<Node>, bib: Bib, env: Env)
    requires NoTag(t => t == "aside", raw)
    ensures Passes(raw, bib, false, env) == Passes(raw, bib, true, env)
  {
    WhackWithoutMatchIsIdentity(t => t == "aside", raw, true);
  }
}
