/** `parse_cites` of postprocess.py: links to Zotero items (or `bib:`
    links) whose text is a citation key become citation commands.  The
    bibliography is a map from keys to their fields, and the `collect_cite`
    callback is modelled by returning the keys it is called with, in order. */
module PostprocessCites {
  import opened Wrappers
  import opened PyStr
  import opened Internal
  import opened Postprocess
  import opened Citations

  type Bib = map<string, map<string, string>>

  // ---------------------------------------------------------------------
  // ZOTERO_ITEM_URL_REX = `bib:|https?://zotero\.org/(users|groups)/([0-9]+)/items/([A-Z0-9]+)$`
  // used with `match` (anchored at the start only).

  predicate IsItemIdChar(c: char) { ('A' <= c <= 'Z') || IsDigit(c) }

  /** `([0-9]+)/items/([A-Z0-9]+)` up to the end. */
  predicate ItemPath(t: string)
  {
    var d := DigitRun(t);
    d > 0 && StartsWith(t[d..], "/items/") && |t| > d + 7 &&
    forall i :: d + 7 <= i < |t| ==> IsItemIdChar(t[i])
  }

  predicate LibraryPath(t: string)
  {
    (StartsWith(t, "users/") && ItemPath(t[6..])) || (StartsWith(t, "groups/") && ItemPath(t[7..]))
  }

  predicate IsZoteroItemUrl(u: string)
  {
    (StartsWith(u, "http://zotero.org/") && LibraryPath(u[18..])) ||
    (StartsWith(u, "https://zotero.org/") && LibraryPath(u[19..]))
  }

  /** Group 0 of the match: `bib:` for bibliography links, otherwise the
      whole URL (`$` also matches before a final newline, which is then not
      part of the match). */
  function ZoteroMatch(h: string): (r: Option<string>)
    ensures r.Some? ==> ':' in r.value
  {
    if StartsWith(h, "bib:") then
      BibColon();
      Some("bib:")
    else
      var u := if |h| > 0 && h[|h| - 1] == '\n' then h[..|h| - 1] else h;
      if IsZoteroItemUrl(u) then
        ZoteroUrlColon(u);
        Some(u)
      else None
  }

  lemma ZoteroUrlColon(u: string)
    requires IsZoteroItemUrl(u)
    ensures ':' in u
  {
    if StartsWith(u, "http://zotero.org/") {
      PrefixChar(u, "http://zotero.org/", 4);
    } else {
      PrefixChar(u, "https://zotero.org/", 5);
    }
  }

  lemma PrefixChar(u: string, p: string, i: nat)
    requires StartsWith(u, p) && i < |p| && p[i] == ':'
    ensures ':' in u
  {
    assert u[i] == u[..|p|][i];
  }

  lemma BibColon()
    ensures ':' in "bib:"
  {
    assert "bib:"[3] == ':';
  }

  /** `s.split(':', 1)[1]`. */
  function AfterColon(s: string): (r: string)
    requires ':' in s
    ensures |r| < |s| && r == s[|s| - |r|..]
  {
    if s[0] == ':' then s[1..] else AfterColon(s[1..])
  }

  /** `'http:' + group0.split(':', 1)[1]`. */
  function ZoteroId(g0: string): string
    requires ':' in g0
  {
    "http:" + AfterColon(g0)
  }

  lemma AfterColonSkips(p: string, rest: string)
    requires ':' !in p
    ensures ':' in p + ":" + rest && AfterColon(p + ":" + rest) == rest
  {
    var s := p + ":" + rest;
    assert s[|p|] == ':';
    if p != [] {
      assert s[1..] == p[1..] + ":" + rest;
      AfterColonSkips(p[1..], rest);
    }
  }

  lemma NotBibLink(h: string)
    requires |h| > 0 && h[0] == 'h'
    ensures !StartsWith(h, "bib:")
  {
  }

  /** Zotero item URLs match as a whole, over http and over https. */
  lemma HttpItemUrl(path: string)
    requires LibraryPath(path)
    ensures ZoteroMatch("http://zotero.org/" + path) == Some("http://zotero.org/" + path)
  {
    var u := "http://zotero.org/" + path;
    assert u[..18] == "http://zotero.org/" && u[18..] == path;
    NotBibLink(u);
    LibraryPathNoNewline(path);
    assert u[|u| - 1] == path[|path| - 1];
  }

  lemma HttpsItemUrl(path: string)
    requires LibraryPath(path)
    ensures ZoteroMatch("https://zotero.org/" + path) == Some("https://zotero.org/" + path)
  {
    var u := "https://zotero.org/" + path;
    assert u[..19] == "https://zotero.org/" && u[19..] == path;
    NotBibLink(u);
    LibraryPathNoNewline(path);
    assert u[|u| - 1] == path[|path| - 1];
  }

  /** The item id does not depend on the scheme of the link. */
  lemma ItemIdIgnoresScheme(path: string)
    ensures ':' in "http://zotero.org/" + path && ':' in "https://zotero.org/" + path
    ensures ZoteroId("http://zotero.org/" + path) == ZoteroId("https://zotero.org/" + path) == "http://zotero.org/" + path
  {
    var rest := "//zotero.org/" + path;
    HttpSplit(path);
    HttpsSplit(path);
    SchemeId("http", rest);
    SchemeId("https", rest);
    HttpJoin(path);
  }

  /** The id of `scheme:rest` is `http:rest`. */
  lemma SchemeId(scheme: string, rest: string)
    requires ':' !in scheme
    ensures ':' in scheme + ":" + rest && ZoteroId(scheme + ":" + rest) == "http:" + rest
  {
    AfterColonSkips(scheme, rest);
  }

  lemma HttpSplit(path: string)
    ensures "http://zotero.org/" + path == "http" + ":" + ("//zotero.org/" + path) && ':' !in "http"
  {
  }

  lemma HttpsSplit(path: string)
    ensures "https://zotero.org/" + path == "https" + ":" + ("//zotero.org/" + path) && ':' !in "https"
  {
  }

  lemma HttpJoin(path: string)
    ensures "http:" + ("//zotero.org/" + path) == "http://zotero.org/" + path
  {
  }

  lemma LibraryPathNoNewline(t: string)
    requires LibraryPath(t)
    ensures |t| > 0 && t[|t| - 1] != '\n'
  {
    var t' := if StartsWith(t, "users/") && ItemPath(t[6..]) then t[6..] else t[7..];
    assert t[|t| - 1] == t'[|t'| - 1];
  }

  /** A bibliography link has the item id `http:`. */
  lemma BibLinkId(rest: string)
    ensures ZoteroMatch("bib:" + rest) == Some("bib:")
    ensures ZoteroId("bib:") == "http:"
  {
    assert ("bib:" + rest)[..4] == "bib:";
    assert "bib:" == "bib" + ":" + "";
    AfterColonSkips("bib", "");
  }

  // ---------------------------------------------------------------------
  // REF_KEY_REX = `^(\s*)(\[)?([\w-]+)(?:[:](author|year|title)\b)?(.*?)\]?(\s*)$`
  // Every greedy part keeps what it takes: giving back whitespace, the
  // bracket or key characters leaves a character that the next part cannot
  // start with, or that `(.*?)` then absorbs without changing whether the
  // rest matches.  The lazy `post` is the shortest newline-free text after
  // which only whitespace, or `]` and whitespace, remains.

  predicate IsWordChar(c: char) { IsAlnum(c) || c == '_' }
  predicate IsKeyChar(c: char) { IsWordChar(c) || c == '-' }

  function KeyRun(t: string): (n: nat)
    ensures n <= |t| && (n < |t| ==> !IsKeyChar(t[n]))
  {
    if t != [] && IsKeyChar(t[0]) then 1 + KeyRun(t[1..]) else 0
  }

  lemma {:induction false} KeyChars(t: string)
    ensures forall i :: 0 <= i < KeyRun(t) ==> IsKeyChar(t[i])
  {
    if t != [] && IsKeyChar(t[0]) {
      KeyChars(t[1..]);
      assert forall i :: 1 <= i < KeyRun(t) ==> t[i] == t[1..][i - 1];
    }
  }

  /** A non-empty run of `[\w-]`. */
  predicate IsKey(k: string) { |k| > 0 && KeyRun(k) == |k| }

  lemma {:induction false} KeyRunPrefix(t: string, k: nat)
    requires k <= KeyRun(t)
    ensures KeyRun(t[..k]) == k
  {
    if k > 0 {
      assert t[..k][1..] == t[1..][..k - 1];
      KeyRunPrefix(t[1..], k - 1);
    }
  }


  predicate AllReSpace(t: string) { ReSpaceRun(t) == |t| }

  predicate NewlineFree(t: string)
  {
    t == [] || (t[0] != '\n' && NewlineFree(t[1..]))
  }

  lemma {:induction false} ReSpaceRunPrefix(t: string, k: nat)
    requires k <= ReSpaceRun(t)
    ensures ReSpaceRun(t[..k]) == k
  {
    if k > 0 {
      assert t[..k][1..] == t[1..][..k - 1];
      ReSpaceRunPrefix(t[1..], k - 1);
    }
  }

  /** `[:]name\b`. */
  predicate FieldIs(t: string, name: string)
  {
    StartsWith(t, ":" + name) && (|t| == |name| + 1 || !IsWordChar(t[|name| + 1]))
  }

  function FieldAt(t: string): (r: Option<string>)
    ensures r.Some? ==> FieldIs(t, r.value) && (r.value == "author" || r.value == "year" || r.value == "title")
  {
    if FieldIs(t, "author") then Some("author")
    else if FieldIs(t, "year") then Some("year")
    else if FieldIs(t, "title") then Some("title")
    else None
  }

  /** What `\]?(\s*)$` accepts. */
  predicate Closing(t: string)
  {
    AllReSpace(t) || (|t| > 0 && t[0] == ']' && AllReSpace(t[1..]))
  }

  /** The end of the lazy `(.*?)`, searching from `n`. */
  function PostEnd(t: string, n: nat): (r: Option<nat>)
    requires n <= |t|
    ensures r.Some? ==> n <= r.value <= |t| && Closing(t[r.value..])
    ensures r.Some? ==> NewlineFree(t[n..r.value])
    decreases |t| - n
  {
    if Closing(t[n..]) then Some(n)
    else if n == |t| || t[n] == '\n' then None
    else
      var r := PostEnd(t, n + 1);
      assert r.Some? ==> t[n..r.value][1..] == t[n + 1..r.value];
      r
  }

  function FieldText(f: Option<string>): string
  {
    if f.Some? then ":" + f.value else ""
  }

  function Bracket(b: bool, c: string): string { if b then c else "" }

  /** The part of a match after the key: the field, `post`, whether the
      optional `]` was taken, and `sp2`. */
  datatype Tail = Tail(field: Option<string>, post: string, close: bool, sp2: string)

  /** The groups of a match, and whether the optional `]` was taken. */
  datatype RefKey = RefKey(sp1: string, paren: bool, key: string, tail: Tail)

  function TailText(v: Tail): string
  {
    FieldText(v.field) + v.post + Bracket(v.close, "]") + v.sp2
  }

  /** The text a match was made from. */
  function Unparse(m: RefKey): string
  {
    m.sp1 + Bracket(m.paren, "[") + m.key + TailText(m.tail)
  }

  lemma FieldSplit(t: string, f: Option<string>)
    requires f.Some? ==> FieldIs(t, f.value)
    ensures |FieldText(f)| <= |t| && t == FieldText(f) + t[|FieldText(f)|..]
  {
    if f.Some? { assert t[..|FieldText(f)|] == FieldText(f); }
  }

  lemma CloseSplit(t: string, n: nat, close: bool)
    requires n <= |t| && (close ==> n < |t| && t[n] == ']')
    ensures t == t[..n] + Bracket(close, "]") + t[n + (if close then 1 else 0)..]
  {
    if close { assert t[n..] == "]" + t[n + 1..]; }
  }

  lemma JoinParts(t: string, a: string, t': string, p: string, b: string, q: string)
    requires t == a + t' && t' == p + b + q
    ensures t == a + p + b + q
  {
  }

  lemma JoinLead(s: string, sp: string, br: string, s2: string, k: string, rest: string)
    requires s == sp + br + s2 && s2 == k + rest
    ensures s == sp + br + k + rest
  {
  }

  lemma LeadSplit(s: string, a: nat, paren: bool)
    requires a <= |s| && (paren ==> a < |s| && s[a] == '[')
    ensures s == s[..a] + Bracket(paren, "[") + s[a + (if paren then 1 else 0)..]
  {
    if paren {
      assert s[a..] == "[" + s[a + 1..];
    }
    assert s == s[..a] + s[a..];
  }

  /** The part of the pattern after the key. */
  function MatchTail(t: string): Option<Tail>
  {
    var f := FieldAt(t);
    var t4 := t[|FieldText(f)|..];
    var e := PostEnd(t4, 0);
    if e.None? then None
    else
      var n := e.value;
      var close := n < |t4| && t4[n] == ']';
      Some(Tail(f, t4[..n], close, t4[n + (if close then 1 else 0)..]))
  }

  lemma MatchTailParts(t: string)
    requires MatchTail(t).Some?
    ensures var v := MatchTail(t).value;
      t == TailText(v) && AllReSpace(v.sp2) && NewlineFree(v.post)
  {
    var f := FieldAt(t);
    var t4 := t[|FieldText(f)|..];
    var n := PostEnd(t4, 0).value;
    var close := n < |t4| && t4[n] == ']';
    FieldSplit(t, f);
    CloseSplit(t4, n, close);
    JoinParts(t, FieldText(f), t4, t4[..n], Bracket(close, "]"), t4[n + (if close then 1 else 0)..]);
    assert t4[0..n] == t4[..n];
  }

  /** `([\w-]+)` and what follows it. */
  function KeyAndTail(t: string): Option<(string, Tail)>
  {
    var k := KeyRun(t);
    if k == 0 then None
    else
      var tl := MatchTail(t[k..]);
      if tl.None? then None else Some((t[..k], tl.value))
  }

  lemma KeyAndTailParts(t: string)
    requires KeyAndTail(t).Some?
    ensures var kt := KeyAndTail(t).value;
      t == kt.0 + TailText(kt.1) && IsKey(kt.0) && AllReSpace(kt.1.sp2) && NewlineFree(kt.1.post)
  {
    var k := KeyRun(t);
    KeyRunPrefix(t, k);
    MatchTailParts(t[k..]);
    SplitAt(t, k, TailText(MatchTail(t[k..]).value));
  }

  lemma SplitAt(t: string, k: nat, r: string)
    requires k <= |t| && t[k..] == r
    ensures t == t[..k] + r
  {
    assert t == t[..k] + t[k..];
  }

  /** `REF_KEY_REX.match(s)`. */
  function RefKeyMatch(s: string): Option<RefKey>
  {
    var a := ReSpaceRun(s);
    var paren := a < |s| && s[a] == '[';
    var kt := KeyAndTail(s[a + (if paren then 1 else 0)..]);
    if kt.None? then None
    else Some(RefKey(s[..a], paren, kt.value.0, kt.value.1))
  }

  /** A match splits the link text into its groups, each of the shape the
      pattern prescribes. */
  lemma RefKeyGroups(s: string)
    requires RefKeyMatch(s).Some?
    ensures var m := RefKeyMatch(s).value;
      Unparse(m) == s &&
      AllReSpace(m.sp1) && AllReSpace(m.tail.sp2) && IsKey(m.key) && NewlineFree(m.tail.post)
  {
    var a := ReSpaceRun(s);
    ReSpaceRunPrefix(s, a);
    var paren := a < |s| && s[a] == '[';
    var s2 := s[a + (if paren then 1 else 0)..];
    KeyAndTailParts(s2);
    var kt := KeyAndTail(s2).value;
    LeadSplit(s, a, paren);
    JoinLead(s, s[..a], Bracket(paren, "["), s2, kt.0, TailText(kt.1));
  }

  lemma TailEmpty()
    ensures MatchTail("") == Some(Tail(None, "", false, ""))
  {
    assert FieldAt("") == None;
    assert ""[0..] == "";
    assert PostEnd("", 0) == Some(0);
  }

  lemma TailClose()
    ensures MatchTail("]") == Some(Tail(None, "", true, ""))
  {
    assert FieldAt("]") == None;
    assert "]"[0..] == "]";
    assert "]"[1..] == "";
    assert PostEnd("]", 0) == Some(0);
    assert "]"[..0] == "";
  }

  lemma KeyAlone(key: string)
    requires IsKey(key)
    ensures KeyAndTail(key) == Some((key, Tail(None, "", false, "")))
  {
    TailEmpty();
    KeyRunAll(key, "");
    assert key + "" == key;
    assert key[..|key|] == key && key[|key|..] == "";
  }

  lemma KeyClosed(key: string)
    requires IsKey(key)
    ensures KeyAndTail(key + "]") == Some((key, Tail(None, "", true, "")))
  {
    TailClose();
    KeyRunAll(key, "]");
    var t := key + "]";
    assert t[..|key|] == key && t[|key|..] == "]";
  }

  lemma KeyStart(key: string)
    requires IsKey(key)
    ensures ReSpaceRun(key) == 0 && key[0] != '['
  {
  }

  /** The two plain forms of a link text: `key` and `[key]`. */
  lemma RefKeyPlain(key: string)
    requires IsKey(key)
    ensures RefKeyMatch(key) == Some(RefKey("", false, key, Tail(None, "", false, "")))
  {
    KeyStart(key);
    KeyAlone(key);
    assert key[0..] == key;
    assert key[..0] == "";
  }

  lemma RefKeyBracketed(key: string)
    requires IsKey(key)
    ensures RefKeyMatch("[" + key + "]") == Some(RefKey("", true, key, Tail(None, "", true, "")))
  {
    KeyClosed(key);
    BracketedParts(key, "[" + key + "]");
  }

  lemma BracketedParts(key: string, t: string)
    requires t == "[" + key + "]"
    ensures ReSpaceRun(t) == 0 && t[0] == '[' && t[..0] == "" && t[1..] == key + "]"
  {
    assert !IsReSpace(t[0]);
  }

  lemma {:induction false} KeyRunAll(key: string, rest: string)
    requires KeyRun(key) == |key| && (rest != [] ==> !IsKeyChar(rest[0]))
    ensures KeyRun(key + rest) == |key|
  {
    if key != [] {
      assert (key + rest)[1..] == key[1..] + rest;
      KeyRunAll(key[1..], rest);
    } else {
      assert key + rest == rest;
    }
  }

  // ---------------------------------------------------------------------
  // `cite`

  predicate ValidField(field: Option<string>)
  {
    field.None? || field.value == "author" || field.value == "year" || field.value == "title"
  }

  function CiteName(textual: bool, field: Option<string>): string
  {
    if field.None? then (if textual then "textcite" else "autocite")
    else "cite" + field.value + (if textual then "" else "p")
  }

  /** `cite(key, post, textual, field)`: a blank post is dropped from the
      command's body. */
  function Cite(key: string, post: string, textual: bool, field: Option<string>): (r: Node)
    requires ValidField(field)
    ensures IsCmd(r, CiteName(textual, field))
    ensures |r.body| == (if Strip(post) == "" then 1 else 2) && r.body[0] == Text(key)
    ensures |r.body| == 2 ==> r.body[1] == Text(post)
  {
    MkCmd(CiteName(textual, field), Some(if Strip(post) == "" then [Text(key)] else [Text(key), Text(post)]))
  }

  /** Every command `cite` makes is one the writers recognise with CITE_REX,
      and the command name tells whether the citation was textual and which
      field it cites. */
  lemma CiteNameRecognised(textual: bool, field: Option<string>)
    requires ValidField(field)
    ensures CiteRexMatch(CiteName(textual, field))
  {
    var n := CiteName(textual, field);
    if field.None? {
      assert n[..8] == n;
    }
  }

  lemma CiteNameInjective(t1: bool, f1: Option<string>, t2: bool, f2: Option<string>)
    requires ValidField(f1) && ValidField(f2)
    requires CiteName(t1, f1) == CiteName(t2, f2)
    ensures t1 == t2 && f1 == f2
  {
    var n := CiteName(t1, f1);
    CiteNameHead(t1, f1);
    CiteNameHead(t2, f2);
    if f1.Some? && f2.Some? {
      assert n[4] == f1.value[0] == f2.value[0];
    } else if f1.None? && f2.None? {
      assert n[0] == (if t1 then 't' else 'a') == (if t2 then 't' else 'a');
    }
  }

  lemma CiteNameHead(textual: bool, field: Option<string>)
    requires ValidField(field)
    ensures |CiteName(textual, field)| > 0
    ensures CiteName(textual, field)[0] == (if field.Some? then 'c' else if textual then 't' else 'a')
  {
  }

  // ---------------------------------------------------------------------
  // Recognising a citation link

  datatype LinkParts = LinkParts(url0: string, ref: RefKey, text: string)

  /** `e == ('a', {'href': ZURL}, ZBODY)`: compared part by part, so the URL
      is only matched for an `a` whose attributes are exactly an `href`, and
      the body only when the URL matched.  A non-string `href` makes the
      regex raise, as does a body that plaintextifies to an element. */
  function MatchLink(e: Node): (r: Result<Option<LinkParts>>)
    requires e.Elem?
    ensures r.Ok? && r.value.Some? ==> ':' in r.value.value.url0 && RefKeyMatch(r.value.value.text) == Some(r.value.value.ref)
    ensures e.tag != "a" ==> r == Ok(None)
  {
    var h := Href(e);
    if h.Err? then Err(h.error)
    else if h.value.None? then Ok(None)
    else LinkBody(h.value.value, e.body)
  }

  /** The `href` of an `a` whose only attribute it is. */
  function Href(e: Node): (r: Result<Option<string>>)
    requires e.Elem?
    ensures r.Ok? && r.value.Some? ==> e.tag == "a" && e.attrs == map["href" := Str(r.value.value)]
    ensures r.Err? ==> e.tag == "a" && "href" in e.attrs && !e.attrs["href"].Str?
  {
    if e.tag != "a" || |e.attrs| != 1 || "href" !in e.attrs then Ok(None)
    else
      match e.attrs["href"]
      case Str(h) =>
        assert e.attrs.Keys == {"href"} by {
          assert "href" in e.attrs.Keys && |e.attrs.Keys| == 1;
          SingletonKeys(e.attrs.Keys, "href");
        }
        Ok(Some(h))
      case _ => Err("TypeError")
  }

  lemma SingletonKeys(k: set<string>, x: string)
    requires x in k && |k| == 1
    ensures k == {x}
  {
    var rest := k - {x};
    assert |rest| == 0;
  }

  /** The URL and the body of a link, given its `href`. */
  function LinkBody(h: string, body: seq<Node>): (r: Result<Option<LinkParts>>)
    ensures r.Ok? && r.value.Some? ==> ':' in r.value.value.url0 && RefKeyMatch(r.value.value.text) == Some(r.value.value.ref)
    ensures r.Ok? && r.value.Some? ==> ZoteroMatch(h) == Some(r.value.value.url0) && Plaintextify(body) == Ok(Text(r.value.value.text))
  {
    match ZoteroMatch(h)
    case None => Ok(None)
    case Some(g0) =>
      var p := Plaintextify(body);
      if p.Err? then Err(p.error)
      else if !p.value.Text? then Err("TypeError")
      else
        match RefKeyMatch(p.value.text)
        case None => Ok(None)
        case Some(m) => Ok(Some(LinkParts(g0, m, p.value.text)))
  }

  /** What one item contributes to `ans`: its nodes, the keys passed to
      `collect_cite` and whether it sets `coalesce_strings`. */
  datatype Step = Step(nodes: seq<Node>, keys: seq<string>, coalesce: bool)

  function Then(a: Step, b: Step): Step
  {
    Step(a.nodes + b.nodes, a.keys + b.keys, a.coalesce || b.coalesce)
  }

  /** The body of the loop for a matched link. */
  function CiteLink(e: Node, lp: LinkParts, bib: Bib): (r: Step)
    requires ':' in lp.url0 && RefKeyMatch(lp.text) == Some(lp.ref)
  {
    var m := lp.ref;
    if m.paren != EndsWith(Strip(lp.text), "]") then
      Step([MkErr([e], "malformed citation, unmatched " + (if m.paren then "[" else "]"))], [], false)
    else
      var fields := if m.key in bib then bib[m.key] else map[];
      if "zoteroid" !in fields || fields["zoteroid"] == ZoteroId(lp.url0) then
        FieldOfMatch(lp.text);
        CiteStep(m)
      else
        Step([MkErr([e], "bad citation key")], [m.key], false)
  }

  /** The citation a well-formed key stands for, with the spaces around it. */
  function CiteStep(m: RefKey): Step
    requires ValidField(m.tail.field)
  {
    var c := Cite(m.key, CleanseText(m.tail.post), !m.paren, m.tail.field);
    Step((if m.sp1 != "" then [Text(m.sp1)] else []) + [c] + (if m.tail.sp2 != "" then [Text(m.tail.sp2)] else []),
         [m.key], m.sp1 != "" || m.tail.sp2 != "")
  }

  lemma FieldOfMatch(s: string)
    requires RefKeyMatch(s).Some?
    ensures ValidField(RefKeyMatch(s).value.tail.field)
  {
  }

  function ParseCitesNode(e: Node, bib: Bib): (r: Result<Step>)
    decreases e, 0
  {
    if e.Text? then Ok(Step([e], [], false))
    else
      var ml := MatchLink(e);
      if ml.Err? then Err(ml.error)
      else if ml.value.Some? then Ok(CiteLink(e, ml.value.value, bib))
      else
        var sub := ParseCites(e.body, bib);
        if sub.Err? then Err(sub.error)
        else Ok(Step([Elem(e.tag, e.attrs, sub.value.nodes)], sub.value.keys, false))
  }

  /** The `for` loop from item `i` on. */
  function ParseCitesFrom(es: seq<Node>, i: nat, bib: Bib): (r: Result<Step>)
    requires i <= |es|
    decreases es, |es| - i
  {
    if i == |es| then Ok(Step([], [], false))
    else
      var h := ParseCitesNode(es[i], bib);
      if h.Err? then h
      else
        var t := ParseCitesFrom(es, i + 1, bib);
        if t.Err? then t else Ok(Then(h.value, t.value))
  }

  datatype Parsed = Parsed(nodes: seq<Node>, keys: seq<string>)

  /** `parse_cites(parsed_body, bib_entries, collect_cite)`. */
  function ParseCites(es: seq<Node>, bib: Bib): (r: Result<Parsed>)
    decreases es, |es| + 1
  {
    var s := ParseCitesFrom(es, 0, bib);
    if s.Err? then Err(s.error)
    else Ok(Parsed(if s.value.coalesce then MergeFrom(s.value.nodes, 1) else s.value.nodes, s.value.keys))
  }

  // ---------------------------------------------------------------------
  // The string-coalescing loop: `i` advances after a merge too, so a
  // merged string is not merged again with the next one.

  function MergeFrom(l: seq<Node>, i: nat): seq<Node>
    requires 1 <= i <= |l| + 1
    decreases |l| + 1 - i
  {
    if i >= |l| then l
    else if l[i - 1].Text? && l[i].Text? then
      MergeFrom(l[..i - 1] + [Text(l[i - 1].text + l[i].text)] + l[i + 1..], i + 1)
    else MergeFrom(l, i + 1)
  }

  method MergeStrings(ans0: seq<Node>) returns (ans: seq<Node>)
    ensures ans == MergeFrom(ans0, 1)
  {
    ans := ans0;
    var i := 1;
    while i < |ans|
      invariant 1 <= i <= |ans| + 1
      invariant MergeFrom(ans, i) == MergeFrom(ans0, 1)
      decreases |ans| + 1 - i
    {
      if ans[i - 1].Text? && ans[i].Text? {
        ans := ans[..i - 1] + [Text(ans[i - 1].text + ans[i].text)] + ans[i + 1..];
      }
      i := i + 1;
    }
  }

  function After(acc: Step, t: Result<Step>): Result<Step>
  {
    if t.Err? then t else Ok(Then(acc, t.value))
  }

  /** The body loop of `parse_cites`, with the coalescing at the end. */
  method ParseCitesLoop(es: seq<Node>, bib: Bib) returns (r: Result<Parsed>)
    ensures r == ParseCites(es, bib)
  {
    var ans: seq<Node> := [];
    var keys: seq<string> := [];
    var coalesce := false;
    var i := 0;
    FromStart(es, bib);
    while i < |es|
      invariant i <= |es|
      invariant ParseCitesFrom(es, 0, bib) == After(Step(ans, keys, coalesce), ParseCitesFrom(es, i, bib))
    {
      var e := es[i];
      var h := ParseCitesNode(e, bib);
      if h.Err? {
        Failed(es, i, bib, Step(ans, keys, coalesce));
        return Err(h.error);
      }
      FromStep(es, i, bib, Step(ans, keys, coalesce));
      ans := ans + h.value.nodes;
      keys := keys + h.value.keys;
      coalesce := coalesce || h.value.coalesce;
      i := i + 1;
    }
    Finish(es, bib, Step(ans, keys, coalesce));
    if coalesce {
      ans := MergeStrings(ans);
    }
    r := Ok(Parsed(ans, keys));
  }

  lemma Finish(es: seq<Node>, bib: Bib, acc: Step)
    requires ParseCitesFrom(es, 0, bib) == After(acc, ParseCitesFrom(es, |es|, bib))
    ensures ParseCites(es, bib) == Ok(Parsed(if acc.coalesce then MergeFrom(acc.nodes, 1) else acc.nodes, acc.keys))
  {
    FromEnd(es, bib, acc);
  }

  lemma Failed(es: seq<Node>, i: nat, bib: Bib, acc: Step)
    requires i < |es| && ParseCitesNode(es[i], bib).Err?
    requires ParseCitesFrom(es, 0, bib) == After(acc, ParseCitesFrom(es, i, bib))
    ensures ParseCites(es, bib) == Err(ParseCitesNode(es[i], bib).error)
  {
    FromErr(es, i, bib, acc);
  }

  lemma FromStart(es: seq<Node>, bib: Bib)
    ensures ParseCitesFrom(es, 0, bib) == After(Step([], [], false), ParseCitesFrom(es, 0, bib))
  {
    var t := ParseCitesFrom(es, 0, bib);
    if t.Ok? {
      assert [] + t.value.nodes == t.value.nodes && [] + t.value.keys == t.value.keys;
    }
  }

  lemma FromErr(es: seq<Node>, i: nat, bib: Bib, acc: Step)
    requires i < |es| && ParseCitesNode(es[i], bib).Err?
    ensures After(acc, ParseCitesFrom(es, i, bib)) == Err(ParseCitesNode(es[i], bib).error)
  {
  }

  lemma FromStep(es: seq<Node>, i: nat, bib: Bib, acc: Step)
    requires i < |es| && ParseCitesNode(es[i], bib).Ok?
    ensures var h := ParseCitesNode(es[i], bib).value;
      After(acc, ParseCitesFrom(es, i, bib)) ==
      After(Step(acc.nodes + h.nodes, acc.keys + h.keys, acc.coalesce || h.coalesce), ParseCitesFrom(es, i + 1, bib))
  {
    var h := ParseCitesNode(es[i], bib).value;
    var t := ParseCitesFrom(es, i + 1, bib);
    if t.Ok? {
      ThenAssoc(acc, h, t.value);
    }
  }

  lemma ThenAssoc(a: Step, b: Step, c: Step)
    ensures Then(a, Then(b, c)) == Then(Step(a.nodes + b.nodes, a.keys + b.keys, a.coalesce || b.coalesce), c)
  {
    assert a.nodes + (b.nodes + c.nodes) == (a.nodes + b.nodes) + c.nodes;
    assert a.keys + (b.keys + c.keys) == (a.keys + b.keys) + c.keys;
  }

  lemma FromEnd(es: seq<Node>, bib: Bib, acc: Step)
    ensures After(acc, ParseCitesFrom(es, |es|, bib)) == Ok(acc)
  {
    assert acc.nodes + [] == acc.nodes && acc.keys + [] == acc.keys;
  }

  // ---------------------------------------------------------------------
  // What parse_cites promises

  /** Joining all neighbouring strings: the result every coalescing of a
      list agrees with. */
  function Coalesced(l: seq<Node>): (r: seq<Node>)
  {
    if l == [] then []
    else
      var c := Coalesced(l[1..]);
      if l[0].Text? && c != [] && c[0].Text? then [Text(l[0].text + c[0].text)] + c[1..]
      else [l[0]] + c
  }

  lemma {:induction false} CoalescedMergeStep(a: seq<Node>, x: string, y: string, b: seq<Node>)
    ensures Coalesced(a + [Text(x), Text(y)] + b) == Coalesced(a + [Text(x + y)] + b)
    decreases |a|
  {
    if a == [] {
      var d := Coalesced(b);
      var l := [Text(x), Text(y)] + b;
      assert a + [Text(x), Text(y)] + b == l;
      assert l[1..] == [Text(y)] + b;
      assert ([Text(y)] + b)[1..] == b;
      assert a + [Text(x + y)] + b == [Text(x + y)] + b;
      assert ([Text(x + y)] + b)[1..] == b;
      var c := Coalesced([Text(y)] + b);
      if d != [] && d[0].Text? {
        assert c == [Text(y + d[0].text)] + d[1..];
        assert x + (y + d[0].text) == (x + y) + d[0].text;
      } else {
        assert c == [Text(y)] + d;
      }
    } else {
      CoalescedMergeStep(a[1..], x, y, b);
      assert (a + [Text(x), Text(y)] + b)[1..] == a[1..] + [Text(x), Text(y)] + b;
      assert (a + [Text(x + y)] + b)[1..] == a[1..] + [Text(x + y)] + b;
    }
  }

  /** The coalescing loop never loses or reorders text: joining what it
      leaves gives the same as joining the input. */
  lemma {:induction false} MergeKeepsContent(l: seq<Node>, i: nat)
    requires 1 <= i <= |l| + 1
    ensures Coalesced(MergeFrom(l, i)) == Coalesced(l)
    decreases |l| + 1 - i
  {
    if i < |l| {
      if l[i - 1].Text? && l[i].Text? {
        var l' := l[..i - 1] + [Text(l[i - 1].text + l[i].text)] + l[i + 1..];
        MergeKeepsContent(l', i + 1);
        assert l == l[..i - 1] + [Text(l[i - 1].text), Text(l[i].text)] + l[i + 1..];
        CoalescedMergeStep(l[..i - 1], l[i - 1].text, l[i].text, l[i + 1..]);
      } else {
        MergeKeepsContent(l, i + 1);
      }
    }
  }

  /** No two neighbours in `l[..n]` are both strings. */
  ghost predicate NoStringPairBefore(l: seq<Node>, n: int)
  {
    forall j, k :: 0 <= j && k == j + 1 && k < n && k < |l| ==> !(l[j].Text? && l[k].Text?)
  }

  /** No three neighbours from `m` on are all strings. */
  ghost predicate NoStringTripleFrom(l: seq<Node>, m: int)
  {
    forall j, k, n :: 0 <= j && m <= j && k == j + 1 && n == k + 1 && n < |l| ==> !(l[j].Text? && l[k].Text? && l[n].Text?)
  }

  lemma {:induction false} MergeFromSeparates(l: seq<Node>, i: nat)
    requires 1 <= i <= |l| + 1
    requires NoStringPairBefore(l, i) && NoStringTripleFrom(l, i - 1)
    ensures NoStringPairBefore(MergeFrom(l, i), |MergeFrom(l, i)|)
    decreases |l| + 1 - i
  {
    if i < |l| {
      if l[i - 1].Text? && l[i].Text? {
        var l' := l[..i - 1] + [Text(l[i - 1].text + l[i].text)] + l[i + 1..];
        assert forall j :: 0 <= j < i - 1 ==> l'[j] == l[j];
        assert forall j :: i <= j < |l'| ==> l'[j] == l[j + 1];
        assert i < |l'| ==> !l'[i].Text? by {
          if i < |l'| {
            assert l'[i] == l[i + 1];
          }
        }
        assert i >= 2 ==> !l[i - 2].Text?;
        MergeFromSeparates(l', i + 1);
      } else {
        MergeFromSeparates(l, i + 1);
      }
    }
  }

  /** When no three strings stand in a row, the loop joins every pair of
      neighbouring strings. */
  lemma MergeSeparates(l: seq<Node>)
    requires NoStringTripleFrom(l, 0)
    ensures NoStringPairBefore(MergeFrom(l, 1), |MergeFrom(l, 1)|)
  {
    MergeFromSeparates(l, 1);
  }

  /** Three strings in a row: the third one stays separate. */
  lemma MergeThreeStrings(x: string, y: string, z: string)
    ensures MergeFrom([Text(x), Text(y), Text(z)], 1) == [Text(x + y), Text(z)]
  {
    var l := [Text(x), Text(y), Text(z)];
    assert l[..0] + [Text(x + y)] + l[2..] == [Text(x + y), Text(z)];
  }

  function SoleStep(n: Node): Step { Step([n], [], false) }

  predicate IsLinkTag(t: string) { t == "a" }

  /** Without any `a` element the tree is kept as it is and no key is
      collected. */
  lemma {:induction false} NoLinksUnchanged(es: seq<Node>, bib: Bib)
    requires NoTag(IsLinkTag, es)
    ensures ParseCites(es, bib) == Ok(Parsed(es, []))
    decreases es, |es| + 1
  {
    NoLinksFrom(es, 0, bib);
  }

  lemma {:induction false} NoLinksFrom(es: seq<Node>, i: nat, bib: Bib)
    requires i <= |es| && NoTag(IsLinkTag, es[i..])
    ensures ParseCitesFrom(es, i, bib) == Ok(Step(es[i..], [], false))
    decreases es, |es| - i
  {
    if i < |es| {
      var e := es[i];
      NoTagSplit(es, i);
      NoLinksFrom(es, i + 1, bib);
      NoLinkNode(e, bib);
      ConsSole(es, i);
    }
  }

  lemma NoTagSplit(es: seq<Node>, i: nat)
    requires i < |es| && NoTag(IsLinkTag, es[i..])
    ensures NoTag(IsLinkTag, es[i + 1..])
    ensures es[i].Elem? ==> !IsLinkTag(es[i].tag) && NoTag(IsLinkTag, es[i].body)
  {
    assert es[i..][0] == es[i] && es[i..][1..] == es[i + 1..];
  }

  lemma ConsSole(es: seq<Node>, i: nat)
    requires i < |es|
    ensures Then(SoleStep(es[i]), Step(es[i + 1..], [], false)) == Step(es[i..], [], false)
  {
    assert es[i..] == [es[i]] + es[i + 1..];
  }

  /** An item without links is kept as it is. */
  lemma {:induction false} NoLinkNode(e: Node, bib: Bib)
    requires e.Elem? ==> !IsLinkTag(e.tag) && NoTag(IsLinkTag, e.body)
    ensures ParseCitesNode(e, bib) == Ok(SoleStep(e))
    decreases e, 0
  {
    if e.Elem? {
      NoLinksUnchanged(e.body, bib);
      assert MatchLink(e) == Ok(None);
    }
  }

  /** A single item that does not ask for coalescing is parsed on its own. */
  lemma SingleItem(e: Node, bib: Bib)
    requires ParseCitesNode(e, bib).Ok? && !ParseCitesNode(e, bib).value.coalesce
    ensures ParseCites([e], bib) == Ok(Parsed(ParseCitesNode(e, bib).value.nodes, ParseCitesNode(e, bib).value.keys))
  {
    assert ParseCitesFrom([e], 1, bib) == Ok(Step([], [], false));
    var h := ParseCitesNode(e, bib).value;
    assert Then(h, Step([], [], false)) == h;
  }

  lemma LinkMatched(url: string, body: seq<Node>, text: string, m: RefKey)
    requires ZoteroMatch(url).Some? && Plaintextify(body) == Ok(Text(text)) && RefKeyMatch(text) == Some(m)
    ensures MatchLink(Link(url, body)) == Ok(Some(LinkParts(ZoteroMatch(url).value, m, text)))
  {
    var e := Link(url, body);
    assert |e.attrs| == 1 && "href" in e.attrs && e.attrs["href"] == Str(url);
    assert Href(e) == Ok(Some(url));
  }

  function Link(url: string, body: seq<Node>): Node
  {
    Elem("a", map["href" := Str(url)], body)
  }

  /** A link whose text is a bare key is a textual citation, one whose text
      is `[key]` a parenthetical one, provided the bibliography does not give
      the key another item id; the key is collected. */
  lemma LinkToCite(url: string, body: seq<Node>, key: string, paren: bool, bib: Bib)
    requires ZoteroMatch(url).Some? && IsKey(key)
    requires Plaintextify(body) == Ok(Text(if paren then "[" + key + "]" else key))
    requires key in bib && "zoteroid" in bib[key] ==> bib[key]["zoteroid"] == ZoteroId(ZoteroMatch(url).value)
    ensures ParseCites([Link(url, body)], bib) ==
      Ok(Parsed([MkCmd(if paren then "autocite" else "textcite", Some([Text(key)]))], [key]))
  {
    var text := if paren then "[" + key + "]" else key;
    var m := RefKey("", paren, key, Tail(None, "", paren, ""));
    if paren { RefKeyBracketed(key); } else { RefKeyPlain(key); }
    LinkMatched(url, body, text, m);
    var e := Link(url, body);
    var lp := LinkParts(ZoteroMatch(url).value, m, text);
    KeyCited(e, lp, bib);
    assert ParseCitesNode(e, bib) == Ok(CiteLink(e, lp, bib));
    SingleItem(e, bib);
  }

  lemma KeyCited(e: Node, lp: LinkParts, bib: Bib)
    requires ':' in lp.url0 && IsKey(lp.ref.key) && RefKeyMatch(lp.text) == Some(lp.ref)
    requires lp.ref == RefKey("", lp.ref.paren, lp.ref.key, Tail(None, "", lp.ref.paren, ""))
    requires lp.text == if lp.ref.paren then "[" + lp.ref.key + "]" else lp.ref.key
    requires var k := lp.ref.key; k in bib && "zoteroid" in bib[k] ==> bib[k]["zoteroid"] == ZoteroId(lp.url0)
    ensures CiteLink(e, lp, bib) ==
      Step([MkCmd(if lp.ref.paren then "autocite" else "textcite", Some([Text(lp.ref.key)]))], [lp.ref.key], false)
  {
    StripKey(lp.ref.key, lp.ref.paren);
    CiteLinkCites(e, lp, bib);
    CiteStepBare(lp.ref);
  }

  lemma CiteStepBare(m: RefKey)
    requires m.sp1 == "" && m.tail.sp2 == "" && m.tail.post == "" && m.tail.field == None
    ensures CiteStep(m) ==
      Step([MkCmd(if m.paren then "autocite" else "textcite", Some([Text(m.key)]))], [m.key], false)
  {
    CiteStepUnspaced(m);
    CleanseEmpty();
    BareCite(m.key, m.paren);
  }

  lemma CiteStepUnspaced(m: RefKey)
    requires ValidField(m.tail.field) && m.sp1 == "" && m.tail.sp2 == ""
    ensures CiteStep(m) == Step([Cite(m.key, CleanseText(m.tail.post), !m.paren, m.tail.field)], [m.key], false)
  {
    var c := Cite(m.key, CleanseText(m.tail.post), !m.paren, m.tail.field);
    assert [] + [c] + [] == [c];
  }

  /** A matched link whose brackets agree and whose item is the key's
      becomes the citation, with the spaces around it kept. */
  lemma CiteLinkCites(e: Node, lp: LinkParts, bib: Bib)
    requires ':' in lp.url0 && RefKeyMatch(lp.text) == Some(lp.ref)
    requires lp.ref.paren == EndsWith(Strip(lp.text), "]")
    requires var k := lp.ref.key; k in bib && "zoteroid" in bib[k] ==> bib[k]["zoteroid"] == ZoteroId(lp.url0)
    ensures ValidField(lp.ref.tail.field) && CiteLink(e, lp, bib) == CiteStep(lp.ref)
  {
    FieldOfMatch(lp.text);
    var m := lp.ref;
    var fields := if m.key in bib then bib[m.key] else map[];
    assert "zoteroid" !in fields || fields["zoteroid"] == ZoteroId(lp.url0);
  }

  lemma BareCite(key: string, paren: bool)
    ensures Cite(key, "", !paren, None) == MkCmd(if paren then "autocite" else "textcite", Some([Text(key)]))
  {
    CleanseEmpty();
  }

  lemma CleanseEmpty()
    ensures CleanseText("") == "" && Strip("") == ""
  {
    assert PageMarkerEnd("") == None;
  }

  lemma RefKeyOpen(key: string)
    requires IsKey(key)
    ensures RefKeyMatch("[" + key) == Some(RefKey("", true, key, Tail(None, "", false, "")))
  {
    KeyAlone(key);
    var t := "[" + key;
    assert ReSpaceRun(t) == 0;
    assert t[..0] == "" && t[1..] == key;
  }

  /** A bracket on one side of the key only is reported, and no key is
      collected. */
  lemma Unmatched(e: Node, lp: LinkParts, bib: Bib)
    requires ':' in lp.url0 && RefKeyMatch(lp.text) == Some(lp.ref)
    requires lp.ref.paren != EndsWith(Strip(lp.text), "]")
    ensures CiteLink(e, lp, bib) ==
      Step([MkErr([e], "malformed citation, unmatched " + (if lp.ref.paren then "[" else "]"))], [], false)
  {
  }

  lemma OpenNotClosed(key: string)
    requires IsKey(key)
    ensures !EndsWith(Strip("[" + key), "]")
  {
    KeyChars(key);
    var t := "[" + key;
    assert !IsSpace(t[0]) && !IsSpace(t[|t| - 1]);
    assert LStrip(t) == t && RStrip(t) == t;
  }

  /** The link `[key` stands for is one reported item. */
  lemma UnmatchedNode(url: string, body: seq<Node>, key: string, bib: Bib)
    requires ZoteroMatch(url).Some? && IsKey(key)
    requires Plaintextify(body) == Ok(Text("[" + key))
    ensures ParseCitesNode(Link(url, body), bib) ==
      Ok(Step([MkErr([Link(url, body)], "malformed citation, unmatched " + "[")], [], false))
  {
    var t := "[" + key;
    var m := RefKey("", true, key, Tail(None, "", false, ""));
    RefKeyOpen(key);
    LinkMatched(url, body, t, m);
    OpenNotClosed(key);
    Unmatched(Link(url, body), LinkParts(ZoteroMatch(url).value, m, t), bib);
  }

  /** `[key` without the closing bracket is reported, and nothing is
      collected. */
  lemma UnmatchedBracket(url: string, body: seq<Node>, key: string, bib: Bib)
    requires ZoteroMatch(url).Some? && IsKey(key)
    requires Plaintextify(body) == Ok(Text("[" + key))
    ensures ParseCites([Link(url, body)], bib) ==
      Ok(Parsed([MkErr([Link(url, body)], "malformed citation, unmatched [")], []))
  {
    UnmatchedNode(url, body, key, bib);
    SingleItem(Link(url, body), bib);
    assert "malformed citation, unmatched " + "[" == "malformed citation, unmatched [";
  }

  /** A key whose bibliography entry names a different item is reported,
      but the key is still collected. */
  lemma ForeignItemKey(url: string, body: seq<Node>, key: string, bib: Bib)
    requires ZoteroMatch(url).Some? && IsKey(key)
    requires Plaintextify(body) == Ok(Text(key))
    requires key in bib && "zoteroid" in bib[key] && bib[key]["zoteroid"] != ZoteroId(ZoteroMatch(url).value)
    ensures ParseCites([Link(url, body)], bib) ==
      Ok(Parsed([MkErr([Link(url, body)], "bad citation key")], [key]))
  {
    var m := RefKey("", false, key, Tail(None, "", false, ""));
    RefKeyPlain(key);
    LinkMatched(url, body, key, m);
    var e := Link(url, body);
    var lp := LinkParts(ZoteroMatch(url).value, m, key);
    StripKey(key, false);
    assert CiteLink(e, lp, bib) == Step([MkErr([e], "bad citation key")], [key], false);
    assert ParseCitesNode(e, bib) == Ok(CiteLink(e, lp, bib));
    SingleItem(e, bib);
  }

  lemma StripKey(key: string, paren: bool)
    requires IsKey(key)
    ensures EndsWith(Strip(if paren then "[" + key + "]" else key), "]") == paren
  {
    KeyChars(key);
    var t := if paren then "[" + key + "]" else key;
    assert !IsSpace(t[0]) && !IsSpace(t[|t| - 1]);
    assert LStrip(t) == t;
    assert RStrip(t) == t;
  }
}
