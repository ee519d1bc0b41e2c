/** The citation rules of citations.py: the names of citation commands
    (`CITE_REX`) and the canonicalisation of the text that follows a
    citation key (`cleanse_post_citation`), in particular of page
    references.  Both regexes are compiled from byte strings, so `\s` is
    ASCII whitespace and `\d` an ASCII digit. */
module Citations {
  import opened Wrappers
  import opened PyStr
  import opened Internal

  const EN_DASH: char := '–'

  /** EN DASH, EM DASH, FIGURE DASH, HORIZONTAL BAR, HYPHEN, HYPHEN-MINUS,
      HYPHEN BULLET and MINUS SIGN. */
  predicate IsDashLike(c: char)
  {
    c == '–' || c == '—' || c == '‒' || c == '―' ||
    c == '‐' || c == '-' || c == '⁃' || c == '−'
  }

  /** `\s` of an ASCII pattern: space, tab, newline, vertical tab, form feed,
      carriage return. */
  predicate IsReSpace(c: char) { c == ' ' || ('\t' <= c <= '\r') }

  predicate IsRomanLetter(c: char)
  {
    c == 'm' || c == 'c' || c == 'd' || c == 'x' || c == 'l' || c == 'v' || c == 'i'
  }

  // ---------------------------------------------------------------------
  // CITE_REX = `((auto|text)cite)|(cite(author|year|title)p?)$`, used with
  // `match`: the first alternative is a prefix test, only the second one is
  // anchored at the end (where `$` also accepts one final newline).

  predicate IsFieldCiteName(s: string)
  {
    s == "citeauthor" || s == "citeyear" || s == "citetitle" ||
    s == "citeauthorp" || s == "citeyearp" || s == "citetitlep"
  }

  predicate CiteRexMatch(s: string)
  {
    StartsWith(s, "autocite") || StartsWith(s, "textcite") || IsFieldCiteName(s) ||
    (|s| > 0 && s[|s| - 1] == '\n' && IsFieldCiteName(s[..|s| - 1]))
  }

  /** The names CITE_REX accepts and the ones it refuses. */
  lemma CiteRexExamples()
    ensures CiteRexMatch("autocite") && CiteRexMatch("textcite")
    ensures CiteRexMatch("citeyear") && CiteRexMatch("citetitlep")
    ensures CiteRexMatch("autocites")
    ensures !CiteRexMatch("cite") && !CiteRexMatch("citeyears") && !CiteRexMatch("parencite")
  {
    assert "autocites"[..8] == "autocite";
    assert "cite"[..3] == "cit";
    assert "citeyears"[..8] == "citeyear";
    assert "parencite"[..4] == "pare";
  }

  // ---------------------------------------------------------------------
  // PAGE_CITE_REX = `^,?\s*pp?\.?\s*(NUMBER)((?:[\s<dashes>,]*(?:(?:pp?\.?\s*)?NUMBER))*)$`
  // where NUMBER is a run of digits or a (possibly empty) lower-case roman
  // numeral.  Since NUMBER may be empty and every single roman letter is a
  // NUMBER, the part after the `p` marker matches exactly the strings made
  // of whitespace, dashes, commas, digits, roman letters and `p`, in which
  // every `.` directly follows a `p`.  The greedy marker is the one the
  // backtracking matcher keeps: giving back part of it leaves a `,`,
  // whitespace, `p` or `.` in front of a tail that failed, and the same
  // character still fails.  Group 2 extends to the end, so
  // `first_page + other_pages` is the whole tail.

  function ReSpaceRun(s: string): (n: nat)
    ensures n <= |s|
    ensures forall i :: 0 <= i < n ==> IsReSpace(s[i])
    ensures n < |s| ==> !IsReSpace(s[n])
  {
    if s != [] && IsReSpace(s[0]) then 1 + ReSpaceRun(s[1..]) else 0
  }

  /** Where the greedy marker `,?\s*pp?\.?\s*` ends, if there is one. */
  function PageMarkerEnd(s: string): (r: Option<nat>)
    ensures r.Some? ==> r.value <= |s|
  {
    var i := if |s| > 0 && s[0] == ',' then 1 else 0;
    var j := i + ReSpaceRun(s[i..]);
    if j >= |s| || s[j] != 'p' then None
    else
      var k1 := j + 1;
      var k2 := if k1 < |s| && s[k1] == 'p' then k1 + 1 else k1;
      var k3 := if k2 < |s| && s[k2] == '.' then k2 + 1 else k2;
      Some(k3 + ReSpaceRun(s[k3..]))
  }

  predicate PageChar(c: char)
  {
    IsReSpace(c) || IsDashLike(c) || c == ',' || IsDigit(c) || IsRomanLetter(c) || c == 'p'
  }

  /** The tail after the marker: page numbers, separators and more markers. */
  predicate PageTail(t: string)
  {
    forall i :: 0 <= i < |t| ==> PageChar(t[i]) || (t[i] == '.' && i > 0 && t[i - 1] == 'p')
  }

  /** `PAGE_CITE_REX.match(s)`: the pages `first_page + other_pages`. */
  function PageCite(s: string): Option<string>
  {
    match PageMarkerEnd(s)
    case None => None
    case Some(k) => if PageTail(s[k..]) then Some(s[k..]) else None
  }

  /** `re.sub('[<dashes>]+', EN_DASH, t)`. */
  function DashesToEnDash(t: string): (r: string)
    ensures forall i :: 0 <= i < |r| && IsDashLike(r[i]) ==> r[i] == EN_DASH
    ensures |r| > 0 && |t| > 0 ==> (IsDashLike(r[0]) <==> IsDashLike(t[0]))
    decreases |t|
  {
    if t == [] then []
    else if IsDashLike(t[0]) then [EN_DASH] + DashesToEnDash(DropDashes(t[1..]))
    else [t[0]] + DashesToEnDash(t[1..])
  }

  function DropDashes(t: string): (r: string)
    ensures |r| <= |t| && (|r| > 0 ==> !IsDashLike(r[0]))
  {
    if t != [] && IsDashLike(t[0]) then DropDashes(t[1..]) else t
  }

  /** `re.sub(r'pp?\.?', ' ', t)`. */
  function PageMarksToSpace(t: string): (r: string)
    ensures forall i :: 0 <= i < |r| ==> r[i] != 'p'
    ensures forall i :: 0 <= i < |r| && IsDashLike(r[i]) ==> exists j :: 0 <= j < |t| && t[j] == r[i]
    decreases |t|
  {
    if t == [] then []
    else if t[0] == 'p' then
      var t1 := if |t| > 1 && t[1] == 'p' then t[2..] else t[1..];
      var t2 := if |t1| > 0 && t1[0] == '.' then t1[1..] else t1;
      var r := " " + PageMarksToSpace(t2);
      assert forall j :: 0 <= j < |t2| ==> t2[j] == t[|t| - |t2| + j];
      r
    else
      var r := [t[0]] + PageMarksToSpace(t[1..]);
      assert forall j :: 0 <= j < |t| - 1 ==> t[1..][j] == t[j + 1];
      r
  }

  /** `re.sub(r'\s{2,}', ' ', t)`: a run of two or more whitespace
      characters becomes one space; a single one stays as it is. */
  function SqueezeSpace(t: string): (r: string)
    ensures forall i :: 0 <= i < |r| ==> r[i] == ' ' || r[i] in t
    ensures forall i, j :: 0 <= i < j < |r| && j == i + 1 ==> !(IsReSpace(r[i]) && IsReSpace(r[j]))
    ensures |r| > 0 && |t| > 0 ==> (IsReSpace(r[0]) <==> IsReSpace(t[0]))
    decreases |t|
  {
    if t == [] then []
    else
      var n := ReSpaceRun(t);
      if n >= 2 then
        var rest := SqueezeSpace(t[n..]);
        assert forall c :: c in t[n..] ==> c in t;
        " " + rest
      else if n == 1 then
        var rest := SqueezeSpace(t[1..]);
        assert forall c :: c in t[1..] ==> c in t;
        assert t[1..] == [] || !IsReSpace(t[1..][0]);
        [t[0]] + rest
      else
        var rest := SqueezeSpace(t[1..]);
        assert forall c :: c in t[1..] ==> c in t;
        [t[0]] + rest
  }

  /** The canonical form of a multi-page reference. */
  function CanonicalPages(t: string): string
  {
    SqueezeSpace(PageMarksToSpace(DashesToEnDash(t)))
  }

  /** `re.sub(r'^,?\s*', '', s)`. */
  function DropLeadingComma(s: string): (r: string)
    ensures |r| <= |s| && r == s[|s| - |r|..]
    ensures |r| > 0 ==> !IsReSpace(r[0])
  {
    var i := if |s| > 0 && s[0] == ',' then 1 else 0;
    s[i + ReSpaceRun(s[i..])..]
  }

  /** `cleanse_post_citation(post)`.  A one-item post is compared with the
      page pattern, whose `match` raises `TypeError` when that item is an
      element rather than a string. */
  function CleansePost(post: seq<Node>): (r: Result<seq<Node>>)
  {
    if |post| == 1 && post[0].Elem? then Err("TypeError")
    else if |post| == 1 && PageCite(post[0].text).Some? then
      var pages := PageCite(post[0].text).value;
      var other := post[0].text[PageMarkerEnd(post[0].text).value + NumberLength(pages)..];
      if other == "" then Ok([Text(pages)]) else Ok([Text(CanonicalPages(pages))])
    else if post != [] && post[0].Text? then Ok([Text(DropLeadingComma(post[0].text))] + post[1..])
    else Ok(post)
  }

  /** `cleanse_post_citation([s])[0]` for a string `s`: a single string
      always comes back as a single string. */
  function CleanseText(s: string): (r: string)
    ensures CleansePost([Text(s)]) == Ok([Text(r)])
  {
    var post := [Text(s)];
    assert post[0].text == s && post[1..] == [];
    match PageCite(s)
    case Some(pages) =>
      if s[PageMarkerEnd(s).value + NumberLength(pages)..] == "" then pages else CanonicalPages(pages)
    case None => NonPageString(s); DropLeadingComma(s)
  }

  /** The length of group 1 (`first_page`): a run of digits if there is one,
      otherwise the longest roman numeral the greedy pattern
      `m{0,4}(cm|cd|d?c{0,3})(xc|xl|l?x{0,3})(ix|iv|v?i{0,3})` takes. */
  function NumberLength(t: string): (n: nat)
    ensures n <= |t|
  {
    var d := DigitRun(t);
    if d > 0 then d else RomanLength(t)
  }

  function DigitRun(t: string): (n: nat)
    ensures n <= |t| && forall i :: 0 <= i < n ==> IsDigit(t[i])
  {
    if t != [] && IsDigit(t[0]) then 1 + DigitRun(t[1..]) else 0
  }

  /** Up to `max` copies of `c` at the start of `t`. */
  function Repeat(t: string, c: char, max: nat): (n: nat)
    ensures n <= max && n <= |t|
  {
    if max > 0 && t != [] && t[0] == c then 1 + Repeat(t[1..], c, max - 1) else 0
  }

  /** One digit place of a roman numeral: `ten nine`, `ten five`, or
      `five? one{0,3}` (for hundreds `cm|cd|d?c{0,3}`). */
  function RomanPlace(t: string, one: char, five: char, ten: char): (n: nat)
    ensures n <= |t|
  {
    if |t| >= 2 && t[0] == one && t[1] == ten then 2
    else if |t| >= 2 && t[0] == one && t[1] == five then 2
    else
      var f := if t != [] && t[0] == five then 1 else 0;
      f + Repeat(t[f..], one, 3)
  }

  function RomanLength(t: string): (n: nat)
    ensures n <= |t|
  {
    var m := Repeat(t, 'm', 4);
    var c := m + RomanPlace(t[m..], 'c', 'd', 'm');
    var x := c + RomanPlace(t[c..], 'x', 'l', 'c');
    x + RomanPlace(t[x..], 'i', 'v', 'x')
  }

  // ---------------------------------------------------------------------
  // What cleanse_post_citation promises

  /** A reference to a single page keeps just the page number. */
  lemma SinglePage(s: string, k: nat)
    requires PageMarkerEnd(s) == Some(k)
    requires k < |s| && forall i :: k <= i < |s| ==> IsDigit(s[i])
    ensures CleansePost([Text(s)]) == Ok([Text(s[k..])])
  {
    var t := s[k..];
    assert PageTail(t) by {
      assert forall i :: 0 <= i < |t| ==> IsDigit(t[i]);
    }
    DigitRunAll(t);
  }

  lemma {:induction false} DigitRunAll(t: string)
    requires forall i :: 0 <= i < |t| ==> IsDigit(t[i])
    ensures DigitRun(t) == |t|
  {
    if t != [] {
      DigitRunAll(t[1..]);
    }
  }

  /** In a multi-page reference every dash-like run turns into one EN DASH,
      every `p`/`pp`/`p.`/`pp.` marker disappears and no two whitespace
      characters are left next to each other. */
  lemma CanonicalPagesShape(t: string)
    ensures var r := CanonicalPages(t);
      (forall i :: 0 <= i < |r| ==> r[i] != 'p') &&
      (forall i :: 0 <= i < |r| && IsDashLike(r[i]) ==> r[i] == EN_DASH) &&
      (forall i, j :: 0 <= i < j < |r| && j == i + 1 ==> !(IsReSpace(r[i]) && IsReSpace(r[j])))
  {
    var d := DashesToEnDash(t);
    var m := PageMarksToSpace(d);
    var r := SqueezeSpace(m);
    assert forall i :: 0 <= i < |r| ==> r[i] == ' ' || r[i] in m;
    forall i | 0 <= i < |r| && IsDashLike(r[i])
      ensures r[i] == EN_DASH
    {
      assert r[i] in m;
      var k :| 0 <= k < |m| && m[k] == r[i];
      var j :| 0 <= j < |d| && d[j] == m[k];
    }
  }

  /** Any other first string loses a leading comma and the whitespace after
      it; the other items are kept. */
  lemma NonPagePost(post: seq<Node>)
    requires |post| >= 2 && post[0].Text?
    ensures CleansePost(post) == Ok([Text(DropLeadingComma(post[0].text))] + post[1..])
  {
  }

  lemma NonPageString(s: string)
    requires PageCite(s).None?
    ensures CleansePost([Text(s)]) == Ok([Text(DropLeadingComma(s))])
  {
    var post := [Text(s)];
    assert post[0].text == s;
    assert [Text(DropLeadingComma(s))] + post[1..] == [Text(DropLeadingComma(s))];
  }

  /** The shape of `', more on that on p.60'`: a remark after a comma is
      only beheaded. */
  lemma CommaRemark(s: string)
    requires |s| > 0 && !IsReSpace(s[0]) && s[0] != 'p'
    ensures CleansePost([Text(", " + s)]) == Ok([Text(s)])
  {
    var t := ", " + s;
    assert t[1..][1..] == s;
    assert ReSpaceRun(t[1..]) == 1;
    assert PageMarkerEnd(t) == None;
    NonPageString(t);
    assert t[2..] == s;
  }

  /** An empty post, or one of several items whose first item is an
      element, is returned unchanged; a single element makes the page
      pattern raise. */
  lemma PostKeptOrRaises(post: seq<Node>)
    requires post == [] || post[0].Elem?
    ensures |post| == 1 ==> CleansePost(post) == Err("TypeError")
    ensures |post| != 1 ==> CleansePost(post) == Ok(post)
  {
  }
}
