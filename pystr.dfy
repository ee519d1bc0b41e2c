/** The slice of Python's string semantics the converter relies on: whitespace,
    `strip`, `startswith`, `in`, `replace`, `split`, `join`, case mapping and
    decimal rendering of integers, and finding a character. */
module PyStr {
  import opened Seqs
  import opened Wrappers

  /** `unicode.isspace()` of Python 2.7. */
  predicate IsSpace(c: char)
  {
    c == ' ' || ('\t' <= c <= '\r') || ('\U{1c}' <= c <= '\U{1f}') ||
    c == '\U{85}' || c == '\U{a0}' || c == '\U{1680}' || c == '\U{180e}' ||
    ('\U{2000}' <= c <= '\U{200a}') || c == '\U{2028}' || c == '\U{2029}' ||
    c == '\U{202f}' || c == '\U{205f}' || c == '\U{3000}'
  }

  predicate IsDigit(c: char) { '0' <= c <= '9' }
  predicate IsAsciiLower(c: char) { 'a' <= c <= 'z' }
  predicate IsAsciiUpper(c: char) { 'A' <= c <= 'Z' }
  predicate IsAlnum(c: char) { IsDigit(c) || IsAsciiLower(c) || IsAsciiUpper(c) }

  function LStrip(s: string): (r: string)
    ensures |r| <= |s| && r == s[|s| - |r|..]
    ensures |r| > 0 ==> !IsSpace(r[0])
    ensures forall i :: 0 <= i < |s| - |r| ==> IsSpace(s[i])
  {
    if |s| > 0 && IsSpace(s[0]) then LStrip(s[1..]) else s
  }

  function RStrip(s: string): (r: string)
    ensures |r| <= |s| && r == s[..|r|]
    ensures |r| > 0 ==> !IsSpace(r[|r| - 1])
    ensures forall i :: |r| <= i < |s| ==> IsSpace(s[i])
  {
    if |s| > 0 && IsSpace(s[|s| - 1]) then RStrip(s[..|s| - 1]) else s
  }

  function Strip(s: string): string
  {
    RStrip(LStrip(s))
  }

  predicate AllSpace(s: string)
  {
    forall i :: 0 <= i < |s| ==> IsSpace(s[i])
  }

  lemma StripEmptyIffAllSpace(s: string)
    ensures Strip(s) == "" <==> AllSpace(s)
  {
  }

  predicate StartsWith(s: string, p: string)
  {
    |p| <= |s| && s[..|p|] == p
  }

  predicate EndsWith(s: string, p: string)
  {
    |p| <= |s| && s[|s| - |p|..] == p
  }

  /** Python's `p in s` for strings. */
  predicate Contains(s: string, p: string)
  {
    StartsWith(s, p) || (|s| > 0 && Contains(s[1..], p))
  }

  predicate HasChar(s: string, c: char)
  {
    c in s
  }

  function LowerChar(c: char): char
  {
    if IsAsciiUpper(c) then (c as int + 32) as char else c
  }

  function UpperChar(c: char): char
  {
    if IsAsciiLower(c) then (c as int - 32) as char else c
  }

  function Lower(s: string): (r: string)
    ensures |r| == |s| && forall i :: 0 <= i < |s| ==> r[i] == LowerChar(s[i])
  {
    if s == [] then [] else [LowerChar(s[0])] + Lower(s[1..])
  }

  function Upper(s: string): (r: string)
    ensures |r| == |s| && forall i :: 0 <= i < |s| ==> r[i] == UpperChar(s[i])
  {
    if s == [] then [] else [UpperChar(s[0])] + Upper(s[1..])
  }

  /** `str.capitalize()`: first character upper-cased, the rest lower-cased. */
  function Capitalize(s: string): string
  {
    if s == [] then [] else [UpperChar(s[0])] + Lower(s[1..])
  }

  /** `s.replace(pat, repl)`: leftmost, non-overlapping occurrences. */
  function Replace(s: string, pat: string, repl: string): string
    requires |pat| > 0
    decreases |s|
  {
    if |s| < |pat| then s
    else if s[..|pat|] == pat then repl + Replace(s[|pat|..], pat, repl)
    else [s[0]] + Replace(s[1..], pat, repl)
  }

  /** Replacing a character that does not occur changes nothing. */
  lemma ReplaceAbsent(s: string, pat: string, repl: string)
    requires |pat| > 0 && pat[0] !in s
    ensures Replace(s, pat, repl) == s
  {
    if |s| >= |pat| {
      assert s[..|pat|][0] == s[0];
      assert s[0] in s;
      assert forall c :: c in s[1..] ==> c in s;
      ReplaceAbsent(s[1..], pat, repl);
    }
  }

  /** Replacing one character by a string, character by character. */
  function ReplaceChar(s: string, c: char, repl: string): (r: string)
  {
    if s == [] then []
    else (if s[0] == c then repl else [s[0]]) + ReplaceChar(s[1..], c, repl)
  }

  /** Replacing distributes over concatenation. */
  lemma {:induction false} ReplaceCharAppend(a: string, b: string, c: char, repl: string)
    ensures ReplaceChar(a + b, c, repl) == ReplaceChar(a, c, repl) + ReplaceChar(b, c, repl)
  {
    if a != [] {
      assert (a + b)[0] == a[0] && (a + b)[1..] == a[1..] + b;
      ReplaceCharAppend(a[1..], b, c, repl);
    } else {
      assert a + b == b;
    }
  }

  /** Replacing a character that does not occur changes nothing. */
  lemma {:induction false} ReplaceCharAbsent(s: string, c: char, repl: string)
    requires c !in s
    ensures ReplaceChar(s, c, repl) == s
  {
    if s != [] {
      assert forall x :: x in s[1..] ==> x in s;
      ReplaceCharAbsent(s[1..], c, repl);
    }
  }

  /** A one-character string is replaced or kept whole. */
  lemma ReplaceCharOne(x: char, c: char, repl: string)
    ensures ReplaceChar([x], c, repl) == if x == c then repl else [x]
  {
    assert [x][1..] == [];
  }

  /** The stages of `cgi.escape(s)` without `quote`, in order. */
  function EscAmp(s: string): string { ReplaceChar(s, '&', "&amp;") }
  function EscLt(s: string): string { ReplaceChar(s, '<', "&lt;") }
  function EscGt(s: string): string { ReplaceChar(s, '>', "&gt;") }

  /** `cgi.escape(s)`: `&`, `<` and `>` become entities. */
  function CgiEscape(s: string): string
  {
    EscGt(EscLt(EscAmp(s)))
  }

  lemma ReplaceCharIsReplace(s: string, c: char, repl: string)
    ensures Replace(s, [c], repl) == ReplaceChar(s, c, repl)
  {
    if s != [] {
      ReplaceCharIsReplace(s[1..], c, repl);
    }
  }

  function Join(sep: string, parts: seq<string>): string
  {
    if parts == [] then ""
    else if |parts| == 1 then parts[0]
    else parts[0] + sep + Join(sep, parts[1..])
  }

  function Concat(parts: seq<string>): string
  {
    if parts == [] then "" else parts[0] + Concat(parts[1..])
  }

  /** `s.split(sep)` for a non-empty separator. */
  function Split(s: string, sep: string): (r: seq<string>)
    requires |sep| > 0
    ensures |r| > 0
  {
    SplitFrom(s, sep, "")
  }

  function SplitFrom(s: string, sep: string, cur: string): (r: seq<string>)
    requires |sep| > 0
    ensures |r| > 0
    decreases |s|
  {
    if |s| < |sep| then [cur + s]
    else if s[..|sep|] == sep then [cur] + SplitFrom(s[|sep|..], sep, "")
    else SplitFrom(s[1..], sep, cur + [s[0]])
  }

  lemma {:induction false} SplitFromJoin(s: string, sep: string, cur: string)
    requires |sep| > 0
    ensures Join(sep, SplitFrom(s, sep, cur)) == cur + s
    decreases |s|
  {
    if |s| < |sep| {
    } else if s[..|sep|] == sep {
      var rest := SplitFrom(s[|sep|..], sep, "");
      SplitFromJoin(s[|sep|..], sep, "");
      assert [cur] + rest == SplitFrom(s, sep, cur);
      assert s == sep + s[|sep|..];
    } else {
      SplitFromJoin(s[1..], sep, cur + [s[0]]);
      assert s == [s[0]] + s[1..];
    }
  }

  /** `sep.join(s.split(sep)) == s`. */
  lemma SplitJoin(s: string, sep: string)
    requires |sep| > 0
    ensures Join(sep, Split(s, sep)) == s
  {
    SplitFromJoin(s, sep, "");
  }

  /** Decimal rendering of a natural number, as `str(n)`. */
  function NatToString(n: nat): (r: string)
    ensures |r| > 0 && forall i :: 0 <= i < |r| ==> IsDigit(r[i])
    decreases n
  {
    if n < 10 then [DigitChar(n)] else NatToString(n / 10) + [DigitChar(n % 10)]
  }

  /** Different numbers print differently. */
  lemma {:induction false} NatToStringInjective(m: nat, n: nat)
    requires NatToString(m) == NatToString(n)
    ensures m == n
    decreases n
  {
    var a := NatToString(m);
    var b := NatToString(n);
    if m < 10 && n < 10 {
      assert DigitChar(m) == a[0] == b[0] == DigitChar(n);
    } else if m >= 10 && n >= 10 {
      assert a[..|a| - 1] == NatToString(m / 10);
      assert b[..|b| - 1] == NatToString(n / 10);
      NatToStringInjective(m / 10, n / 10);
      assert DigitChar(m % 10) == a[|a| - 1] == b[|b| - 1] == DigitChar(n % 10);
    }
  }

  function DigitChar(d: nat): (c: char)
    requires d < 10
    ensures IsDigit(c)
  {
    ('0' as int + d) as char
  }

  /** `repr(i)` of a Python int. */
  function IntToString(i: int): string
  {
    if i < 0 then "-" + NatToString(-i) else NatToString(i)
  }

  /** The value of a string of decimal digits. */
  function DigitsValue(s: string): nat
    requires forall i :: 0 <= i < |s| ==> IsDigit(s[i])
  {
    if s == [] then 0
    else
      assert IsDigit(s[|s| - 1]);
      DigitsValue(s[..|s| - 1]) * 10 + (s[|s| - 1] as int - '0' as int)
  }

  /** Rendering a digit string without a leading zero gives it back. */
  lemma {:induction false} NatToStringOfDigits(s: string)
    requires |s| > 0 && forall i :: 0 <= i < |s| ==> IsDigit(s[i])
    requires |s| > 1 ==> s[0] != '0'
    ensures NatToString(DigitsValue(s)) == s
    decreases |s|
  {
    var init := s[..|s| - 1];
    var d := s[|s| - 1] as int - '0' as int;
    if |s| == 1 {
    } else {
      assert init[0] == s[0];
      NatToStringOfDigits(init);
      LeadingDigitPositive(init);
      assert DigitsValue(s) == DigitsValue(init) * 10 + d;
      assert DigitsValue(s) / 10 == DigitsValue(init);
      assert DigitsValue(s) % 10 == d;
      assert s == init + [s[|s| - 1]];
    }
  }

  lemma {:induction false} LeadingDigitPositive(s: string)
    requires |s| > 0 && forall i :: 0 <= i < |s| ==> IsDigit(s[i])
    requires s[0] != '0'
    ensures DigitsValue(s) > 0
    decreases |s|
  {
    if |s| > 1 {
      var init := s[..|s| - 1];
      assert init[0] == s[0];
      LeadingDigitPositive(init);
    }
  }

  // ---------------------------------------------------------------------
  // Python's ordering of strings and `sorted(set(xs))`

  /** `a < b` on Python strings: lexicographic by code point. */
  predicate StrLt(a: string, b: string)
  {
    if a == [] then b != []
    else if b == [] then false
    else if a[0] != b[0] then a[0] < b[0]
    else StrLt(a[1..], b[1..])
  }

  lemma {:induction false} StrLtIrreflexive(a: string)
    ensures !StrLt(a, a)
  {
    if a != [] {
      StrLtIrreflexive(a[1..]);
    }
  }

  lemma {:induction false} StrLtTotal(a: string, b: string)
    requires a != b
    ensures StrLt(a, b) || StrLt(b, a)
  {
    if a != [] && b != [] && a[0] == b[0] {
      assert a == [a[0]] + a[1..] && b == [b[0]] + b[1..];
      StrLtTotal(a[1..], b[1..]);
    }
  }

  lemma {:induction false} StrLtAsymmetric(a: string, b: string)
    requires StrLt(a, b)
    ensures !StrLt(b, a)
  {
    if a != [] && b != [] && a[0] == b[0] {
      StrLtAsymmetric(a[1..], b[1..]);
    }
  }

  lemma {:induction false} StrLtTransitive(a: string, b: string, c: string)
    requires StrLt(a, b) && StrLt(b, c)
    ensures StrLt(a, c)
  {
    if a != [] && b != [] && c != [] && a[0] == b[0] && b[0] == c[0] {
      StrLtTransitive(a[1..], b[1..], c[1..]);
    }
  }

  /** Strictly increasing, so sorted and without duplicates. */
  predicate StrictlySorted(xs: seq<string>)
  {
    forall i :: 0 <= i < |xs| - 1 ==> StrLt(xs[i], xs[i + 1])
  }

  function Elems(xs: seq<string>): set<string>
  {
    set i | 0 <= i < |xs| :: xs[i]
  }

  lemma ElemsCons(x: string, xs: seq<string>)
    ensures Elems([x] + xs) == {x} + Elems(xs)
  {
    var l := [x] + xs;
    assert l[0] == x;
    forall y | y in Elems(xs) ensures y in Elems(l) {
      var i :| 0 <= i < |xs| && xs[i] == y;
      assert l[i + 1] == y;
    }
    forall y | y in Elems(l) ensures y in {x} + Elems(xs) {
      var i :| 0 <= i < |l| && l[i] == y;
      if i > 0 {
        assert xs[i - 1] == y;
      }
    }
  }

  function InsertSorted(x: string, xs: seq<string>): (r: seq<string>)
    requires StrictlySorted(xs)
    ensures StrictlySorted(r)
    ensures Elems(r) == Elems(xs) + {x}
    ensures |r| > 0 && (r[0] == x || (xs != [] && r[0] == xs[0]))
  {
    if xs == [] then
      ElemsCons(x, []);
      [x]
    else if x == xs[0] then
      ElemsCons(xs[0], xs[1..]);
      assert xs == [xs[0]] + xs[1..];
      xs
    else if StrLt(x, xs[0]) then
      ElemsCons(x, xs);
      [x] + xs
    else
      StrLtTotal(x, xs[0]);
      var rest := InsertSorted(x, xs[1..]);
      ElemsCons(xs[0], xs[1..]);
      assert xs == [xs[0]] + xs[1..];
      ElemsCons(xs[0], rest);
      [xs[0]] + rest
  }

  /** `sorted(set(xs))`. */
  function SortedSet(xs: seq<string>): (r: seq<string>)
    ensures StrictlySorted(r)
    ensures Elems(r) == Elems(xs)
  {
    if xs == [] then []
    else
      ElemsSnoc(xs[..|xs| - 1], xs[|xs| - 1]);
      assert xs == xs[..|xs| - 1] + [xs[|xs| - 1]];
      InsertSorted(xs[|xs| - 1], SortedSet(xs[..|xs| - 1]))
  }

  lemma ElemsSnoc(xs: seq<string>, x: string)
    ensures Elems(xs + [x]) == Elems(xs) + {x}
  {
    var l := xs + [x];
    assert l[|xs|] == x;
    forall y | y in Elems(xs) ensures y in Elems(l) {
      var i :| 0 <= i < |xs| && xs[i] == y;
      assert l[i] == y;
    }
  }

  /** In a strictly sorted list the head is below every later item. */
  lemma {:induction false} HeadIsLeast(xs: seq<string>, j: int)
    requires StrictlySorted(xs) && 0 < j < |xs|
    ensures StrLt(xs[0], xs[j])
    decreases j
  {
    if j > 1 {
      HeadIsLeast(xs, j - 1);
      StrLtTransitive(xs[0], xs[j - 1], xs[j]);
    }
  }

  /** There is only one strictly sorted list with a given set of items, so
      `sorted(set(xs)) == xs` exactly when `xs` is strictly sorted. */
  lemma {:induction false} StrictlySortedUnique(xs: seq<string>, ys: seq<string>)
    requires StrictlySorted(xs) && StrictlySorted(ys) && Elems(xs) == Elems(ys)
    ensures xs == ys
    decreases |xs|
  {
    if xs != [] {
      assert xs[0] in Elems(xs);
    }
    if ys != [] {
      assert ys[0] in Elems(ys);
    }
    if xs != [] && ys != [] {
      assert xs[0] in Elems(ys) && ys[0] in Elems(xs);
      if xs[0] != ys[0] {
        var i :| 0 <= i < |ys| && ys[i] == xs[0];
        var j :| 0 <= j < |xs| && xs[j] == ys[0];
        HeadIsLeast(ys, i);
        HeadIsLeast(xs, j);
        StrLtAsymmetric(ys[0], xs[0]);
        assert false;
      }
      forall i | 1 <= i < |xs| ensures xs[i] != xs[0] {
        HeadIsLeast(xs, i);
        StrLtIrreflexive(xs[0]);
      }
      forall i | 1 <= i < |ys| ensures ys[i] != ys[0] {
        HeadIsLeast(ys, i);
        StrLtIrreflexive(ys[0]);
      }
      ElemsCons(xs[0], xs[1..]);
      assert xs == [xs[0]] + xs[1..];
      ElemsCons(ys[0], ys[1..]);
      assert ys == [ys[0]] + ys[1..];
      assert xs[0] !in Elems(xs[1..]);
      assert ys[0] !in Elems(ys[1..]);
      assert Elems(xs[1..]) == Elems(ys[1..]);
      StrictlySortedUnique(xs[1..], ys[1..]);
      assert xs == [xs[0]] + xs[1..] && ys == [ys[0]] + ys[1..];
    }
  }

  lemma SortedSetFixesSorted(xs: seq<string>)
    ensures SortedSet(xs) == xs <==> StrictlySorted(xs)
  {
    if StrictlySorted(xs) {
      StrictlySortedUnique(SortedSet(xs), xs);
    }
  }

  // ---------------------------------------------------------------------
  // `re.sub(r'[\n\r\t ]+', ' ', s)`: the whitespace folding both
  // `space_normalize` functions apply to text.

  predicate IsFoldSpace(c: char) { c == '\n' || c == '\r' || c == '\t' || c == ' ' }

  function DropFoldSpace(s: string): (r: string)
    ensures |r| <= |s| && r == s[|s| - |r|..]
    ensures |r| > 0 ==> !IsFoldSpace(r[0])
    ensures forall i :: 0 <= i < |s| - |r| ==> IsFoldSpace(s[i])
  {
    if |s| > 0 && IsFoldSpace(s[0]) then DropFoldSpace(s[1..]) else s
  }

  /** No newline, carriage return or tab, and no two spaces in a row. */
  ghost predicate Folded(s: string)
  {
    (forall i :: 0 <= i < |s| ==> s[i] != '\n' && s[i] != '\r' && s[i] != '\t') && NoDoubleSpace(s)
  }

  /** No two spaces in a row. */
  predicate NoDoubleSpace(s: string)
    decreases |s|
  {
    |s| < 2 || (!(s[0] == ' ' && s[1] == ' ') && NoDoubleSpace(s[1..]))
  }

  lemma NoDoubleSpaceCons(c: char, s: string)
    requires NoDoubleSpace(s) && (s == [] || c != ' ' || s[0] != ' ')
    ensures NoDoubleSpace([c] + s)
  {
    assert ([c] + s)[1..] == s;
  }

  lemma {:induction false} NoDoubleSpaceSnoc(s: string, c: char)
    requires NoDoubleSpace(s) && (s == [] || c != ' ' || s[|s| - 1] != ' ')
    ensures NoDoubleSpace(s + [c])
    decreases |s|
  {
    if |s| >= 1 {
      assert (s + [c])[1..] == s[1..] + [c];
      NoDoubleSpaceSnoc(s[1..], c);
    }
  }

  lemma {:induction false} NoDoubleSpaceDrop(s: string, k: nat)
    requires NoDoubleSpace(s) && k <= |s|
    ensures NoDoubleSpace(s[k..])
    decreases k
  {
    if k > 0 && |s| >= 2 {
      assert s[k..] == s[1..][k - 1..];
      NoDoubleSpaceDrop(s[1..], k - 1);
    }
  }

  lemma {:induction false} NoDoubleSpaceTake(s: string, k: nat)
    requires NoDoubleSpace(s) && k <= |s|
    ensures NoDoubleSpace(s[..k])
    decreases k
  {
    if k >= 2 {
      assert s[..k][1..] == s[1..][..k - 1];
      NoDoubleSpaceTake(s[1..], k - 1);
    }
  }

  function CollapseSpace(s: string): (r: string)
    ensures |r| <= |s| && (|r| == 0 <==> |s| == 0)
    ensures |r| > 0 ==> (r[0] == ' ' <==> IsFoldSpace(s[0]))
    ensures |r| > 0 ==> (r[|r| - 1] == ' ' <==> IsFoldSpace(s[|s| - 1]))
    ensures Folded(r)
    decreases |s|
  {
    if s == [] then []
    else if IsFoldSpace(s[0]) then
      var rest := DropFoldSpace(s[1..]);
      var c := CollapseSpace(rest);
      assert rest == [] ==> forall i :: 0 <= i < |s| - 1 ==> IsFoldSpace(s[1..][i]);
      NoDoubleSpaceCons(' ', c);
      FoldedCons(' ', c);
      " " + c
    else
      var c := CollapseSpace(s[1..]);
      NoDoubleSpaceCons(s[0], c);
      FoldedCons(s[0], c);
      [s[0]] + c
  }

  lemma FoldedCons(c: char, s: string)
    requires Folded(s) && NoDoubleSpace([c] + s) && c != '\n' && c != '\r' && c != '\t'
    ensures Folded([c] + s)
  {
    assert forall i :: 1 <= i < |s| + 1 ==> ([c] + s)[i] == s[i - 1];
  }

  /** Folding is the identity on folded text, so it is idempotent. */
  lemma {:induction false} CollapseFolded(s: string)
    requires Folded(s)
    ensures CollapseSpace(s) == s
    decreases |s|
  {
    if s != [] {
      assert Folded(s[1..]) by {
        NoDoubleSpaceDrop(s, 1);
      }
      if IsFoldSpace(s[0]) {
        assert s[0] == ' ';
        assert s[1..] == [] || !IsFoldSpace(s[1]);
        assert DropFoldSpace(s[1..]) == s[1..];
      }
      CollapseFolded(s[1..]);
    }
  }

  lemma CollapseIdempotent(s: string)
    ensures CollapseSpace(CollapseSpace(s)) == CollapseSpace(s)
  {
    CollapseFolded(CollapseSpace(s));
  }

  lemma LStripFolded(s: string)
    requires Folded(s)
    ensures Folded(LStrip(s))
  {
    var r := LStrip(s);
    var k := |s| - |r|;
    NoDoubleSpaceDrop(s, k);
    assert forall i :: 0 <= i < |r| ==> r[i] == s[k + i];
  }

  lemma RStripFolded(s: string)
    requires Folded(s)
    ensures Folded(RStrip(s))
  {
    var r := RStrip(s);
    NoDoubleSpaceTake(s, |r|);
    assert forall i :: 0 <= i < |r| ==> r[i] == s[i];
  }

  /** The characters of `s` that are not whitespace, in order. */
  function Visible(s: string): string
  {
    if s == [] then [] else (if IsSpace(s[0]) then [] else [s[0]]) + Visible(s[1..])
  }

  lemma {:induction false} VisibleAppend(a: string, b: string)
    ensures Visible(a + b) == Visible(a) + Visible(b)
    decreases |a|
  {
    if a == [] {
      assert a + b == b;
    } else {
      assert (a + b)[1..] == a[1..] + b;
      VisibleAppend(a[1..], b);
    }
  }

  lemma {:induction false} VisibleAllSpace(s: string)
    requires AllSpace(s)
    ensures Visible(s) == []
    decreases |s|
  {
    if s != [] {
      VisibleAllSpace(s[1..]);
    }
  }

  lemma {:induction false} VisibleDropFoldSpace(s: string)
    ensures Visible(DropFoldSpace(s)) == Visible(s)
    decreases |s|
  {
    if |s| > 0 && IsFoldSpace(s[0]) {
      VisibleDropFoldSpace(s[1..]);
    }
  }

  /** Folding, `lstrip` and `rstrip` change only whitespace. */
  lemma {:induction false} VisibleCollapse(s: string)
    ensures Visible(CollapseSpace(s)) == Visible(s)
    decreases |s|
  {
    if s != [] {
      if IsFoldSpace(s[0]) {
        var rest := DropFoldSpace(s[1..]);
        VisibleCollapse(rest);
        VisibleDropFoldSpace(s[1..]);
        VisibleFoldHead(s, CollapseSpace(rest));
      } else {
        VisibleCollapse(s[1..]);
        VisibleKeptHead(s, CollapseSpace(s[1..]));
      }
    }
  }

  /** A run of folding whitespace becomes one space, which is not visible. */
  lemma VisibleFoldHead(s: string, c: string)
    requires s != [] && IsFoldSpace(s[0]) && c == CollapseSpace(DropFoldSpace(s[1..]))
    ensures Visible(CollapseSpace(s)) == Visible(c)
    ensures Visible(s) == Visible(s[1..])
  {
    assert CollapseSpace(s) == " " + c;
    VisibleAppend(" ", c);
    assert Visible(" ") == [] by {
      assert IsSpace(' ') && " "[1..] == [];
    }
    assert IsSpace(s[0]);
  }

  /** Any other character is kept, along with its visibility. */
  lemma VisibleKeptHead(s: string, c: string)
    requires s != [] && !IsFoldSpace(s[0]) && c == CollapseSpace(s[1..])
    ensures Visible(CollapseSpace(s)) == Visible([s[0]]) + Visible(c)
    ensures Visible(s) == Visible([s[0]]) + Visible(s[1..])
  {
    assert CollapseSpace(s) == [s[0]] + c;
    VisibleAppend([s[0]], c);
    VisibleOne(s[0]);
  }

  lemma VisibleOne(c: char)
    ensures Visible([c]) == if IsSpace(c) then [] else [c]
  {
    assert [c][1..] == [];
  }

  lemma VisibleStrip(s: string)
    ensures Visible(LStrip(s)) == Visible(s)
    ensures Visible(RStrip(s)) == Visible(s)
  {
    VisibleLStrip(s);
    VisibleRStrip(s);
  }

  lemma VisibleLStrip(s: string)
    ensures Visible(LStrip(s)) == Visible(s)
  {
    var l := LStrip(s);
    var k := |s| - |l|;
    TakeDrop(s, k);
    TakeIndex(s, k);
    VisibleAppend(s[..k], l);
    VisibleAllSpace(s[..k]);
  }

  lemma VisibleRStrip(s: string)
    ensures Visible(RStrip(s)) == Visible(s)
  {
    var r := RStrip(s);
    TakeDrop(s, |r|);
    DropIndex(s, |r|);
    VisibleAppend(r, s[|r|..]);
    VisibleAllSpace(s[|r|..]);
  }

  // ---------------------------------------------------------------------
  // Finding a character: `s.find(c)` and `s.rfind(c)`

  /** The index of the first `c` in `s`. */
  function IndexOf(s: string, c: char): (r: Option<nat>)
    ensures r.Some? ==> r.value < |s| && s[r.value] == c && c !in s[..r.value]
    ensures r.None? <==> c !in s
  {
    if s == [] then None
    else if s[0] == c then Some(0)
    else match IndexOf(s[1..], c)
      case None => None
      case Some(i) =>
        assert s[..i + 1] == [s[0]] + s[1..][..i];
        Some(i + 1)
  }

  /** The index of the last `c` in `s`. */
  function LastIndexOf(s: string, c: char): (r: Option<nat>)
    ensures r.Some? ==> r.value < |s| && s[r.value] == c && c !in s[r.value + 1..]
    ensures r.None? <==> c !in s
  {
    if s == [] then None
    else if s[|s| - 1] == c then
      assert s[|s|..] == [];
      Some(|s| - 1)
    else
      var r := LastIndexOf(s[..|s| - 1], c);
      assert s == s[..|s| - 1] + [s[|s| - 1]];
      if r.Some? then
        var t := s[..|s| - 1];
        assert forall j :: r.value + 1 <= j < |s| ==> s[j] == (t[r.value + 1..] + [s[|s| - 1]])[j - r.value - 1];
        assert s[r.value + 1..] == t[r.value + 1..] + [s[|s| - 1]];
        r
      else r
  }

  /** The first `c` of `a + [c] + b` is the one after `a`, when `a` has none. */
  lemma {:induction false} FirstAt(a: string, b: string, c: char)
    requires c !in a
    ensures IndexOf(a + [c] + b, c) == Some(|a|)
  {
    if a != [] {
      assert (a + [c] + b)[1..] == a[1..] + [c] + b;
      FirstAt(a[1..], b, c);
    }
  }

  /** The last `c` of `a + [c] + b` is the one before `b`, when `b` has none. */
  lemma {:induction false} LastAt(a: string, b: string, c: char)
    requires c !in b
    ensures LastIndexOf(a + [c] + b, c) == Some(|a|)
    decreases |b|
  {
    var s := a + [c] + b;
    if b != [] {
      assert s[..|s| - 1] == a + [c] + b[..|b| - 1];
      assert s[|s| - 1] == b[|b| - 1];
      LastAt(a, b[..|b| - 1], c);
    }
  }

  /** Any `c` of `s` is at or after the first one. */
  lemma {:induction false} FirstBefore(s: string, c: char, j: nat)
    requires j < |s| && s[j] == c
    ensures IndexOf(s, c).Some? && IndexOf(s, c).value <= j
  {
    if s[0] != c {
      FirstBefore(s[1..], c, j - 1);
    }
  }

  /** Any `c` of `s` is at or before the last one. */
  lemma {:induction false} LastAfter(s: string, c: char, j: nat)
    requires j < |s| && s[j] == c
    ensures LastIndexOf(s, c).Some? && LastIndexOf(s, c).value >= j
    decreases |s|
  {
    if s[|s| - 1] != c {
      LastAfter(s[..|s| - 1], c, j);
    }
  }
}
