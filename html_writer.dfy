/** The string helpers of html_writer.py: indentation, whitespace clean-up of
    the output, CDATA wrapping of scripts, bibliography anchors, the tag and
    class canonicalisation of `handle_fragment`, and the rendering of
    attributes. */
module HtmlWriter {
  import opened Wrappers
  import opened PyStr
  import opened Internal
  import Seqs

  // ---------------------------------------------------------------------
  // _indent

  /** The characters at which `unicode.splitlines` ends a line. */
  predicate IsLineBreak(c: char)
  {
    c == '\n' || c == '\r' || c == '\U{000B}' || c == '\U{000C}' || c == '\U{001C}' ||
    c == '\U{001D}' || c == '\U{001E}' || c == '\U{0085}' || c == '\U{2028}' || c == '\U{2029}'
  }

  predicate NoBreak(a: string)
  {
    forall i :: 0 <= i < |a| ==> !IsLineBreak(a[i])
  }

  /** The position of the first line-break character. */
  function FirstBreak(s: string): (r: Option<nat>)
    ensures r.None? ==> NoBreak(s)
    ensures r.Some? ==> r.value < |s| && IsLineBreak(s[r.value]) && NoBreak(s[..r.value])
  {
    if s == [] then None
    else if IsLineBreak(s[0]) then Some(0)
    else match FirstBreak(s[1..])
      case None => None
      case Some(i) =>
        assert s[..i + 1] == [s[0]] + s[1..][..i];
        NoBreakCons(s[0], s[1..][..i]);
        Some(i + 1)
  }

  lemma {:induction false} NoBreakCons(c: char, t: string)
    requires !IsLineBreak(c) && NoBreak(t)
    ensures NoBreak([c] + t)
  {
    forall i | 0 <= i < |[c] + t| ensures !IsLineBreak(([c] + t)[i]) {
      if i > 0 {
        assert ([c] + t)[i] == t[i - 1];
      }
    }
  }

  /** The tail of a text without breaks has none. */
  lemma {:induction false} NoBreakTail(a: string)
    requires NoBreak(a) && a != []
    ensures !IsLineBreak(a[0]) && NoBreak(a[1..])
  {
    forall i | 0 <= i < |a[1..]| ensures !IsLineBreak(a[1..][i]) {
      assert a[1..][i] == a[i + 1];
    }
  }

  /** The length of the break that starts at `s[i]`: `\r\n` is one break. */
  function BreakLen(s: string, i: nat): (n: nat)
    requires i < |s|
    ensures 1 <= n <= |s| - i
    ensures n == 2 <==> s[i] == '\r' && i + 1 < |s| && s[i + 1] == '\n'
  {
    if s[i] == '\r' && i + 1 < |s| && s[i + 1] == '\n' then 2 else 1
  }

  /** `s.splitlines(True)`: every line keeps its break, the last one need
      not have one. */
  function SplitLinesKeep(s: string): (r: seq<string>)
    ensures Concat(r) == s
    decreases |s|
  {
    if s == [] then []
    else match FirstBreak(s)
      case None => [s]
      case Some(i) =>
        var j := i + BreakLen(s, i);
        assert s == s[..j] + s[j..];
        [s[..j]] + SplitLinesKeep(s[j..])
  }

  function IndentLine(line: string, indent: string): string
  {
    if line == "\n" then line else indent + line
  }

  function IndentLines(lines: seq<string>, indent: string): string
  {
    if lines == [] then "" else IndentLine(lines[0], indent) + IndentLines(lines[1..], indent)
  }

  /** `_indent(s, indent)`. */
  function IndentText(s: string, indent: string): string
  {
    IndentLines(SplitLinesKeep(s), indent)
  }

  /** The same, character by character: `indent` goes in front of every
      character that starts a line, unless that character is the `\n` of an
      empty line; a line starts after every break, and the `\r` and `\n` of
      `\r\n` belong to one break. */
  function IndentRef(s: string, indent: string, atStart: bool): string
  {
    if s == [] then ""
    else
      var next := IsLineBreak(s[0]) && !(s[0] == '\r' && |s| > 1 && s[1] == '\n');
      (if atStart && s[0] != '\n' then indent else "") + [s[0]] + IndentRef(s[1..], indent, next)
  }

  /** A break sequence as `SplitLinesKeep` cuts it off, followed by `rest`. */
  predicate IsBreakBefore(b: string, rest: string)
  {
    b == "\r\n" || (|b| == 1 && IsLineBreak(b[0]) && (b == "\r" ==> rest == [] || rest[0] != '\n'))
  }

  /** One step of the reference. */
  lemma {:induction false} IndentRefCons(c: char, t: string, indent: string, atStart: bool)
    ensures IndentRef([c] + t, indent, atStart) ==
      (if atStart && c != '\n' then indent else "") + [c] +
      IndentRef(t, indent, IsLineBreak(c) && !(c == '\r' && |t| > 0 && t[0] == '\n'))
  {
    assert ([c] + t)[0] == c && ([c] + t)[1..] == t;
  }

  /** A text without breaks inside a line is kept. */
  lemma {:induction false} IndentRefNoBreak(a: string, indent: string)
    requires NoBreak(a)
    ensures IndentRef(a, indent, false) == a
  {
    if a != [] {
      assert [a[0]] + a[1..] == a;
      NoBreakTail(a);
      IndentRefCons(a[0], a[1..], indent, false);
      IndentRefNoBreak(a[1..], indent);
    }
  }

  /** Inside a line nothing is inserted. */
  lemma {:induction false} IndentRefInLine(a: string, rest: string, indent: string)
    requires NoBreak(a)
    ensures IndentRef(a + rest, indent, false) == a + IndentRef(rest, indent, false)
  {
    if a != [] {
      var h, t := a[0], a[1..];
      assert a == [h] + t;
      assert a + rest == [h] + (t + rest);
      NoBreakTail(a);
      IndentRefCons(h, t + rest, indent, false);
      IndentRefInLine(t, rest, indent);
    } else {
      assert a + rest == rest;
    }
  }

  /** A break, seen from inside a line or from the start of an empty one. */
  lemma {:induction false} IndentRefBreak(b: string, rest: string, indent: string, atStart: bool)
    requires IsBreakBefore(b, rest)
    ensures IndentRef(b + rest, indent, atStart) ==
      (if atStart && b != "\n" then indent else "") + b + IndentRef(rest, indent, true)
  {
    if b == "\r\n" {
      assert b + rest == ['\r'] + (['\n'] + rest);
      IndentRefCons('\r', ['\n'] + rest, indent, atStart);
      IndentRefCons('\n', rest, indent, false);
    } else {
      assert b + rest == [b[0]] + rest;
      IndentRefCons(b[0], rest, indent, atStart);
    }
  }

  /** A line ended by a break, seen from its start. */
  lemma {:induction false} IndentRefLine(a: string, b: string, rest: string, indent: string)
    requires NoBreak(a) && IsBreakBefore(b, rest)
    ensures IndentRef(a + b + rest, indent, true) == IndentLine(a + b, indent) + IndentRef(rest, indent, true)
  {
    if a == [] {
      assert a + b + rest == b + rest && a + b == b;
      IndentRefBreak(b, rest, indent, true);
    } else {
      NoBreakTail(a);
      IndentRefLineStep(a[0], a[1..], b, rest, indent);
      assert a == [a[0]] + a[1..];
    }
  }

  lemma {:induction false} IndentRefLineStep(h: char, t: string, b: string, rest: string, indent: string)
    requires !IsLineBreak(h) && NoBreak(t) && IsBreakBefore(b, rest)
    ensures IndentRef([h] + t + b + rest, indent, true) == IndentLine([h] + t + b, indent) + IndentRef(rest, indent, true)
  {
    assert [h] + t + b + rest == [h] + (t + (b + rest));
    IndentRefCons(h, t + (b + rest), indent, true);
    IndentRefInLine(t, b + rest, indent);
    IndentRefBreak(b, rest, indent, false);
    assert |[h] + t + b| >= 2;
    assert [h] + t + b == [h] + (t + b);
  }

  /** The last line when it has no break. */
  lemma {:induction false} IndentRefLastLine(a: string, indent: string)
    requires NoBreak(a) && a != []
    ensures IndentRef(a, indent, true) == indent + a
  {
    var h, t := a[0], a[1..];
    assert [h] + t == a;
    NoBreakTail(a);
    IndentRefCons(h, t, indent, true);
    IndentRefNoBreak(t, indent);
    Seqs.AppendAssoc(indent, [h], t);
  }

  /** `_indent` prefixes every line with `indent` except lines that are
      exactly `\n`. */
  lemma {:induction false} IndentByChar(s: string, indent: string)
    ensures IndentText(s, indent) == IndentRef(s, indent, true)
    decreases |s|
  {
    if s != [] {
      match FirstBreak(s)
      case None =>
        assert SplitLinesKeep(s) == [s];
        IndentRefLastLine(s, indent);
        assert s != "\n";
        assert IndentLines([s], indent) == IndentLine(s, indent) + IndentLines([], indent);
      case Some(i) =>
        var j := i + BreakLen(s, i);
        var a, b, rest := s[..i], s[i..j], s[j..];
        assert s == a + b + rest;
        assert s[..j] == a + b;
        assert IsBreakBefore(b, rest) by {
          if j == i + 1 {
            assert b == [s[i]];
            assert rest == s[i + 1..];
          } else {
            assert b == "\r\n";
          }
        }
        IndentRefLine(a, b, rest, indent);
        IndentByChar(rest, indent);
        var lines := [a + b] + SplitLinesKeep(rest);
        assert SplitLinesKeep(s) == lines;
        assert lines[0] == a + b && lines[1..] == SplitLinesKeep(rest);
    }
  }

  /** The example of the test suite: the empty line stays empty and the
      line of spaces is indented. */
  lemma {:induction false} IndentExample(a: char, b: char, c: char)
    requires !IsLineBreak(a) && !IsLineBreak(b) && !IsLineBreak(c)
    ensures IndentText([a] + "\n\n" + [b] + "\n  \n  " + [c], "  ") ==
      "  " + [a] + "\n\n  " + [b] + "\n    \n    " + [c]
  {
    var sp := "  ";
    var s2 := [b] + "\n" + (sp + "\n" + (sp + [c]));
    var r2 := sp + [b] + "\n" + (sp + sp + "\n" + (sp + (sp + [c])));
    var s1 := [] + "\n" + s2;
    var s := [a] + "\n" + s1;
    assert s == [a] + "\n\n" + [b] + "\n  \n  " + [c];
    assert NoBreak([a]) && NoBreak([]);
    IndentByChar(s, sp);
    IndentExampleTail(b, c);
    IndentRefLine([], "\n", s2, sp);
    assert [] + "\n" == "\n";
    var r1 := "\n" + r2;
    assert IndentRef(s1, sp, true) == r1;
    IndentRefLine([a], "\n", s1, sp);
    assert IndentRef(s, sp, true) == sp + [a] + "\n" + r1;
    ConcatExample(a, b, c, sp + [a] + "\n" + r1);
  }

  lemma {:induction false} IndentExampleTail(b: char, c: char)
    requires !IsLineBreak(b) && !IsLineBreak(c)
    ensures IndentRef([b] + "\n" + ("  " + "\n" + ("  " + [c])), "  ", true) ==
      "  " + [b] + "\n" + ("  " + "  " + "\n" + ("  " + ("  " + [c])))
  {
    var sp := "  ";
    var s4 := sp + [c];
    var s3 := sp + "\n" + s4;
    assert NoBreak(sp) && NoBreak(s4) && NoBreak([b]);
    IndentRefLastLine(s4, sp);
    IndentRefLine(sp, "\n", s4, sp);
    assert IndentRef(s3, sp, true) == sp + sp + "\n" + (sp + s4);
    IndentRefLine([b], "\n", s3, sp);
  }

  lemma {:induction false} ConcatExample(a: char, b: char, c: char, r: string)
    requires r == "  " + [a] + "\n" + ("\n" + ("  " + [b] + "\n" + ("  " + "  " + "\n" + ("  " + ("  " + [c])))))
    ensures r == "  " + [a] + "\n\n  " + [b] + "\n    \n    " + [c]
  {
  }

  /** A carriage return ends a line as well, on its own or as `\r\n`, and a
      line made of `\r` alone is indented. */
  lemma {:induction false} IndentCarriageReturn()
    ensures IndentText("a\rb", "  ") == "  a\r  b"
  {
    assert NoBreak("a") && NoBreak("b");
    IndentByChar("a\rb", "  ");
    assert "a\rb" == "a" + "\r" + "b";
    IndentRefLine("a", "\r", "b", "  ");
    IndentRefLastLine("b", "  ");
  }

  lemma {:induction false} IndentCarriageReturnNewline()
    ensures IndentText("a\r\nb", "  ") == "  a\r\n  b"
  {
    assert NoBreak("a") && NoBreak("b");
    IndentByChar("a\r\nb", "  ");
    assert "a\r\nb" == "a" + "\r\n" + "b";
    IndentRefLine("a", "\r\n", "b", "  ");
    IndentRefLastLine("b", "  ");
  }

  lemma {:induction false} IndentLoneCarriageReturn()
    ensures IndentText("\r", "  ") == "  \r"
  {
    IndentByChar("\r", "  ");
    assert "\r" == [] + "\r" + [];
    IndentRefLine([], "\r", [], "  ");
  }

  // ---------------------------------------------------------------------
  // _space_kludge

  function RStripAll(lines: seq<string>): (r: seq<string>)
    ensures |r| == |lines|
    ensures forall i :: 0 <= i < |r| ==> r[i] == RStrip(lines[i])
  {
    if lines == [] then [] else [RStrip(lines[0])] + RStripAll(lines[1..])
  }

  /** `_space_kludge(s)`: strip the whole text, then every line's end. */
  function SpaceKludge(s: string): string
  {
    Join("\n", RStripAll(Split(Strip(s), "\n")))
  }

  /** A string without the separator is one piece. */
  lemma {:induction false} SplitFromNoSep(s: string, cur: string)
    requires '\n' !in s
    ensures SplitFrom(s, "\n", cur) == [cur + s]
    decreases |s|
  {
    if |s| >= 1 {
      assert s[..1] != "\n" by {
        assert s[0] in s;
      }
      assert '\n' !in s[1..] by {
        assert forall c :: c in s[1..] ==> c in s;
      }
      SplitFromNoSep(s[1..], cur + [s[0]]);
      assert cur + [s[0]] + s[1..] == cur + s;
    }
  }

  /** The text before a separator. */
  lemma {:induction false} SplitFromPiece(a: string, rest: string, cur: string)
    requires '\n' !in a
    ensures SplitFrom(a + "\n" + rest, "\n", cur) == [cur + a] + SplitFrom(rest, "\n", "")
    decreases |a|
  {
    var s := a + "\n" + rest;
    if a == [] {
      assert s == "\n" + rest;
      assert s[..1] == "\n" && s[1..] == rest;
      assert cur + a == cur;
    } else {
      assert s[..1] != "\n" by {
        assert s[0] == a[0] && a[0] in a;
      }
      assert s[1..] == a[1..] + "\n" + rest;
      assert '\n' !in a[1..] by {
        assert forall c :: c in a[1..] ==> c in a;
      }
      SplitFromPiece(a[1..], rest, cur + [s[0]]);
      assert cur + [s[0]] + a[1..] == cur + a;
    }
  }

  predicate NoNewline(parts: seq<string>)
  {
    forall i :: 0 <= i < |parts| ==> '\n' !in parts[i]
  }

  /** Splitting a join of pieces without the separator gives the pieces. */
  lemma {:induction false} JoinSplit(parts: seq<string>)
    requires |parts| > 0 && NoNewline(parts)
    ensures Split(Join("\n", parts), "\n") == parts
    decreases |parts|
  {
    if |parts| == 1 {
      SplitFromNoSep(parts[0], "");
      assert "" + parts[0] == parts[0];
    } else {
      var rest := Join("\n", parts[1..]);
      assert NoNewline(parts[1..]) by {
        forall i | 0 <= i < |parts[1..]| ensures '\n' !in parts[1..][i] {
          assert parts[1..][i] == parts[i + 1];
        }
      }
      JoinSplit(parts[1..]);
      SplitFromPiece(parts[0], rest, "");
      assert "" + parts[0] == parts[0];
      assert parts == [parts[0]] + parts[1..];
    }
  }

  lemma {:induction false} SplitFromNoNewline(s: string, cur: string)
    requires '\n' !in cur
    ensures NoNewline(SplitFrom(s, "\n", cur))
    decreases |s|
  {
    if |s| < 1 {
      assert s == [] && cur + s == cur;
    } else if s[..1] == "\n" {
      SplitFromNoNewline(s[1..], "");
    } else {
      assert s[0] != '\n' by {
        assert s[..1] == [s[0]];
      }
      assert '\n' !in cur + [s[0]];
      SplitFromNoNewline(s[1..], cur + [s[0]]);
    }
  }

  lemma {:induction false} RStripNoNewline(parts: seq<string>)
    requires NoNewline(parts)
    ensures NoNewline(RStripAll(parts))
  {
    forall i | 0 <= i < |parts| ensures '\n' !in RStripAll(parts)[i] {
      var r := RStrip(parts[i]);
      assert forall c :: c in r ==> c in parts[i];
    }
  }

  /** The lines of the output are the stripped text's lines with their
      trailing whitespace removed. */
  lemma {:induction false} SpaceKludgeLines(s: string)
    ensures Split(SpaceKludge(s), "\n") == RStripAll(Split(Strip(s), "\n"))
  {
    var lines := Split(Strip(s), "\n");
    SplitFromNoNewline(Strip(s), "");
    RStripNoNewline(lines);
    JoinSplit(RStripAll(lines));
  }

  /** No line of the output ends in whitespace. */
  lemma {:induction false} SpaceKludgeNoTrailing(s: string)
    ensures forall l :: l in Split(SpaceKludge(s), "\n") && l != "" ==> !IsSpace(l[|l| - 1])
  {
    SpaceKludgeLines(s);
    var lines := Split(Strip(s), "\n");
    var out := RStripAll(lines);
    forall l | l in out && l != ""
      ensures !IsSpace(l[|l| - 1])
    {
      var i :| 0 <= i < |out| && out[i] == l;
      RStripLast(lines[i]);
    }
  }

  lemma {:induction false} RStripLast(l: string)
    ensures RStrip(l) != "" ==> !IsSpace(RStrip(l)[|RStrip(l)| - 1])
  {
  }

  /** The first line of a join is where the text starts. */
  lemma {:induction false} JoinHead(parts: seq<string>)
    requires |parts| > 0 && parts[0] != ""
    ensures Join("\n", parts) != "" && Join("\n", parts)[0] == parts[0][0]
  {
  }

  lemma {:induction false} JoinLast(parts: seq<string>)
    requires |parts| > 0 && parts[|parts| - 1] != ""
    ensures var j := Join("\n", parts); j != "" && j[|j| - 1] == parts[|parts| - 1][|parts[|parts| - 1]| - 1]
    decreases |parts|
  {
    if |parts| > 1 {
      JoinLast(parts[1..]);
    }
  }

  /** The first piece of a split is where the text starts, the last is
      where it ends. */
  lemma {:induction false} SplitFromHead(s: string, cur: string)
    requires cur != "" || (s != [] && s[0] != '\n')
    ensures var r := SplitFrom(s, "\n", cur); r[0] != "" && r[0][0] == (cur + s)[0]
    decreases |s|
  {
    if |s| >= 1 && s[..1] != "\n" {
      assert s[0] != '\n' by {
        assert s[..1] == [s[0]];
      }
      SplitFromHead(s[1..], cur + [s[0]]);
      assert (cur + [s[0]] + s[1..]) == cur + s;
    } else if |s| >= 1 {
      assert s[0] == '\n' by {
        assert s[..1] == [s[0]];
      }
    }
  }

  lemma {:induction false} SplitFromLast(s: string, cur: string)
    requires s != [] && s[|s| - 1] != '\n'
    ensures var r := SplitFrom(s, "\n", cur); var l := r[|r| - 1]; l != "" && l[|l| - 1] == s[|s| - 1]
    decreases |s|
  {
    if |s| == 1 {
      assert s[..1] == s && s[..1] != "\n";
      assert s[1..] == [];
      assert cur + [s[0]] + [] == cur + [s[0]];
      assert SplitFrom(s[1..], "\n", cur + [s[0]]) == [cur + [s[0]]];
    } else if s[..1] == "\n" {
      SplitFromLast(s[1..], "");
    } else {
      SplitFromLast(s[1..], cur + [s[0]]);
    }
  }

  lemma {:induction false} RStripKeeps(l: string)
    requires l != "" && !IsSpace(l[|l| - 1])
    ensures RStrip(l) == l
  {
  }

  lemma {:induction false} RStripIdempotent(l: string)
    ensures RStrip(RStrip(l)) == RStrip(l)
  {
    var r := RStrip(l);
    if r != "" {
      RStripKeeps(r);
    }
  }

  lemma {:induction false} RStripHead(l: string)
    requires l != "" && !IsSpace(l[0])
    ensures RStrip(l) != "" && RStrip(l)[0] == l[0]
  {
  }

  /** The line clean-up keeps the first and the last character of a text
      that starts and ends with something other than whitespace. */
  lemma {:induction false} KludgeEnds(t: string)
    requires t != "" && !IsSpace(t[0]) && !IsSpace(t[|t| - 1])
    ensures var out := Join("\n", RStripAll(Split(t, "\n")));
      out != "" && out[0] == t[0] && out[|out| - 1] == t[|t| - 1]
  {
    var lines := Split(t, "\n");
    var out := RStripAll(lines);
    assert "" + t == t;
    SplitFromHead(t, "");
    SplitFromLast(t, "");
    RStripHead(lines[0]);
    RStripKeeps(lines[|lines| - 1]);
    JoinHead(out);
    JoinLast(out);
  }

  /** The output is already stripped. */
  lemma {:induction false} SpaceKludgeStripped(s: string)
    ensures Strip(SpaceKludge(s)) == SpaceKludge(s)
  {
    var t := Strip(s);
    if t != "" {
      StripEnds(s);
      KludgeEnds(t);
      StripFixed(SpaceKludge(s));
    } else {
      assert "" + "" == "";
      assert Split(t, "\n") == [""];
      assert RStripAll([""]) == [""];
    }
  }

  lemma {:induction false} StripEnds(s: string)
    ensures var t := Strip(s); t != "" ==> !IsSpace(t[0]) && !IsSpace(t[|t| - 1])
  {
  }

  lemma {:induction false} StripFixed(s: string)
    requires s != "" && !IsSpace(s[0]) && !IsSpace(s[|s| - 1])
    ensures Strip(s) == s
  {
    assert LStrip(s) == s;
  }

  lemma {:induction false} RStripAllIdempotent(lines: seq<string>)
    ensures RStripAll(RStripAll(lines)) == RStripAll(lines)
  {
    forall i | 0 <= i < |lines| ensures RStripAll(RStripAll(lines))[i] == RStripAll(lines)[i] {
      RStripIdempotent(lines[i]);
    }
  }

  /** Cleaning up the output twice is cleaning it up once. */
  lemma {:induction false} SpaceKludgeIdempotent(s: string)
    ensures SpaceKludge(SpaceKludge(s)) == SpaceKludge(s)
  {
    var out := SpaceKludge(s);
    SpaceKludgeStripped(s);
    SpaceKludgeLines(s);
    RStripAllIdempotent(Split(Strip(s), "\n"));
    SplitJoin(out, "\n");
  }

  // ---------------------------------------------------------------------
  // maybe_cdatafy

  const CDATA_OPEN: string := "/*<![CDATA[*/\n"
  const CDATA_CLOSE: string := "\n/*]]>*/"

  /** `s.replace(']]>', r']]\>')`. */
  function CdataEscape(s: string): string
  {
    Replace(s, "]]>", "]]\\>")
  }

  /** `maybe_cdatafy(s)`. */
  function MaybeCdatafy(s: string): string
  {
    if '<' !in s && '&' !in s then s else CDATA_OPEN + CdataEscape(s) + CDATA_CLOSE
  }

  lemma {:induction false} ReplaceNotShorter(s: string)
    ensures |CdataEscape(s)| >= |s|
    decreases |s|
  {
    if |s| >= 3 {
      if s[..3] == "]]>" {
        ReplaceNotShorter(s[3..]);
      } else {
        ReplaceNotShorter(s[1..]);
      }
    }
  }

  /** Text without `<` and `&` is left as it is, and any other text is
      changed. */
  lemma {:induction false} CdatafyUnchangedIff(s: string)
    ensures MaybeCdatafy(s) == s <==> '<' !in s && '&' !in s
  {
    if '<' in s || '&' in s {
      ReplaceNotShorter(s);
    }
  }

  /** The escape keeps the first character. */
  lemma {:induction false} EscapedFirst(t: string)
    requires t != []
    ensures CdataEscape(t) != [] && CdataEscape(t)[0] == t[0]
  {
    if |t| >= 3 && t[..3] == "]]>" {
      assert t[0] == t[..3][0];
    }
  }

  /** An escaped text starts with `]>` only when the original did. */
  lemma {:induction false} EscapedHead(t: string)
    ensures StartsWith(CdataEscape(t), "]>") ==> StartsWith(t, "]>")
  {
    var e := CdataEscape(t);
    if |t| >= 3 && t[..3] == "]]>" {
      assert e == "]]\\>" + CdataEscape(t[3..]);
      assert e[1] == ']';
    } else if |t| >= 3 {
      assert e == [t[0]] + CdataEscape(t[1..]);
      if StartsWith(e, "]>") {
        EscapedFirst(t[1..]);
        assert e[1] == CdataEscape(t[1..])[0];
        assert t[..2] == [t[0], t[1]];
      }
    }
  }

  lemma {:induction false} StartsWithCons(c: char, x: string, p: string)
    requires p != []
    ensures StartsWith([c] + x, p) ==> c == p[0] && StartsWith(x, p[1..])
  {
    if StartsWith([c] + x, p) {
      assert ([c] + x)[1..|p|] == x[..|p| - 1];
      assert p[1..] == ([c] + x)[..|p|][1..];
    }
  }

  lemma {:induction false} ContainsTail(c: char, x: string, p: string)
    requires p != [] && c != p[0]
    ensures Contains([c] + x, p) ==> Contains(x, p)
  {
    assert ([c] + x)[1..] == x;
  }

  /** The escaped text holds no `]]>`, so it cannot end the CDATA section
      early. */
  lemma {:induction false} CdataEscapeSafe(s: string)
    ensures !Contains(CdataEscape(s), "]]>")
    decreases |s|
  {
    var e := CdataEscape(s);
    if |s| < 3 {
      assert e == s;
      ContainsLonger(s, "]]>");
    } else if s[..3] == "]]>" {
      var x := CdataEscape(s[3..]);
      CdataEscapeSafe(s[3..]);
      var e3 := ['>'] + x;
      var e2 := ['\\'] + e3;
      var e1 := [']'] + e2;
      assert e == "]]\\>" + x;
      assert e == [']'] + e1;
      ContainsTail('>', x, "]]>");
      ContainsTail('\\', e3, "]]>");
      assert !StartsWith(e1, "]]>") by {
        assert e1[1] == '\\';
      }
      assert !StartsWith(e, "]]>") by {
        assert e[2] == '\\';
      }
      assert e[1..] == e1 && e1[1..] == e2;
    } else {
      var x := CdataEscape(s[1..]);
      CdataEscapeSafe(s[1..]);
      assert e == [s[0]] + x;
      assert e[1..] == x;
      EscapedHead(s[1..]);
      assert s[..3] == [s[0]] + s[1..][..2];
      StartsWithCons(s[0], x, "]]>");
      assert "]]>"[1..] == "]>";
    }
  }

  // ---------------------------------------------------------------------
  // _bibliography_anchor

  function DropNonAlnum(s: string): (r: string)
    ensures |r| <= |s| && (r != [] ==> IsAlnum(r[0]))
    ensures Alnums(r) == Alnums(s)
  {
    if s != [] && !IsAlnum(s[0]) then DropNonAlnum(s[1..]) else s
  }

  /** The ASCII letters and digits of `s`, in order. */
  function Alnums(s: string): string
  {
    if s == [] then [] else (if IsAlnum(s[0]) then [s[0]] else []) + Alnums(s[1..])
  }

  /** `ALPHA_NUMERIC_REX.sub('-', key)`: every maximal run of characters
      other than ASCII letters and digits becomes one `-`. */
  function BibliographyAnchor(key: string): (r: string)
    ensures Alnums(r) == Alnums(key)
    ensures AnchorShaped(r)
    decreases |key|
  {
    if key == [] then []
    else if IsAlnum(key[0]) then
      var t := BibliographyAnchor(key[1..]);
      assert ([key[0]] + t)[1..] == t;
      [key[0]] + t
    else
      var t := BibliographyAnchor(DropNonAlnum(key[1..]));
      assert ("-" + t)[1..] == t;
      "-" + t
  }

  /** Only letters, digits and single `-`s. */
  predicate AnchorShaped(r: string)
  {
    r == [] ||
    ((IsAlnum(r[0]) || (r[0] == '-' && (|r| == 1 || IsAlnum(r[1])))) && AnchorShaped(r[1..]))
  }

  /** An anchor is its own anchor. */
  lemma {:induction false} AnchorFixed(r: string)
    requires AnchorShaped(r)
    ensures BibliographyAnchor(r) == r
    decreases |r|
  {
    if r != [] {
      AnchorFixed(r[1..]);
      if !IsAlnum(r[0]) {
        assert DropNonAlnum(r[1..]) == r[1..];
      }
    }
  }

  /** Anchoring twice is anchoring once. */
  lemma {:induction false} AnchorIdempotent(key: string)
    ensures BibliographyAnchor(BibliographyAnchor(key)) == BibliographyAnchor(key)
  {
    AnchorFixed(BibliographyAnchor(key));
  }

  // ---------------------------------------------------------------------
  // handle_fragment: heading shift, dotted tags, classes

  /** `min(len(H_TAGS), max(1, n + h_shift))`. */
  function ShiftLevel(n: int, shift: int): (r: int)
    ensures 1 <= r <= 6
    ensures 1 <= n + shift <= 6 ==> r == n + shift
    ensures n + shift < 1 ==> r == 1
    ensures n + shift > 6 ==> r == 6
  {
    if n + shift < 1 then 1 else if n + shift > 6 then 6 else n + shift
  }

  /** The level of a heading tag, `int(tag[1])`. */
  function HeadingLevel(tag: string): int
    requires |tag| >= 2
  {
    tag[1] as int - '0' as int
  }

  /** The heading tag of a level. */
  function HeadingTag(n: int): string
    requires 1 <= n <= 6
  {
    "h" + [('0' as int + n) as char]
  }

  lemma {:induction false} HeadingTagLevel(n: int)
    requires 1 <= n <= 6
    ensures HeadingTag(n) in H_TAGS && HeadingLevel(HeadingTag(n)) == n
  {
    assert HeadingTag(n) == H_TAGS[n - 1];
  }

  /** A heading tag shifted by `h_shift`; other tags are kept. */
  function ShiftTag(tag: string, shift: int): string
  {
    if tag in H_TAGS && shift != 0 then HeadingTag(ShiftLevel(HeadingLevel(tag), shift)) else tag
  }

  /** A heading stays a heading, lands at its level plus the shift when that
      is between 1 and 6, and keeps its order against any other heading. */
  lemma {:induction false} ShiftTagHeading(tag: string, other: string, shift: int)
    requires tag in H_TAGS && other in H_TAGS
    ensures ShiftTag(tag, shift) in H_TAGS
    ensures 1 <= HeadingLevel(tag) + shift <= 6 ==> HeadingLevel(ShiftTag(tag, shift)) == HeadingLevel(tag) + shift
    ensures HeadingLevel(tag) <= HeadingLevel(other) ==>
      HeadingLevel(ShiftTag(tag, shift)) <= HeadingLevel(ShiftTag(other, shift))
  {
    HeadingTagLevel(ShiftLevel(HeadingLevel(tag), shift));
    HeadingTagLevel(ShiftLevel(HeadingLevel(other), shift));
  }

  /** `tag.split('.', 1)` and `tagname or 'span'`, with `.pagebreak` read as
      `div.pagebreak`: the tag and the class a dotted tag stands for. */
  function DottedParts(tag: string): (r: Option<(string, string)>)
    ensures r.None? <==> '.' !in tag
    ensures r.Some? ==> r.value.0 != "" && '.' !in r.value.0
  {
    var t := if tag == ".pagebreak" then "div.pagebreak" else tag;
    match IndexOf(t, '.')
    case None => None
    case Some(i) => Some((if i == 0 then "span" else t[..i], t[i + 1..]))
  }

  /** The dotted-tag rewrite of `handle_fragment`: the class is added with
      `add_class`. */
  function DotTag(tag: string, attrs: Attrs): (r: Result<(string, Attrs)>)
    ensures '.' !in tag ==> r == Ok((tag, attrs))
    ensures r.Ok? ==> '.' !in r.value.0
  {
    match DottedParts(tag)
    case None => Ok((tag, attrs))
    case Some((t, c)) =>
      match AddClass(attrs, [c])
      case Err(e) => Err(e)
      case Ok(a) => Ok((t, a))
  }

  /** A dotted tag `x.c` stands for the tag `x`, or `span` when there is no
      `x`, and the class `c`. */
  lemma {:induction false} DottedSplit(x: string, c: string)
    requires '.' !in x && x + "." + c != ".pagebreak"
    ensures DottedParts(x + "." + c) == Some((if x == "" then "span" else x, c))
  {
    var s := x + "." + c;
    assert s == x + ['.'] + c;
    FirstAt(x, c, '.');
    assert s[..|x|] == x && s[|x| + 1..] == c;
  }

  /** `.pagebreak` is a `div` with the class `pagebreak`. */
  lemma {:induction false} DottedPagebreak()
    ensures DottedParts(".pagebreak") == Some(("div", "pagebreak"))
  {
    var x, c := "div", "pagebreak";
    var s := x + ['.'] + c;
    assert s == "div.pagebreak";
    FirstAt(x, c, '.');
    assert s[..|x|] == x && s[|x| + 1..] == c;
  }

  /** The class of a dotted tag joins the classes already there. */
  lemma {:induction false} DotTagAddsClass(tag: string, attrs: Attrs)
    requires DottedParts(tag).Some?
    requires "class" in attrs ==> attrs["class"].Classes? && StrictlySorted(attrs["class"].cs)
    ensures var r := DotTag(tag, attrs);
      r.Ok? && r.value.0 == DottedParts(tag).value.0 &&
      DottedParts(tag).value.1 in Elems(ClassesOf(r.value.1)) &&
      Elems(ClassesOf(attrs)) <= Elems(ClassesOf(r.value.1))
  {
    ElemsCons(DottedParts(tag).value.1, []);
  }

  /** `attrs['class'] = sorted(set(classes))` when there are classes. */
  function EmittedClasses(attrs: WAttrs): (r: WAttrs)
    ensures r.Keys == attrs.Keys
    ensures forall k :: k in attrs && k != "class" ==> r[k] == attrs[k]
  {
    if "class" in attrs && attrs["class"].cs != [] then attrs["class" := Classes(SortedSet(attrs["class"].cs))]
    else attrs
  }

  /** The emitted classes are sorted, without duplicates, and the same set
      as before; emitting twice changes nothing more. */
  lemma {:induction false} EmittedClassesSorted(attrs: WAttrs)
    ensures var r := EmittedClasses(attrs);
      "class" in r ==> StrictlySorted(r["class"].cs) || r["class"].cs == []
    ensures "class" in attrs ==> Elems(EmittedClasses(attrs)["class"].cs) == Elems(attrs["class"].cs)
    ensures EmittedClasses(EmittedClasses(attrs)) == EmittedClasses(attrs)
  {
    if "class" in attrs && attrs["class"].cs != [] {
      var s := SortedSet(attrs["class"].cs);
      SortedSetFixesSorted(s);
    }
  }

  // ---------------------------------------------------------------------
  // encode_attrs, for attributes other than src and href

  /** `" ".join(v)` for the value of a key that is a substring of `class`:
      a string joins its characters, a dict its keys. */
  function JoinedList(v: AttrVal): Result<string>
  {
    match v
    case Classes(cs) => Ok(Join(" ", cs))
    case Str(s) => Ok(Join(" ", Chars(s)))
    case Style(kvs) => Ok(Join(" ", Keys(kvs)))
    case Info(_) => Err("TypeError")
  }

  function Chars(s: string): (r: seq<string>)
    ensures |r| == |s| && forall i :: 0 <= i < |s| ==> r[i] == [s[i]]
  {
    if s == [] then [] else [[s[0]]] + Chars(s[1..])
  }

  function Keys(kvs: seq<(string, string)>): (r: seq<string>)
    ensures |r| == |kvs| && forall i :: 0 <= i < |kvs| ==> r[i] == kvs[i].0
  {
    if kvs == [] then [] else [kvs[0].0] + Keys(kvs[1..])
  }

  /** `u"%s:%s" % kv` for every item of a style. */
  function StylePairs(kvs: seq<(string, string)>): (r: seq<string>)
    ensures |r| == |kvs| && forall i :: 0 <= i < |kvs| ==> r[i] == kvs[i].0 + ":" + kvs[i].1
  {
    if kvs == [] then [] else [kvs[0].0 + ":" + kvs[0].1] + StylePairs(kvs[1..])
  }

  /** The value `encode_attr` renders: `k in 'class'` and `k in 'style'` are
      substring tests, so a key such as `s` or `as` is joined like a class
      list. A value of the wrong kind fails in `join`, `iteritems` or
      `cgi.escape`. */
  function AttrText(k: string, v: AttrVal): Result<string>
  {
    if Contains("class", k) then JoinedList(v)
    else if Contains("style", k) then
      if v.Style? then Ok(Join(";", StylePairs(v.kvs))) else Err("AttributeError")
    else if v.Str? then Ok(v.s)
    else Err("AttributeError")
  }

  /** `encode_attr((k, v))`. */
  function EncodeAttr(k: string, v: AttrVal): Result<string>
  {
    match AttrText(k, v)
    case Err(e) => Err(e)
    case Ok(t) => Ok(k + "=\"" + CgiEscape(t) + "\"")
  }

  /** The rendered attributes in the order of `keys`. */
  function EncodeKeys(attrs: Attrs, keys: seq<string>): Result<seq<string>>
    requires forall i :: 0 <= i < |keys| ==> keys[i] in attrs
  {
    if keys == [] then Ok([])
    else match EncodeAttr(keys[0], attrs[keys[0]])
      case Err(e) => Err(e)
      case Ok(h) =>
        match EncodeKeys(attrs, keys[1..])
        case Err(e) => Err(e)
        case Ok(t) => Ok([h] + t)
  }

  /** `encode_attrs(attrs, ...)` when neither `src` nor `href` is present;
      `order` is the order of `attrs.items()`, which `sorted` discards. */
  function EncodeAttrs(attrs: Attrs, order: seq<string>): (r: Result<string>)
    requires Elems(order) == attrs.Keys
    requires "src" !in attrs && "href" !in attrs
    ensures attrs == map[] ==> r == Ok("")
    ensures r.Ok? && attrs != map[] ==> exists ks ::
      StrictlySorted(ks) && Elems(ks) == attrs.Keys && EncodeKeys(attrs, ks).Ok? &&
      r.value == " " + Join(" ", EncodeKeys(attrs, ks).value)
  {
    if attrs == map[] then Ok("")
    else
      var ks := SortedSet(order);
      assert forall i :: 0 <= i < |ks| ==> ks[i] in Elems(ks);
      match EncodeKeys(attrs, ks)
      case Err(e) => Err(e)
      case Ok(parts) => Ok(" " + Join(" ", parts))
  }

  /** The order of `attrs.items()` does not matter. */
  lemma {:induction false} EncodeAttrsOrderFree(attrs: Attrs, o1: seq<string>, o2: seq<string>)
    requires Elems(o1) == attrs.Keys && Elems(o2) == attrs.Keys
    requires "src" !in attrs && "href" !in attrs
    ensures EncodeAttrs(attrs, o1) == EncodeAttrs(attrs, o2)
  {
    StrictlySortedUnique(SortedSet(o1), SortedSet(o2));
  }

  /** A class list is joined with spaces and a style is rendered as `k:v`
      pairs joined with `;`. */
  lemma {:induction false} EncodeClassAndStyle(cs: seq<string>, kvs: seq<(string, string)>)
    ensures EncodeAttr("class", Classes(cs)) == Ok("class=\"" + CgiEscape(Join(" ", cs)) + "\"")
    ensures EncodeAttr("style", Style(kvs)) == Ok("style=\"" + CgiEscape(Join(";", StylePairs(kvs))) + "\"")
  {
    ClassInClass();
    StyleNotInClass();
    StyleInStyle();
    assert "class" + "=\"" == "class=\"";
    assert "style" + "=\"" == "style=\"";
  }

  lemma {:induction false} ClassInClass()
    ensures Contains("class", "class")
  {
    assert StartsWith("class", "class");
  }

  lemma {:induction false} StyleInStyle()
    ensures Contains("style", "style")
  {
    assert StartsWith("style", "style");
  }

  lemma {:induction false} ContainsLonger(s: string, p: string)
    requires |s| < |p|
    ensures !Contains(s, p)
    decreases |s|
  {
    if |s| > 0 {
      ContainsLonger(s[1..], p);
    }
  }

  lemma {:induction false} StyleNotInClass()
    ensures !Contains("class", "style")
  {
    assert "class"[0] != "style"[0];
    NotContainsSameLength("class", "style");
  }

  lemma {:induction false} NotContainsSameLength(s: string, p: string)
    requires |s| == |p| && s != p
    ensures !Contains(s, p)
  {
    if |s| > 0 {
      ContainsLonger(s[1..], p);
    }
  }

  /** The quirk of the substring test: an attribute `s` holding a string is
      rendered with a space between its characters. */
  lemma {:induction false} SingleLetterKeyIsJoined(x: char, y: char)
    ensures EncodeAttr("s", Str([x, y])) == Ok("s=\"" + CgiEscape([x] + " " + [y]) + "\"")
  {
    var c := "class";
    assert c[1..][1..][1..] == "ss";
    assert StartsWith("ss", "s");
    assert Contains(c[1..][1..][1..], "s");
    assert Contains(c[1..][1..], "s");
    assert Contains(c[1..], "s");
    assert Contains(c, "s");
    assert Chars([x, y]) == [[x], [y]];
    assert Join(" ", [[x], [y]]) == [x] + " " + [y];
    assert "s" + "=\"" == "s=\"";
  }
}
