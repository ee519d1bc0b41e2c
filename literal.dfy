/** Literal values of document metadata (literal.py): the `Multiline` and
    `Date` codecs and `parse_literal`. */
module Literal {
  import opened Wrappers
  import opened PyStr
  import Lang

  // ---------------------------------------------------------------------
  // Multiline

  /** The number of backslashes `s` starts with. */
  function BackslashRun(s: string): (n: nat)
    ensures n <= |s| && (n < |s| ==> s[n] != '\\')
    ensures forall i :: 0 <= i < n ==> s[i] == '\\'
  {
    if s != [] && s[0] == '\\' then 1 + BackslashRun(s[1..]) else 0
  }

  /** `re.split(r'(?<!\\)(?:\\\\)*;', s)`, with `cur` the piece read so far.
      A separator is a `;` after an even run of backslashes that no
      backslash precedes; the run belongs to the separator. Every call starts
      where no backslash precedes, so a whole run is read at once. */
  function SplitSemis(s: string, cur: string): (r: seq<string>)
    ensures |r| > 0
    decreases |s|
  {
    if s == [] then [cur]
    else
      var n := BackslashRun(s);
      if n < |s| && s[n] == ';' && n % 2 == 0 then [cur] + SplitSemis(s[n + 1..], "")
      else if n == |s| then [cur + s]
      else SplitSemis(s[n + 1..], cur + s[..n + 1])
  }

  /** One piece for `from_string`: stripped, `\\` read as `\`. */
  function UnescapePiece(p: string): string
  {
    Replace(Strip(p), "\\\\", "\\")
  }

  /** `Multiline.from_string(s)`: the pieces between separators, each
      stripped and unescaped. */
  function MultilineFromString(s: string): seq<string>
  {
    var parts := SplitSemis(s, "");
    seq(|parts|, i requires 0 <= i < |parts| => UnescapePiece(parts[i]))
  }

  /** One line for `to_string`: backslashes doubled, then `;` escaped. */
  function EscapeLine(x: string): string
  {
    Replace(Replace(x, "\\", "\\\\"), ";", "\\;")
  }

  function EscapeLines(lines: seq<string>): seq<string>
  {
    seq(|lines|, i requires 0 <= i < |lines| => EscapeLine(lines[i]))
  }

  /** `Multiline.to_string()`: the escaped lines joined with `'; '`. */
  function MultilineToString(lines: seq<string>): string
  {
    Join("; ", EscapeLines(lines))
  }

  /** A line the codec carries over unchanged: stripped, without `;` or `\`. */
  predicate PlainLine(x: string)
  {
    ';' !in x && '\\' !in x && Strip(x) == x
  }

  /** A plain stretch of text joins the current piece. */
  lemma {:induction false} SplitPlain(x: string, rest: string, cur: string)
    requires ';' !in x && '\\' !in x
    ensures SplitSemis(x + rest, cur) == SplitSemis(rest, cur + x)
    decreases |x|
  {
    if x == [] {
      assert x + rest == rest && cur + x == cur;
    } else {
      var s := x + rest;
      assert s[0] == x[0] && x[0] in x;
      assert BackslashRun(s) == 0;
      assert s[1..] == x[1..] + rest;
      assert s[..1] == [x[0]];
      assert ';' !in x[1..] && '\\' !in x[1..] by {
        assert forall c :: c in x[1..] ==> c in x;
      }
      SplitPlain(x[1..], rest, cur + [x[0]]);
      assert cur + [x[0]] + x[1..] == cur + x;
    }
  }

  /** `"; "` ends a piece and starts the next with a space. */
  lemma SplitSeparator(rest: string, cur: string)
    ensures SplitSemis("; " + rest, cur) == [cur] + SplitSemis(rest, " ")
  {
    var s := "; " + rest;
    assert s[0] == ';';
    assert BackslashRun(s) == 0;
    assert s[1..] == " " + rest;
    SplitPlain(" ", rest, "");
    assert "" + " " == " ";
  }

  /** Splitting joined plain lines gives the lines back, all but the first
      with the separator's space in front. */
  lemma {:induction false} SplitJoined(lines: seq<string>, cur: string)
    requires |lines| > 0 && forall i :: 0 <= i < |lines| ==> ';' !in lines[i] && '\\' !in lines[i]
    ensures var r := SplitSemis(Join("; ", lines), cur);
      |r| == |lines| && r[0] == cur + lines[0] && forall i :: 1 <= i < |lines| ==> r[i] == " " + lines[i]
    decreases |lines|
  {
    if |lines| == 1 {
      assert lines[0] + "" == lines[0];
      SplitPlain(lines[0], "", cur);
    } else {
      var rest := Join("; ", lines[1..]);
      JoinCons(lines);
      SplitPlain(lines[0], "; " + rest, cur);
      SplitSeparator(rest, cur + lines[0]);
      SplitJoined(lines[1..], " ");
    }
  }

  lemma JoinCons(lines: seq<string>)
    requires |lines| > 1
    ensures Join("; ", lines) == lines[0] + ("; " + Join("; ", lines[1..]))
  {
  }

  lemma EscapePlain(x: string)
    requires ';' !in x && '\\' !in x
    ensures EscapeLine(x) == x
  {
    ReplaceAbsent(x, "\\", "\\\\");
    ReplaceAbsent(x, ";", "\\;");
  }

  lemma EscapeLinesPlain(lines: seq<string>)
    requires forall i :: 0 <= i < |lines| ==> PlainLine(lines[i])
    ensures MultilineToString(lines) == Join("; ", lines)
  {
    var esc := EscapeLines(lines);
    forall i | 0 <= i < |lines| ensures esc[i] == lines[i] {
      EscapePlain(lines[i]);
    }
    assert esc == lines;
  }

  lemma StripSpaced(x: string)
    requires Strip(x) == x
    ensures Strip(" " + x) == x
  {
    assert (" " + x)[1..] == x;
  }

  /** A piece is its plain line, with the separator's space in front for
      all but the first. */
  lemma UnescapePlain(x: string, piece: string)
    requires PlainLine(x) && (piece == x || piece == " " + x)
    ensures UnescapePiece(piece) == x
  {
    if piece != x {
      StripSpaced(x);
    }
    ReplaceAbsent(x, "\\\\", "\\");
  }

  lemma PiecesBack(lines: seq<string>, parts: seq<string>)
    requires |parts| == |lines| > 0 && forall i :: 0 <= i < |lines| ==> PlainLine(lines[i])
    requires parts[0] == lines[0] && forall i :: 1 <= i < |lines| ==> parts[i] == " " + lines[i]
    ensures seq(|parts|, i requires 0 <= i < |parts| => UnescapePiece(parts[i])) == lines
  {
    var r := seq(|parts|, i requires 0 <= i < |parts| => UnescapePiece(parts[i]));
    forall i | 0 <= i < |lines| ensures r[i] == lines[i] {
      UnescapePlain(lines[i], parts[i]);
    }
  }

  /** Stripped lines without `;` or `\` survive `to_string` and
      `from_string`. */
  lemma MultilineRoundTrip(lines: seq<string>)
    requires |lines| > 0 && forall i :: 0 <= i < |lines| ==> PlainLine(lines[i])
    ensures MultilineFromString(MultilineToString(lines)) == lines
  {
    EscapeLinesPlain(lines);
    SplitJoined(lines, "");
    var parts := SplitSemis(Join("; ", lines), "");
    assert parts[0] == lines[0] by {
      assert "" + lines[0] == lines[0];
    }
    PiecesBack(lines, parts);
  }

  lemma EscapeSemicolon()
    ensures EscapeLine("a;b") == "a\\;b"
  {
    ReplaceAbsent("a;b", "\\", "\\\\");
    ReplaceCharIsReplace("a;b", ';', "\\;");
    assert ReplaceChar("b", ';', "\\;") == "b";
    assert ReplaceChar(";b", ';', "\\;") == "\\;b";
    assert ReplaceChar("a;b", ';', "\\;") == "a\\;b";
  }

  /** An escaped `;` is no separator. */
  lemma SplitEscaped()
    ensures SplitSemis("a\\;b", "") == ["a\\;b"]
  {
    var s := "a\\;b";
    assert s[1..] == "\\;b" && s[..1] == "a";
    assert BackslashRun(s) == 0;
    assert BackslashRun("\\;b") == 1;
    assert "\\;b"[2..] == "b" && "\\;b"[..2] == "\\;";
    assert BackslashRun("b") == 0;
    assert "b"[1..] == "" && "b"[..1] == "b";
    assert SplitSemis("", "a\\;b") == ["a\\;b"];
    assert "a\\;" + "b"[..1] == "a\\;b";
    assert SplitSemis("b", "a\\;") == SplitSemis("", "a\\;b");
    assert "a" + "\\;b"[..2] == "a\\;";
    assert SplitSemis("\\;b", "a") == SplitSemis("b", "a\\;");
    assert "" + s[..1] == "a";
  }

  /** `a\;b` has no blank to strip ... */
  lemma StripEscaped()
    ensures Strip("a\\;b") == "a\\;b"
  {
    LStripEscaped();
    RStripEscaped();
  }

  lemma LStripEscaped()
    ensures LStrip("a\\;b") == "a\\;b"
  {
    assert !IsSpace('a');
  }

  lemma RStripEscaped()
    ensures RStrip("a\\;b") == "a\\;b"
  {
    assert !IsSpace('b');
  }

  /** Replacing where the pattern does not start keeps the first character. */
  lemma ReplaceHead(s: string, pat: string, repl: string)
    requires |pat| > 0 && |s| >= |pat| && s[..|pat|] != pat
    ensures Replace(s, pat, repl) == [s[0]] + Replace(s[1..], pat, repl)
  {
  }

  /** ... and no `\\` pair to read back. */
  lemma ReplaceEscaped()
    ensures Replace("a\\;b", "\\\\", "\\") == "a\\;b"
  {
    var s := "a\\;b";
    ReplaceAbsent(";b", "\\\\", "\\");
    assert s[1..][1..] == ";b" && s[1..][..2] != "\\\\";
    ReplaceHead(s[1..], "\\\\", "\\");
    assert s[..2] != "\\\\";
    ReplaceHead(s, "\\\\", "\\");
    assert [s[0]] + ([s[1]] + ";b") == s;
  }

  lemma UnescapeEscaped()
    ensures UnescapePiece("a\\;b") == "a\\;b"
  {
    StripEscaped();
    ReplaceEscaped();
  }

  /** `to_string` escapes a `;` inside a line, ... */
  lemma MultilineEscapes()
    ensures MultilineToString(["a;b"]) == "a\\;b"
  {
    EscapeSemicolon();
    assert EscapeLines(["a;b"]) == ["a\\;b"];
  }

  /** ... but `\;` is never un-escaped: the line comes back with the
      backslash `to_string` put in front of it. */
  lemma MultilineKeepsEscape()
    ensures MultilineFromString("a\\;b") == ["a\\;b"]
  {
    SplitEscaped();
    UnescapeEscaped();
    OnePiece("a\\;b");
  }

  /** A string that splits into itself and unescapes to itself is read as
      one line. */
  lemma OnePiece(s: string)
    requires SplitSemis(s, "") == [s] && UnescapePiece(s) == s
    ensures MultilineFromString(s) == [s]
  {
  }

  // ---------------------------------------------------------------------
  // Date

  /** What `dateutil.parser.parse(s).date()` and `datetime.date.today()`
      give: a calendar date. */
  datatype Ymd = Ymd(year: nat, month: nat, day: nat)

  /** `str(n)` left-padded with zeros to `width`. */
  function ZeroPad(n: nat, width: nat): (r: string)
    ensures |r| > 0 && IsDigit(r[0])
  {
    var d := NatToString(n);
    if |d| >= width then d else seq(width - |d|, _ => '0') + d
  }

  /** `date.isoformat()`: `YYYY-MM-DD`. */
  function IsoFormat(d: Ymd): (r: string)
    ensures |r| > 0 && IsDigit(r[0])
  {
    ZeroPad(d.year, 4) + "-" + ZeroPad(d.month, 2) + "-" + ZeroPad(d.day, 2)
  }

  /** The clock and the date parser the constructor calls. */
  datatype DateEnv = DateEnv(today: Ymd, dateutil: string -> Option<Ymd>)

  datatype Date = Date(supplied: string, parsed: string)

  predicate AllDigits(s: string)
  {
    forall i :: 0 <= i < |s| ==> IsDigit(s[i])
  }

  /** `s` without one final newline, which `$` lets through. */
  function DropFinalNewline(s: string): string
  {
    if |s| > 0 && s[|s| - 1] == '\n' then s[..|s| - 1] else s
  }

  /** The unsigned digits of an integer literal. */
  function Unsigned(s: string): string
  {
    if |s| > 0 && s[0] == '-' then s[1..] else s
  }

  /** `re.match(r'^-?[1-9]\d+$', s)`: at least two digits, no leading zero. */
  predicate IsIntLiteral(s: string)
  {
    var u := Unsigned(DropFinalNewline(s));
    |u| >= 2 && '1' <= u[0] <= '9' && AllDigits(u)
  }

  /** `int(s)` for a string the regex accepted. */
  function IntLiteralValue(s: string): int
    requires IsIntLiteral(s)
  {
    var t := DropFinalNewline(s);
    var v: int := DigitsValue(Unsigned(t));
    if |t| > 0 && t[0] == '-' then -v else v
  }

  /** Python 2 `repr` of an integer: a value outside the 64-bit `int` range
      is a `long` and gets an `L`. */
  function IntRepr(v: int): string
  {
    IntToString(v) + (if -0x8000_0000_0000_0000 <= v < 0x8000_0000_0000_0000 then "" else "L")
  }

  /** `Date(supplied)`: `today` in any case gives today's date, an integer
      literal its `repr`, anything else what the date parser makes of it
      (failing when it cannot). */
  function MkDate(supplied: string, env: DateEnv): Result<Date>
  {
    if Lower(supplied) == "today" then Ok(Date(supplied, IsoFormat(env.today)))
    else if IsIntLiteral(supplied) then Ok(Date(supplied, IntRepr(IntLiteralValue(supplied))))
    else
      match env.dateutil(supplied)
      case None => Err("ValueError")
      case Some(d) => Ok(Date(supplied, IsoFormat(d)))
  }

  /** `Date.to_string()`. */
  function DateToString(d: Date): string
  {
    if d.supplied == "today" then "today" else d.parsed
  }

  /** `Date.to_value()`. */
  function DateToValue(d: Date): string
  {
    d.parsed
  }

  /** `to_string()` is `'today'` exactly when `today` was supplied as such. */
  lemma DateTodayIff(s: string, env: DateEnv)
    requires MkDate(s, env).Ok?
    ensures DateToString(MkDate(s, env).value) == "today" <==> s == "today"
  {
    var d := MkDate(s, env).value;
    if s != "today" && !(Lower(s) == "today") && IsIntLiteral(s) {
      var v := IntLiteralValue(s);
      assert IsDigit(NatToString(if v < 0 then -v else v)[0]);
      assert d.parsed[0] == IntToString(v)[0];
    }
  }

  /** Any spelling of `today` other than the lower-case one is written out
      as today's date. */
  lemma DateTodayOtherCase(s: string, env: DateEnv)
    requires Lower(s) == "today" && s != "today"
    ensures MkDate(s, env).Ok? && DateToString(MkDate(s, env).value) == IsoFormat(env.today)
    ensures DateToValue(MkDate(s, env).value) == IsoFormat(env.today)
  {
  }

  /** `Date('today').to_string() == 'today'` and its value is today's date. */
  lemma DateToday(env: DateEnv)
    ensures MkDate("today", env) == Ok(Date("today", IsoFormat(env.today)))
    ensures DateToString(Date("today", IsoFormat(env.today))) == "today"
  {
    assert Lower("today") == "today";
  }

  /** An integer year in 64-bit range is written back as supplied. */
  lemma DateIntYear(s: string, env: DateEnv)
    requires IsIntLiteral(s) && DropFinalNewline(s) == s && Lower(s) != "today"
    requires -0x8000_0000_0000_0000 <= IntLiteralValue(s) < 0x8000_0000_0000_0000
    ensures MkDate(s, env) == Ok(Date(s, s))
  {
    var u := Unsigned(s);
    NatToStringOfDigits(u);
    LeadingDigitPositive(u);
    var v: int := DigitsValue(u);
    assert v > 0;
    if |s| > 0 && s[0] == '-' {
      assert s == "-" + u;
      assert IntLiteralValue(s) == -v;
      assert IntToString(-v) == "-" + NatToString(v);
      assert IntRepr(-v) == IntToString(-v) + "";
      assert IntRepr(IntLiteralValue(s)) == s;
    } else {
      assert IntLiteralValue(s) == v;
      assert IntRepr(v) == IntToString(v) + "";
      assert IntRepr(IntLiteralValue(s)) == s;
    }
  }

  /** A year too large for a 64-bit `int` gets the `L` of a `long`, and its
      `to_string()` is then no integer literal any more. */
  lemma DateLongYear(s: string, env: DateEnv)
    requires IsIntLiteral(s) && Lower(s) != "today" && IntLiteralValue(s) >= 0x8000_0000_0000_0000
    ensures MkDate(s, env).Ok? && !IsIntLiteral(DateToString(MkDate(s, env).value))
  {
    var t := DateToString(MkDate(s, env).value);
    assert t[|t| - 1] == 'L';
  }

  /** Reading back what an integer year wrote gives an equal `Date`
      (`Literal` equality compares `to_string()`). */
  lemma DateIntRoundTrip(s: string, env: DateEnv)
    requires IsIntLiteral(s) && DropFinalNewline(s) == s && Lower(s) != "today"
    requires -0x8000_0000_0000_0000 <= IntLiteralValue(s) < 0x8000_0000_0000_0000
    ensures MkDate(s, env).Ok?
    ensures var t := DateToString(MkDate(s, env).value);
      MkDate(t, env).Ok? && DateToString(MkDate(t, env).value) == t
  {
    DateIntYear(s, env);
  }

  // ---------------------------------------------------------------------
  // parse_literal

  datatype LitVal =
    | LBool(b: bool)
    | LLang(lang: Lang.Lang)
    | LText(text: string)
    | LMultiline(lines: seq<string>)
    | LDate(date: Date)
    /** `None`, for an empty image or bibliography. */
    | LNone
    /** A value of a parser outside this model (image, bibliography, rich text). */
    | LForeign(kind: string, source: string)

  /** What `parse_literal` calls: the date environment, and the image,
      bibliography and rich-text parsers (`None` when they raise). */
  datatype LitEnv = LitEnv(date: DateEnv, foreign: (string, string) -> Option<LitVal>)

  /** Validity test and parser of the `boolean` entry of `_LIT_PARSERS`. */
  predicate BoolValid(lit: string) { Lower(lit) == "no" || Lower(lit) == "yes" }
  function BoolParse(lit: string): bool { Lower(lit) == "yes" }

  /** `parse_literal(lit, expected_type)`; every failure (including an
      unknown type) becomes `BadLiteral`. */
  function ParseLiteral(lit: string, expected: Option<string>, env: LitEnv): Result<LitVal>
  {
    if expected.None? || expected.value == "" then
      if BoolValid(lit) then Ok(LBool(BoolParse(lit)))
      else if Lang.IsValidLang(lit) then Ok(LLang(Lang.MkLang(lit).value))
      else Err("BadLiteral")
    else
      var t := expected.value;
      if t == "multiline" then Ok(LMultiline(MultilineFromString(lit)))
      else if t == "date" then
        (match MkDate(lit, env.date)
         case Err(_) => Err("BadLiteral")
         case Ok(d) => Ok(LDate(d)))
      else if (t == "image" || t == "bibliography") && lit == "" then Ok(LNone)
      else if t == "image" || t == "bibliography" || t == "rich-text" then
        (match env.foreign(t, lit)
         case None => Err("BadLiteral")
         case Some(v) => Ok(v))
      else if t == "text" then Ok(LText(lit))
      else if t == "boolean" then
        if BoolValid(lit) then Ok(LBool(BoolParse(lit))) else Err("BadLiteral")
      else if t == "lang" then
        if Lang.IsValidLang(lit) then Ok(LLang(Lang.MkLang(lit).value)) else Err("BadLiteral")
      else Err("BadLiteral")
  }

  /** Untyped: case-insensitive `yes`/`no` are booleans, ... */
  lemma UntypedBoolean(lit: string, env: LitEnv)
    requires BoolValid(lit)
    ensures ParseLiteral(lit, None, env) == Ok(LBool(Lower(lit) == "yes"))
  {
  }

  /** ... otherwise a valid language code is a language, ... */
  lemma UntypedLang(lit: string, env: LitEnv)
    requires !BoolValid(lit) && Lang.IsValidLang(lit)
    ensures ParseLiteral(lit, None, env) == Ok(LLang(Lang.MkLang(lit).value))
    ensures ParseLiteral(lit, None, env).value.LLang? && ParseLiteral(lit, None, env).value.lang.code == Lang.Normalize(lit)
  {
    Lang.MkLangShape(lit);
  }

  /** ... and nothing else is accepted. */
  lemma UntypedFails(lit: string, env: LitEnv)
    ensures ParseLiteral(lit, None, env).Err? <==> !BoolValid(lit) && Lang.Normalize(lit) !in Lang.IsoToBabel
  {
    Lang.ValidLangIff(lit);
  }

  /** `no` is Norwegian, but the boolean test comes first. */
  lemma NoIsFalse(env: LitEnv)
    ensures Lang.IsValidLang("no")
    ensures ParseLiteral("no", None, env) == Ok(LBool(false))
  {
    assert Lower("no") == "no";
    Lang.MkLangPlain("no");
  }

  /** Typed `text` is the literal itself. */
  lemma TypedText(lit: string, env: LitEnv)
    ensures ParseLiteral(lit, Some("text"), env) == Ok(LText(lit))
  {
  }

  /** Typed `boolean` accepts only `yes` and `no`. */
  lemma TypedBoolean(lit: string, env: LitEnv)
    ensures ParseLiteral(lit, Some("boolean"), env).Ok? <==> BoolValid(lit)
    ensures BoolValid(lit) ==> ParseLiteral(lit, Some("boolean"), env) == Ok(LBool(Lower(lit) == "yes"))
  {
  }

  /** A type without a parser is a `BadLiteral`. */
  lemma UnknownType(lit: string, t: string, env: LitEnv)
    requires t !in {"", "multiline", "date", "image", "bibliography", "rich-text", "text", "boolean", "lang"}
    ensures ParseLiteral(lit, Some(t), env) == Err("BadLiteral")
  {
  }
}
