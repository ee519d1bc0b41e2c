/** latex_writer.py: the string helpers of the LaTeX back end — escaping text
    and urls, building commands and environments, pulling point anchors out
    of a body as labels, moving urls into `\urldef`s, naming meta macros,
    and choosing a heading's sectioning command. */
module LatexWriter {
  import opened Seqs
  import opened Wrappers
  import opened PyStr
  import opened Internal

  // ---------------------------------------------------------------------
  // quote

  /** The characters of `UNICODE_TO_LATEX_TEXT`. */
  predicate IsSpecial(c: char)
  {
    c == '#' || c == '$' || c == '%' || c == '&' || c == '<' || c == '>' ||
    c == '\\' || c == '^' || c == '_' || c == '`' || c == '{' || c == '|' ||
    c == '}' || c == '~' || c == '[' || c == ']' || c == '\U{a0}'
  }

  /** What `quote` puts in place of one character: its table entry, or the
      character itself. */
  function QuoteChar(c: char): (r: string)
    ensures |r| > 0
  {
    match c
    case '#' => "\\#"
    case '$' => "\\$"
    case '%' => "\\%"
    case '&' => "\\&"
    case '<' => "{\\textless}"
    case '>' => "{\\textgreater}"
    case '\\' => "{\\textbackslash}"
    case '^' => "\\^{}"
    case '_' => "\\_"
    case '`' => "\\`{}"
    case '{' => "\\{"
    case '|' => "{\\textbar}"
    case '}' => "\\}"
    case '~' => "{\\textasciitilde}"
    case '[' => "{[}"
    case ']' => "{]}"
    case '\U{a0}' => "~"
    case _ => [c]
  }

  /** `quote(s)`: the regular expression matches one table character at a
      time, so the substitution works character by character. */
  function Quote(s: string): string
  {
    if s == [] then [] else QuoteChar(s[0]) + Quote(s[1..])
  }

  lemma {:induction false} QuoteAppend(a: string, b: string)
    ensures Quote(a + b) == Quote(a) + Quote(b)
  {
    if a != [] {
      assert (a + b)[0] == a[0] && (a + b)[1..] == a[1..] + b;
      QuoteAppend(a[1..], b);
      AppendAssoc(QuoteChar(a[0]), Quote(a[1..]), Quote(b));
    } else {
      assert a + b == b;
    }
  }

  /** A table character never stands for itself; any other character does. */
  lemma QuoteCharChanges(c: char)
    ensures IsSpecial(c) <==> QuoteChar(c)[0] != c
    ensures !IsSpecial(c) ==> QuoteChar(c) == [c]
  {
  }

  /** `quote` leaves a string alone exactly when it holds no table
      character. */
  lemma {:induction false} QuoteFixedIff(s: string)
    ensures Quote(s) == s <==> forall i :: 0 <= i < |s| ==> !IsSpecial(s[i])
  {
    if s != [] {
      QuoteFixedIff(s[1..]);
      QuoteCharChanges(s[0]);
      var q := QuoteChar(s[0]);
      if IsSpecial(s[0]) {
        assert Quote(s)[0] == q[0];
        assert !(forall i :: 0 <= i < |s| ==> !IsSpecial(s[i]));
      } else {
        assert Quote(s) == [s[0]] + Quote(s[1..]);
        assert (forall i :: 0 <= i < |s| ==> !IsSpecial(s[i])) <==>
          (forall i :: 0 <= i < |s[1..]| ==> !IsSpecial(s[1..][i])) by {
          assert forall i :: 0 <= i < |s[1..]| ==> s[1..][i] == s[i + 1];
        }
        assert Quote(s) == s <==> Quote(s[1..]) == s[1..] by {
          assert s == [s[0]] + s[1..];
        }
      }
    }
  }

  /** The `{\text...}` entries, told apart by their seventh and ninth
      characters. */
  function WordAt(t: string): (r: Option<(char, nat)>)
    ensures r.Some? ==> 0 < r.value.1 <= |t|
  {
    if |t| < 10 then None
    else if t[6] == 'l' && StartsWith(t, "{\\textless}") then Some(('<', 11))
    else if t[6] == 'g' && StartsWith(t, "{\\textgreater}") then Some(('>', 14))
    else if t[6] == 'b' && t[8] == 'r' && StartsWith(t, "{\\textbar}") then Some(('|', 10))
    else if t[6] == 'b' && StartsWith(t, "{\\textbackslash}") then Some(('\\', 16))
    else if t[6] == 'a' && StartsWith(t, "{\\textasciitilde}") then Some(('~', 17))
    else None
  }

  /** Reading quoted text back: each table entry gives back its character. */
  function Unquote(t: string): string
    decreases |t|
  {
    if t == [] then []
    else if t[0] == '~' then ['\U{a0}'] + Unquote(t[1..])
    else if t[0] == '\\' && |t| >= 2 && t[1] in "#$%&_{}" then [t[1]] + Unquote(t[2..])
    else if t[0] == '\\' && |t| >= 4 && (t[1] == '^' || t[1] == '`') then [t[1]] + Unquote(t[4..])
    else if t[0] == '{' && |t| >= 3 && (t[1] == '[' || t[1] == ']') then [t[1]] + Unquote(t[3..])
    else if t[0] == '{' && WordAt(t).Some? then [WordAt(t).value.0] + Unquote(t[WordAt(t).value.1..])
    else [t[0]] + Unquote(t[1..])
  }

  /** A `{\\text...}` entry is read back through `WordAt`. */
  lemma UnquoteWordAt(w: string, c: char, rest: string)
    requires |w| >= 2 && w[0] == '{' && w[1] == '\\'
    requires WordAt(w + rest) == Some((c, |w|))
    ensures Unquote(w + rest) == [c] + Unquote(rest)
  {
    var t := w + rest;
    assert t[0] == '{' && t[1] == '\\' && t[|w|..] == rest;
  }

  lemma WordLess(w: string, rest: string)
    requires w == "{\\textless}"
    ensures WordAt(w + rest) == Some(('<', |w|))
  {
    var t := w + rest;
    assert t[..|w|] == w && t[6] == 'l';
  }

  lemma WordGreater(w: string, rest: string)
    requires w == "{\\textgreater}"
    ensures WordAt(w + rest) == Some(('>', |w|))
  {
    var t := w + rest;
    assert t[..|w|] == w && t[6] == 'g';
  }

  lemma WordBar(w: string, rest: string)
    requires w == "{\\textbar}"
    ensures WordAt(w + rest) == Some(('|', |w|))
  {
    var t := w + rest;
    assert t[..|w|] == w && t[6] == 'b' && t[8] == 'r';
  }

  lemma WordBackslash(w: string, rest: string)
    requires w == "{\\textbackslash}"
    ensures WordAt(w + rest) == Some(('\\', |w|))
  {
    var t := w + rest;
    assert t[..|w|] == w && t[6] == 'b' && t[8] == 'c';
  }

  lemma WordTilde(w: string, rest: string)
    requires w == "{\\textasciitilde}"
    ensures WordAt(w + rest) == Some(('~', |w|))
  {
    var t := w + rest;
    assert t[..|w|] == w && t[6] == 'a';
  }

  lemma UnquoteTwo(x: char, rest: string)
    requires x in "#$%&_{}"
    ensures Unquote(['\\', x] + rest) == [x] + Unquote(rest)
  {
    var t := ['\\', x] + rest;
    assert t[0] == '\\' && t[1] == x && t[2..] == rest;
  }

  lemma UnquoteFour(x: char, rest: string)
    requires x == '^' || x == '`'
    ensures Unquote(['\\', x, '{', '}'] + rest) == [x] + Unquote(rest)
  {
    var t := ['\\', x, '{', '}'] + rest;
    assert t[0] == '\\' && t[1] == x && t[4..] == rest;
    assert x !in "#$%&_{}";
  }

  lemma UnquoteBracket(x: char, rest: string)
    requires x == '[' || x == ']'
    ensures Unquote(['{', x, '}'] + rest) == [x] + Unquote(rest)
  {
    var t := ['{', x, '}'] + rest;
    assert t[0] == '{' && t[1] == x && t[3..] == rest;
  }

  lemma UnquoteOne(c: char, rest: string)
    requires !IsSpecial(c) || c == '\U{a0}'
    ensures Unquote(QuoteChar(c) + rest) == [c] + Unquote(rest)
  {
    var t := QuoteChar(c) + rest;
    assert t[0] == QuoteChar(c)[0] && t[1..] == rest;
  }

  /** `quote` loses nothing: unquoting the entry of any one character gives
      that character back. */
  lemma UnquoteQuoteChar(c: char, rest: string)
    ensures Unquote(QuoteChar(c) + rest) == [c] + Unquote(rest)
  {
    var w := QuoteChar(c);
    if c == '<' {
      WordLess(w, rest);
      UnquoteWordAt(w, c, rest);
    } else if c == '>' {
      WordGreater(w, rest);
      UnquoteWordAt(w, c, rest);
    } else if c == '|' {
      WordBar(w, rest);
      UnquoteWordAt(w, c, rest);
    } else if c == '\\' {
      WordBackslash(w, rest);
      UnquoteWordAt(w, c, rest);
    } else if c == '~' {
      WordTilde(w, rest);
      UnquoteWordAt(w, c, rest);
    } else if c == '#' || c == '$' || c == '%' || c == '&' || c == '_' || c == '{' || c == '}' {
      assert w == ['\\', c];
      UnquoteTwo(c, rest);
    } else if c == '^' || c == '`' {
      assert w == ['\\', c, '{', '}'];
      UnquoteFour(c, rest);
    } else if c == '[' || c == ']' {
      assert w == ['{', c, '}'];
      UnquoteBracket(c, rest);
    } else {
      UnquoteOne(c, rest);
    }
  }

  lemma {:induction false} UnquoteQuote(s: string)
    ensures Unquote(Quote(s)) == s
  {
    if s != [] {
      UnquoteQuote(s[1..]);
      UnquoteQuoteChar(s[0], Quote(s[1..]));
      assert s == [s[0]] + s[1..];
    }
  }

  /** So different texts are quoted differently. */
  lemma QuoteInjective(s: string, t: string)
    requires Quote(s) == Quote(t)
    ensures s == t
  {
    UnquoteQuote(s);
    UnquoteQuote(t);
  }

  // ---------------------------------------------------------------------
  // cmd and env

  /** The net number of opening braces. */
  function Braces(s: string): int
  {
    if s == [] then 0
    else (if s[0] == '{' then 1 else if s[0] == '}' then -1 else 0) + Braces(s[1..])
  }

  lemma {:induction false} BracesAppend(a: string, b: string)
    ensures Braces(a + b) == Braces(a) + Braces(b)
  {
    if a != [] {
      assert (a + b)[0] == a[0] && (a + b)[1..] == a[1..] + b;
      BracesAppend(a[1..], b);
    } else {
      assert a + b == b;
    }
  }

  /** The sum of the pieces' brace counts. */
  function BracesAll(xs: seq<string>): int
  {
    if xs == [] then 0 else Braces(xs[0]) + BracesAll(xs[1..])
  }

  /** `''.join(map('[%s]'.__mod__, opts))`. */
  function OptsText(opts: seq<string>): string
  {
    if opts == [] then "" else "[" + opts[0] + "]" + OptsText(opts[1..])
  }

  /** `''.join(map('{%s}'.__mod__, args))`. */
  function ArgsText(args: seq<string>): string
  {
    if args == [] then "" else "{" + args[0] + "}" + ArgsText(args[1..])
  }

  /** `EMPTY_CMD_ARGS.get(name, '{}')`. */
  function EmptyArgs(name: string): string
  {
    if name == "item" then " " else "{}"
  }

  /** `cmd(name, opts, args)`. */
  function Cmd(name: string, opts: seq<string>, args: seq<string>): string
  {
    "\\" + name + OptsText(opts) + (if args != [] then ArgsText(args) else EmptyArgs(name))
  }

  lemma BracesThree(a: string, b: string, c: string)
    ensures Braces(a + b + c) == Braces(a) + Braces(b) + Braces(c)
  {
    BracesAppend(a + b, c);
    BracesAppend(a, b);
  }

  lemma {:induction false} OptsBraces(opts: seq<string>)
    ensures Braces(OptsText(opts)) == BracesAll(opts)
  {
    if opts != [] {
      OptsBraces(opts[1..]);
      BracesThree("[" + opts[0], "]", OptsText(opts[1..]));
      BracesAppend("[", opts[0]);
      assert Braces("[") == 0 && Braces("]") == 0;
      assert "[" + opts[0] + "]" + OptsText(opts[1..]) == ("[" + opts[0]) + "]" + OptsText(opts[1..]);
    }
  }

  lemma {:induction false} ArgsBraces(args: seq<string>)
    ensures Braces(ArgsText(args)) == BracesAll(args)
  {
    if args != [] {
      ArgsBraces(args[1..]);
      BracesThree("{" + args[0], "}", ArgsText(args[1..]));
      BracesAppend("{", args[0]);
      assert Braces("{") == 1 && Braces("}") == -1;
    }
  }

  /** `cmd` adds no unbalanced brace of its own: the braces of the result
      are those of the name, the options and the arguments. */
  lemma CmdBraces(name: string, opts: seq<string>, args: seq<string>)
    ensures Braces(Cmd(name, opts, args)) == Braces(name) + BracesAll(opts) + BracesAll(args)
  {
    var tail := if args != [] then ArgsText(args) else EmptyArgs(name);
    BracesThree("\\" + name, OptsText(opts), tail);
    BracesAppend("\\", name);
    assert Braces("\\") == 0;
    OptsBraces(opts);
    if args != [] {
      ArgsBraces(args);
    } else {
      assert Braces(" ") == 0 && Braces("{}") == 0;
      assert BracesAll(args) == 0;
    }
  }

  /** A command without arguments ends in `{}`, except `\item`, which ends in
      a space. */
  lemma CmdNoArgs(name: string, opts: seq<string>)
    ensures EndsWith(Cmd(name, opts, []), if name == "item" then " " else "{}")
  {
  }

  /** The options of an environment: `[o1,o2,...]`, or nothing. */
  function EnvOpts(opts: seq<string>): string
  {
    if opts != [] then "[" + Join(",", opts) + "]" else ""
  }

  /** `env(name, body, opts, args)`. */
  function Env(name: string, body: string, opts: seq<string>, args: seq<string>): string
  {
    "\n\\begin{" + name + "}" + EnvOpts(opts) + ArgsText(args) + "\n" + body + "\n\n\\end{" + name + "}\n"
  }

  /** The body sits between the `\begin` line and the `\end` line, with one
      line break before it and a blank line after it. */
  lemma EnvAround(name: string, body: string, opts: seq<string>, args: seq<string>)
    ensures var head := "\n\\begin{" + name + "}" + EnvOpts(opts) + ArgsText(args) + "\n";
      var foot := "\n\n\\end{" + name + "}\n";
      Env(name, body, opts, args) == head + body + foot
  {
  }

  /** A string without braces has none to count. */
  lemma {:induction false} BracesFree(s: string)
    requires '{' !in s && '}' !in s
    ensures Braces(s) == 0
  {
    if s != [] {
      assert s[0] in s;
      assert forall c :: c in s[1..] ==> c in s;
      BracesFree(s[1..]);
    }
  }

  lemma BracesOpen(p: string)
    requires '{' !in p && '}' !in p
    ensures Braces(p + "{") == 1
  {
    BracesFree(p);
    BracesAppend(p, "{");
  }

  lemma BracesClose(p: string)
    requires '{' !in p && '}' !in p
    ensures Braces("}" + p) == -1
  {
    BracesFree(p);
    BracesAppend("}", p);
  }

  /** `env` adds no unbalanced brace of its own. */
  lemma EnvBraces(name: string, body: string, opts: seq<string>, args: seq<string>)
    ensures Braces(Env(name, body, opts, args)) ==
      2 * Braces(name) + Braces(EnvOpts(opts)) + BracesAll(args) + Braces(body)
  {
    var begin, end, nl := "\n\\begin", "\n\n\\end", "\n";
    assert begin + "{" == "\n\\begin{" && end + "{" == "\n\n\\end{" && "}" + nl == "}\n";
    var s1 := begin + "{" + name;
    var s2 := s1 + "}";
    var s3 := s2 + EnvOpts(opts);
    var s4 := s3 + ArgsText(args);
    var s5 := s4 + nl;
    var s6 := s5 + body;
    var s7 := s6 + (end + "{");
    var s8 := s7 + name;
    var s9 := s8 + ("}" + nl);
    assert Env(name, body, opts, args) == s9;
    assert '{' !in begin && '}' !in begin && '{' !in end && '}' !in end && '{' !in nl && '}' !in nl;
    BracesOpen(begin);
    BracesOpen(end);
    BracesClose(nl);
    BracesFree(nl);
    BracesAppend(begin + "{", name);
    BracesAppend(s1, "}");
    BracesAppend(s2, EnvOpts(opts));
    BracesAppend(s3, ArgsText(args));
    BracesAppend(s4, nl);
    BracesAppend(s5, body);
    BracesAppend(s6, end + "{");
    BracesAppend(s7, name);
    BracesAppend(s8, "}" + nl);
    ArgsBraces(args);
  }

  // ---------------------------------------------------------------------
  // extract_labels

  /** `e == ('a', {'name': HREF}, [])`. */
  predicate IsLabel(e: Node)
  {
    e.Elem? && e.tag == "a" && e.attrs.Keys == {"name"} && e.body == []
  }

  /** `s.lstrip('#')`. */
  function LStripHash(s: string): (r: string)
    ensures |r| <= |s| && r == s[|s| - |r|..]
    ensures |r| > 0 ==> r[0] != '#'
  {
    if |s| > 0 && s[0] == '#' then LStripHash(s[1..]) else s
  }

  /** `HREF.val.lstrip('#')`: only a string has `lstrip`. */
  function LabelName(e: Node): (r: Result<string>)
    requires IsLabel(e)
    ensures r.Ok? <==> e.attrs["name"].Str?
  {
    match e.attrs["name"]
    case Str(s) => Ok(LStripHash(s))
    case _ => Err("AttributeError")
  }

  /** The items that stay in the body, in order. */
  function Others(body: seq<Node>): (r: seq<Node>)
    ensures forall i :: 0 <= i < |r| ==> !IsLabel(r[i])
    ensures |r| <= |body|
  {
    if body == [] then []
    else Others(body[..|body| - 1]) + (if IsLabel(body[|body| - 1]) then [] else [body[|body| - 1]])
  }

  /** The number of label items. */
  function LabelCount(body: seq<Node>): nat
  {
    if body == [] then 0
    else LabelCount(body[..|body| - 1]) + (if IsLabel(body[|body| - 1]) then 1 else 0)
  }

  /** The label names, in order, or the error of the first label whose name
      is not a string. */
  function Names(body: seq<Node>): (r: Result<seq<string>>)
    ensures r.Ok? ==> |r.value| == LabelCount(body)
  {
    if body == [] then Ok([])
    else
      var e := body[|body| - 1];
      match Names(body[..|body| - 1])
      case Err(m) => Err(m)
      case Ok(ns) =>
        if IsLabel(e) then
          match LabelName(e)
          case Ok(n) => Ok(ns + [n])
          case Err(m) => Err(m)
        else Ok(ns)
  }

  /** `extract_labels(body)`: one pass that sends each label's name to
      `labels` and every other item to `newbody`. */
  method ExtractLabels(body: seq<Node>) returns (r: Result<(seq<string>, seq<Node>)>)
    ensures r.Ok? <==> Names(body).Ok?
    ensures r.Ok? ==> r.value.0 == Names(body).value && r.value.1 == Others(body)
  {
    var labels: seq<string> := [];
    var newbody: seq<Node> := [];
    var i := 0;
    while i < |body|
      invariant 0 <= i <= |body|
      invariant Names(body[..i]) == Ok(labels)
      invariant newbody == Others(body[..i])
    {
      var e := body[i];
      assert body[..i + 1][..i] == body[..i];
      if IsLabel(e) {
        var n := LabelName(e);
        if n.Err? {
          PrefixError(body, i + 1);
          return Err(n.error);
        }
        labels := labels + [n.value];
      } else {
        newbody := newbody + [e];
      }
      i := i + 1;
    }
    assert body[..i] == body;
    return Ok((labels, newbody));
  }

  /** Once a prefix fails, the whole body does. */
  lemma {:induction false} PrefixError(body: seq<Node>, k: nat)
    requires k <= |body| && Names(body[..k]).Err?
    ensures Names(body).Err?
    decreases |body| - k
  {
    if k < |body| {
      assert body[..k + 1][..k] == body[..k];
      PrefixError(body, k + 1);
    } else {
      assert body[..k] == body;
    }
  }

  /** Every item goes to exactly one side: a name for each label and the
      other items kept. */
  lemma {:induction false} ExtractLabelsPartition(body: seq<Node>)
    ensures |Others(body)| + LabelCount(body) == |body|
  {
    if body != [] {
      ExtractLabelsPartition(body[..|body| - 1]);
    }
  }

  /** A body without labels comes out unchanged, with no labels. */
  lemma {:induction false} ExtractLabelsNoLabels(body: seq<Node>)
    requires forall i :: 0 <= i < |body| ==> !IsLabel(body[i])
    ensures Others(body) == body && Names(body) == Ok([])
  {
    if body != [] {
      var p, e := body[..|body| - 1], body[|body| - 1];
      assert forall i :: 0 <= i < |p| ==> !IsLabel(p[i]) by {
        forall i | 0 <= i < |p| ensures !IsLabel(p[i]) {
          assert p[i] == body[i];
        }
      }
      ExtractLabelsNoLabels(p);
      assert !IsLabel(e);
      assert Others(body) == Others(p) + [e];
      assert p + [e] == body;
    }
  }

  /** So a second extraction finds nothing more. */
  lemma ExtractLabelsIdempotent(body: seq<Node>)
    ensures Others(Others(body)) == Others(body) && Names(Others(body)) == Ok([])
  {
    ExtractLabelsNoLabels(Others(body));
  }

  /** A label named `#x` gives the label `x`. */
  lemma LabelStripsHash(x: string)
    requires |x| == 0 || x[0] != '#'
    ensures var e := Elem("a", map["name" := Str("#" + x)], []);
      IsLabel(e) && LabelName(e) == Ok(x)
  {
    var m: WAttrs := map["name" := Str("#" + x)];
    assert m.Keys == {"name"};
    var s := "#" + x;
    assert s[0] == '#' && s[1..] == x;
    assert LStripHash(s) == LStripHash(x);
  }

  // ---------------------------------------------------------------------
  // _href_escape and latexify_href

  /** The characters `_href_escape` percent-encodes: `{}[]^\"|`. */
  predicate IsUrlUnsafe(c: char)
  {
    c == '{' || c == '}' || c == '[' || c == ']' || c == '^' || c == '\\' || c == '"' || c == '|'
  }

  /** One upper-case hexadecimal digit, as `%X` prints it. */
  function HexDigit(d: nat): (r: char)
    requires d < 16
    ensures IsDigit(r) || 'A' <= r <= 'F'
  {
    if d < 10 then (('0' as int) + d) as char else (('A' as int) + d - 10) as char
  }

  /** `'%%%X' % ord(c)` for a character whose code has two hex digits. */
  function PercentCode(c: char): (r: string)
    requires 16 <= c as int < 256
    ensures |r| == 3 && r[0] == '%'
  {
    "%" + [HexDigit(c as int / 16), HexDigit(c as int % 16)]
  }

  function HrefEscChar(c: char): string
  {
    if IsUrlUnsafe(c) then PercentCode(c) else [c]
  }

  /** `_href_escape(s)`. */
  function HrefEscape(s: string): string
  {
    if s == [] then [] else HrefEscChar(s[0]) + HrefEscape(s[1..])
  }

  function HashTag(s: string): string { ReplaceChar(s, '#', "\\#") }
  function PctTag(s: string): string { ReplaceChar(s, '%', "\\%") }

  /** `latexify_href(url)`. */
  function LatexifyHref(url: string): string
  {
    PctTag(HashTag(HrefEscape(url)))
  }

  /** What one character of a url becomes. */
  function HrefChar(c: char): string
  {
    if IsUrlUnsafe(c) then "\\" + PercentCode(c)
    else if c == '#' then "\\#"
    else if c == '%' then "\\%"
    else [c]
  }

  function HrefMap(s: string): string
  {
    if s == [] then [] else HrefChar(s[0]) + HrefMap(s[1..])
  }

  lemma {:induction false} HrefEscapeAppend(a: string, b: string)
    ensures HrefEscape(a + b) == HrefEscape(a) + HrefEscape(b)
  {
    if a != [] {
      assert (a + b)[0] == a[0] && (a + b)[1..] == a[1..] + b;
      HrefEscapeAppend(a[1..], b);
      AppendAssoc(HrefEscChar(a[0]), HrefEscape(a[1..]), HrefEscape(b));
    } else {
      assert a + b == b;
    }
  }

  lemma LatexifyHrefAppend(a: string, b: string)
    ensures LatexifyHref(a + b) == LatexifyHref(a) + LatexifyHref(b)
  {
    HrefEscapeAppend(a, b);
    var a1, b1 := HrefEscape(a), HrefEscape(b);
    ReplaceCharAppend(a1, b1, '#', "\\#");
    ReplaceCharAppend(HashTag(a1), HashTag(b1), '%', "\\%");
  }

  /** The percent code of an unsafe character goes through both
      replacements with only its `%` escaped. */
  lemma LatexifyUnsafe(c: char)
    requires IsUrlUnsafe(c)
    ensures LatexifyHref([c]) == "\\" + PercentCode(c)
  {
    var p := PercentCode(c);
    var h := p[1..];
    assert [c][1..] == [];
    assert HrefEscape([c]) == p;
    assert p == "%" + h;
    assert '#' !in p && '%' !in h;
    ReplaceCharAbsent(p, '#', "\\#");
    ReplaceCharAppend("%", h, '%', "\\%");
    ReplaceCharOne('%', '%', "\\%");
    ReplaceCharAbsent(h, '%', "\\%");
  }

  lemma LatexifySafe(c: char)
    requires !IsUrlUnsafe(c)
    ensures LatexifyHref([c]) == HrefChar(c)
  {
    assert [c][1..] == [];
    assert HrefEscape([c]) == [c];
    ReplaceCharOne(c, '#', "\\#");
    if c == '#' {
      var e := "\\#";
      ReplaceCharAbsent(e, '%', "\\%");
    } else {
      ReplaceCharOne(c, '%', "\\%");
    }
  }

  /** `latexify_href` percent-encodes `{}[]^\"|`, then puts a backslash in
      front of every `#` and every `%` (those of the codes included), and
      keeps every other character. */
  lemma {:induction false} LatexifyHrefByChar(s: string)
    ensures LatexifyHref(s) == HrefMap(s)
  {
    if s != [] {
      assert s == [s[0]] + s[1..];
      LatexifyHrefAppend([s[0]], s[1..]);
      if IsUrlUnsafe(s[0]) {
        LatexifyUnsafe(s[0]);
      } else {
        LatexifySafe(s[0]);
      }
      LatexifyHrefByChar(s[1..]);
    }
  }

  /** Three characters of the doctest: `{` and `\\` are percent-encoded
      and the `%` escaped; `#` is escaped. */
  lemma LatexifyHrefExamples()
    ensures LatexifyHref("{") == "\\%7B"
    ensures LatexifyHref("\\") == "\\%5C"
    ensures LatexifyHref("#") == "\\#"
  {
    LatexifyUnsafe('{');
    LatexifyUnsafe('\\');
    LatexifySafe('#');
  }

  /** An escaped url holds no brace. */
  lemma {:induction false} HrefEscapeNoBraces(s: string)
    ensures Braces(HrefEscape(s)) == 0
    ensures forall i :: 0 <= i < |HrefEscape(s)| ==> HrefEscape(s)[i] != '{' && HrefEscape(s)[i] != '}'
  {
    if s != [] {
      HrefEscapeNoBraces(s[1..]);
      var w := HrefEscChar(s[0]);
      BracesAppend(w, HrefEscape(s[1..]));
      if IsUrlUnsafe(s[0]) {
        assert Braces(w) == Braces(w[1..]) == Braces(w[2..]) == Braces(w[3..]) == 0;
      }
    }
  }

  // ---------------------------------------------------------------------
  // urldef

  /** How many times `c` occurs in `s`. */
  function CountChar(s: string, c: char): nat
  {
    if s == [] then 0 else (if s[0] == c then 1 else 0) + CountChar(s[1..], c)
  }

  /** `_NUM2ROMAN`: the digits become `ZABCDEFGHI`. */
  function RomanDigit(c: char): char
  {
    if c == '0' then 'Z'
    else if IsDigit(c) then (c as int - '1' as int + 'A' as int) as char
    else c
  }

  function Roman(s: string): (r: string)
    ensures |r| == |s| && forall i :: 0 <= i < |s| ==> r[i] == RomanDigit(s[i])
  {
    if s == [] then [] else [RomanDigit(s[0])] + Roman(s[1..])
  }

  /** The macro name of the `n`-th url. */
  function UrlName(n: nat): string
  {
    "tystrurl" + Roman(NatToString(n))
  }

  /** The href as it goes into `\url`: escaped only if its braces do not
      pair up by count. */
  function UrlHref(href: string): (r: string)
    ensures CountChar(href, '{') == CountChar(href, '}') ==> r == href
  {
    if CountChar(href, '{') != CountChar(href, '}') then HrefEscape(href) else href
  }

  function UrldefLine(name: string, href: string): string
  {
    "\\urldef{\\" + name + "}\\url{" + href + "}"
  }

  predicate IsAsciiLetter(c: char) { IsAsciiLower(c) || IsAsciiUpper(c) }

  predicate AllLetters(s: string)
  {
    forall i :: 0 <= i < |s| ==> IsAsciiLetter(s[i])
  }

  /** A url macro is a control word: nothing but letters. */
  lemma UrlNameLetters(n: nat)
    ensures AllLetters(UrlName(n))
  {
    var d := NatToString(n);
    var r := Roman(d);
    assert AllLetters(r) by {
      forall i | 0 <= i < |r| ensures IsAsciiLetter(r[i]) {
        assert IsDigit(d[i]);
      }
    }
    var p := "tystrurl";
    assert AllLetters(p);
    LettersAppend(p, r);
  }

  lemma LettersAppend(p: string, q: string)
    requires AllLetters(p) && AllLetters(q)
    ensures AllLetters(p + q)
  {
    assert forall i :: 0 <= i < |p + q| ==> (p + q)[i] == if i < |p| then p[i] else q[i - |p|];
  }

  /** The digit map is one-to-one. */
  lemma {:induction false} RomanInjective(a: string, b: string)
    requires forall i :: 0 <= i < |a| ==> IsDigit(a[i])
    requires forall i :: 0 <= i < |b| ==> IsDigit(b[i])
    requires Roman(a) == Roman(b)
    ensures a == b
  {
    assert |a| == |b|;
    forall i | 0 <= i < |a| ensures a[i] == b[i] {
      assert RomanDigit(a[i]) == Roman(a)[i] == Roman(b)[i] == RomanDigit(b[i]);
    }
  }

  /** Different urls get different macros. */
  lemma UrlNameInjective(m: nat, n: nat)
    requires UrlName(m) == UrlName(n)
    ensures m == n
  {
    var p := "tystrurl";
    assert UrlName(m)[|p|..] == Roman(NatToString(m));
    assert UrlName(n)[|p|..] == Roman(NatToString(n));
    RomanInjective(NatToString(m), NatToString(n));
    NatToStringInjective(m, n);
  }

  /** Escaping strips every brace, so the href that goes into `\url` has as
      many `{` as `}`. */
  lemma {:induction false} CountBraces(s: string)
    requires forall i :: 0 <= i < |s| ==> s[i] != '{' && s[i] != '}'
    ensures CountChar(s, '{') == 0 && CountChar(s, '}') == 0
  {
    if s != [] {
      CountBraces(s[1..]);
    }
  }

  lemma UrlHrefPaired(href: string)
    ensures CountChar(UrlHref(href), '{') == CountChar(UrlHref(href), '}')
  {
    if CountChar(href, '{') != CountChar(href, '}') {
      HrefEscapeNoBraces(href);
      CountBraces(HrefEscape(href));
    }
  }

  /** The writer's state that the helpers here touch: where the sections
      start and the `\urldef` lines collected so far. */
  class Writer {
    var sectionOffset: int
    var urldefs: seq<string>

    constructor (sectionOffset: int)
      ensures this.sectionOffset == sectionOffset && urldefs == []
    {
      this.sectionOffset := sectionOffset;
      urldefs := [];
    }

    /** `urldef(href, self.urldefs)`: append one `\urldef` line and return
        the command that stands for the url. */
    method Urldef(href: string) returns (c: string)
      modifies this
      ensures urldefs == old(urldefs) + [UrldefLine(UrlName(|old(urldefs)| + 1), UrlHref(href))]
      ensures sectionOffset == old(sectionOffset)
      ensures c == Cmd(UrlName(|old(urldefs)| + 1), [], [])
    {
      var h := href;
      if CountChar(href, '{') != CountChar(href, '}') {
        h := HrefEscape(href);
      }
      var name := "tystrurl" + Roman(NatToString(|urldefs| + 1));
      urldefs := urldefs + [UrldefLine(name, h)];
      c := Cmd(name, [], []);
    }
  }

  /** Two urls defined one after the other get different macros. */
  lemma UrldefNamesDistinct(k: nat)
    ensures UrlName(k + 1) != UrlName(k + 2)
  {
    if UrlName(k + 1) == UrlName(k + 2) {
      UrlNameInjective(k + 1, k + 2);
    }
  }

  // ---------------------------------------------------------------------
  // section_offset and section

  const SECTION_COMMANDS: seq<string> :=
    ["part", "chapter", "section", "subsection", "subsubsection", "paragraph", "subparagraph", "subsubparagraph"]

  /** The position of a heading tag in `H_TAGS`. */
  function HIndex(h: string): (r: Option<nat>)
    ensures r.Some? <==> h in H_TAGS
    ensures r.Some? ==> r.value < |H_TAGS| && H_TAGS[r.value] == h
  {
    if h == "h1" then Some(0) else if h == "h2" then Some(1) else if h == "h3" then Some(2)
    else if h == "h4" then Some(3) else if h == "h5" then Some(4) else if h == "h6" then Some(5)
    else None
  }

  /** `SECTION_COMMANDS.index('section') - H_TAGS.index(section_corresponds_to)`:
      `index` raises before the assertion that follows it is reached. */
  function SectionOffset(sct: string): (r: Result<int>)
    ensures r.Ok? <==> sct in H_TAGS
    ensures r.Ok? ==> -3 <= r.value <= 2 && SECTION_COMMANDS[2] == "section"
  {
    match HIndex(sct)
    case None => Err("ValueError")
    case Some(k) => Ok(2 - k)
  }

  /** `LatexWriter(section_corresponds_to=sct)`, as far as these fields go. */
  method NewWriter(sct: string) returns (r: Result<Writer>)
    ensures r.Ok? <==> sct in H_TAGS
    ensures r.Ok? ==> fresh(r.value) && Ok(r.value.sectionOffset) == SectionOffset(sct) && r.value.urldefs == []
  {
    var off := SectionOffset(sct);
    if off.Err? {
      return Err(off.error);
    }
    var w := new Writer(off.value);
    return Ok(w);
  }

  /** Python's `xs[i]`: a negative index counts from the end. */
  function PyIndex(xs: seq<string>, i: int): (r: Result<string>)
    ensures r.Ok? <==> -|xs| <= i < |xs|
    ensures 0 <= i < |xs| ==> r == Ok(xs[i])
    ensures -|xs| <= i < 0 ==> r == Ok(xs[|xs| + i])
  {
    if 0 <= i < |xs| then Ok(xs[i])
    else if -|xs| <= i < 0 then Ok(xs[|xs| + i])
    else Err("IndexError")
  }

  /** `SECTION_COMMANDS[H_TAGS.index(h) + self.section_offset]`. */
  function SectionCommand(h: string, offset: int): (r: Result<string>)
    ensures h !in H_TAGS ==> r == Err("ValueError")
  {
    match HIndex(h)
    case None => Err("ValueError")
    case Some(j) => PyIndex(SECTION_COMMANDS, j + offset)
  }

  /** With any heading chosen as `section`, every heading gets a command: the
      one as many levels below `section` as the heading is below the chosen
      one, counted from the end of the list when that goes above `part`. */
  lemma SectionCommandOf(h: string, sct: string)
    requires h in H_TAGS && sct in H_TAGS
    ensures var j, k := HIndex(h).value, HIndex(sct).value;
      var i := j + 2 - k;
      SectionCommand(h, SectionOffset(sct).value) ==
        Ok(if i >= 0 then SECTION_COMMANDS[i] else SECTION_COMMANDS[|SECTION_COMMANDS| + i])
  {
  }

  /** The heading chosen as `section` becomes `\section`. */
  lemma CorrespondingIsSection(sct: string)
    requires sct in H_TAGS
    ensures SectionCommand(sct, SectionOffset(sct).value) == Ok("section")
  {
  }

  /** A heading more than two levels above the chosen one wraps around:
      with `h4` as `section`, `h1` becomes `\subsubparagraph`. */
  lemma SectionCommandWraps()
    ensures SectionCommand("h1", SectionOffset("h4").value) == Ok("subsubparagraph")
  {
  }

  // ---------------------------------------------------------------------
  // latexify_metavarname

  predicate IsMetaChar(c: char) { IsAsciiLower(c) || c == '-' }

  function CapitalizeAll(ps: seq<string>): string
  {
    if ps == [] then "" else Capitalize(ps[0]) + CapitalizeAll(ps[1..])
  }

  /** `latexify_metavarname(name)`. */
  function LatexifyMetavarname(name: string): (r: Result<string>)
    ensures r.Ok? <==> forall i :: 0 <= i < |name| ==> IsMetaChar(name[i])
  {
    if exists i :: 0 <= i < |name| && !IsMetaChar(name[i]) then Err("AssertionError")
    else
      var parts := Split(name, "-");
      Ok("tystr" + parts[0] + CapitalizeAll(parts[1..]))
  }

  predicate AllLower(s: string)
  {
    forall i :: 0 <= i < |s| ==> IsAsciiLower(s[i])
  }

  lemma {:induction false} SplitPiecesLower(s: string, cur: string)
    requires forall i :: 0 <= i < |s| ==> IsMetaChar(s[i])
    requires AllLower(cur)
    ensures forall i :: 0 <= i < |SplitFrom(s, "-", cur)| ==> AllLower(SplitFrom(s, "-", cur)[i])
    decreases |s|
  {
    if |s| < 1 {
      assert cur + s == cur;
    } else if s[..1] == "-" {
      SplitPiecesLower(s[1..], "");
    } else {
      assert s[0] != '-' by {
        assert s[..1] == [s[0]];
      }
      assert AllLower(cur + [s[0]]);
      SplitPiecesLower(s[1..], cur + [s[0]]);
    }
  }

  lemma {:induction false} CapitalizeAllLetters(ps: seq<string>)
    requires forall i :: 0 <= i < |ps| ==> AllLower(ps[i])
    ensures AllLetters(CapitalizeAll(ps))
  {
    if ps != [] {
      assert forall i :: 0 <= i < |ps[1..]| ==> ps[1..][i] == ps[i + 1];
      CapitalizeAllLetters(ps[1..]);
      CapitalizeLetters(ps[0]);
      LettersAppend(Capitalize(ps[0]), CapitalizeAll(ps[1..]));
    }
  }

  lemma CapitalizeLetters(s: string)
    requires AllLower(s)
    ensures AllLetters(Capitalize(s))
  {
  }

  /** An accepted meta name becomes a control word: `tystr` and letters. */
  lemma MetavarnameLetters(name: string)
    requires LatexifyMetavarname(name).Ok?
    ensures StartsWith(LatexifyMetavarname(name).value, "tystr")
    ensures AllLetters(LatexifyMetavarname(name).value)
  {
    var parts := Split(name, "-");
    var p, q := "tystr" + parts[0], CapitalizeAll(parts[1..]);
    assert LatexifyMetavarname(name).value == p + q;
    MetavarnamePieces(name);
    LettersAppend(p, q);
  }

  /** Both halves of an accepted name's macro are letters. */
  lemma MetavarnamePieces(name: string)
    requires forall i :: 0 <= i < |name| ==> IsMetaChar(name[i])
    ensures AllLetters("tystr" + Split(name, "-")[0])
    ensures AllLetters(CapitalizeAll(Split(name, "-")[1..]))
  {
    var parts := Split(name, "-");
    SplitPiecesLower(name, "");
    var tail := parts[1..];
    assert forall i :: 0 <= i < |tail| ==> tail[i] == parts[i + 1];
    CapitalizeAllLetters(tail);
    assert AllLetters("tystr");
    LettersAppend("tystr", parts[0]);
  }

  /** A name without `-` gives `tystr` + the name, as the module's
      assertion `latexify_metavarname('name') == 'tystrname'` shows. */
  lemma MetavarnameOnePart(a: string)
    requires AllLower(a)
    ensures LatexifyMetavarname(a) == Ok("tystr" + a)
  {
    NoDash(a);
    SplitFromNoDash(a, "");
    assert "" + a == a;
    var parts := Split(a, "-");
    assert parts == [a];
    assert parts[1..] == [] && CapitalizeAll(parts[1..]) == "";
    assert "tystr" + parts[0] + CapitalizeAll(parts[1..]) == "tystr" + a;
    assert !exists i :: 0 <= i < |a| && !IsMetaChar(a[i]);
  }

  /** `a-b-c` gives `tystr` + `a` + the other two parts capitalised. */
  lemma MetavarnameThreeParts(a: string, b: string, c: string)
    requires AllLower(a) && AllLower(b) && AllLower(c)
    ensures LatexifyMetavarname(a + "-" + b + "-" + c) == Ok("tystr" + a + Capitalize(b) + Capitalize(c))
  {
    var bc := b + "-" + c;
    var name := a + "-" + bc;
    assert name == a + "-" + b + "-" + c;
    forall i | 0 <= i < |name| ensures IsMetaChar(name[i]) {
      if i < |a| {
        assert name[i] == a[i];
      } else if i > |a| {
        assert name[i] == bc[i - |a| - 1];
        var j := i - |a| - 1;
        if j < |b| {
          assert bc[j] == b[j];
        } else if j > |b| {
          assert bc[j] == c[j - |b| - 1];
        }
      }
    }
    NoDash(a); NoDash(b); NoDash(c);
    SplitPieceDash(a, bc, "");
    SplitPieceDash(b, c, "");
    SplitFromNoDash(c, "");
    assert "" + a == a && "" + b == b && "" + c == c;
    assert SplitFrom(bc, "-", "") == [b, c];
    assert SplitFrom(name, "-", "") == [a] + [b, c];
    assert Split(name, "-") == [a, b, c];
    assert [a, b, c][1..] == [b, c] && [b, c][1..] == [c] && [c][1..] == [];
    assert CapitalizeAll([]) == "";
    assert CapitalizeAll([c]) == Capitalize(c) + "" == Capitalize(c);
    assert CapitalizeAll([b, c]) == Capitalize(b) + Capitalize(c);
    AppendAssoc("tystr" + a, Capitalize(b), Capitalize(c));
    assert !exists i :: 0 <= i < |name| && !IsMetaChar(name[i]);
  }

  lemma NoDash(s: string)
    requires AllLower(s)
    ensures '-' !in s
  {
  }

  lemma {:induction false} SplitFromNoDash(s: string, cur: string)
    requires '-' !in s
    ensures SplitFrom(s, "-", cur) == [cur + s]
    decreases |s|
  {
    if |s| >= 1 {
      assert s[..1] != "-" by {
        assert s[0] in s;
      }
      assert '-' !in s[1..] by {
        assert forall c :: c in s[1..] ==> c in s;
      }
      SplitFromNoDash(s[1..], cur + [s[0]]);
      assert cur + [s[0]] + s[1..] == cur + s;
    }
  }

  lemma {:induction false} SplitPieceDash(a: string, rest: string, cur: string)
    requires '-' !in a
    ensures SplitFrom(a + "-" + rest, "-", cur) == [cur + a] + SplitFrom(rest, "-", "")
    decreases |a|
  {
    var s := a + "-" + rest;
    if a == [] {
      assert s == "-" + rest;
      assert s[..1] == "-" && s[1..] == rest;
      assert cur + a == cur;
    } else {
      assert s[..1] != "-" by {
        assert s[0] == a[0] && a[0] in a;
      }
      assert s[1..] == a[1..] + "-" + rest;
      assert '-' !in a[1..] by {
        assert forall c :: c in a[1..] ==> c in a;
      }
      SplitPieceDash(a[1..], rest, cur + [s[0]]);
      assert cur + [s[0]] + a[1..] == cur + a;
    }
  }

  lemma CapitalizeExamples()
    ensures Capitalize("part") == "Part" && Capitalize("name") == "Name"
  {
    assert "part"[1..] == "art" && "name"[1..] == "ame";
    assert Lower("art") == "art" && Lower("ame") == "ame";
  }

  /** `latexify_metavarname('multi-part-name') == 'tystrmultiPartName'`. */
  lemma MetavarnameExample(name: string)
    requires name == "multi-part-name"
    ensures LatexifyMetavarname(name) == Ok("tystrmultiPartName")
  {
    var a, b, c := "multi", "part", "name";
    ExampleParts(a, b, c);
    MetavarnameThreeParts(a, b, c);
    CapitalizeExamples();
  }

  lemma ExampleParts(a: string, b: string, c: string)
    requires a == "multi" && b == "part" && c == "name"
    ensures AllLower(a) && AllLower(b) && AllLower(c)
    ensures a + "-" + b + "-" + c == "multi-part-name"
    ensures "tystr" + a + "Part" + "Name" == "tystrmultiPartName"
  {
  }
}
