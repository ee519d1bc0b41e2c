/** Endnote promotion (endnotify.py): inside each top-level section every
    footnote becomes a numbered note reference, and the footnotes' bodies are
    collected, as asides, into an endnotes section appended to that section. */
module Endnotify {
  import opened Wrappers
  import opened PyStr
  import opened Internal
  import Sectionize

  /** What `split_footnote` closes over in one section: the section's id and
      how the attributes of an aside and of a note reference are built from
      the note's id. */
  datatype Env = Env(secid: string, asideAttrs: (string, WAttrs) -> WAttrs, refAttrs: string -> WAttrs)

  /** The closure of the section `secid`: an aside gets
      `merge_attrs(a, aside_attrs, {'id': fid})`, a reference
      `merge_attrs(a_attrs, {'href': '#' + fid})`. */
  function SectionEnv(secid: string, asideAttrs: WAttrs, aAttrs: WAttrs): Env
  {
    Env(secid, (fid: string, a: WAttrs) => AsideAttrs(asideAttrs, fid, a), (fid: string) => RefAttrs(aAttrs, fid))
  }

  function AsideAttrs(asideAttrs: WAttrs, fid: string, a: WAttrs): WAttrs
  {
    MergeAttrs(a, [asideAttrs, StrAttrs("id", fid)])
  }

  function RefAttrs(aAttrs: WAttrs, fid: string): WAttrs
  {
    MergeAttrs(aAttrs, [StrAttrs("href", "#" + fid)])
  }

  lemma MergeTwo(a: WAttrs, x: WAttrs, y: WAttrs, k: string)
    requires k != CLASS && k != STYLE && k in y
    ensures k in MergeAttrs(a, [x, y]) && MergeAttrs(a, [x, y])[k] == y[k]
  {
    var m := MergeAttrs2(a, x);
    assert [x, y][1..] == [y] && [y][1..] == [];
    assert MergeAttrs(a, [x, y]) == MergeAttrs(m, [y]) == MergeAttrs(MergeAttrs2(m, y), []);
    MergeOthers(m, y, k);
  }

  lemma MergeOne(a: WAttrs, y: WAttrs, k: string)
    requires k != CLASS && k != STYLE && k in y
    ensures k in MergeAttrs(a, [y]) && MergeAttrs(a, [y])[k] == y[k]
  {
    assert [y][1..] == [];
    assert MergeAttrs(a, [y]) == MergeAttrs(MergeAttrs2(a, y), []);
    MergeOthers(a, y, k);
  }

  /** An aside carries the note's id, whatever the footnote or
      `aside_attrs` said. */
  lemma AsideHasId(secid: string, asideAttrs: WAttrs, aAttrs: WAttrs, fid: string, a: WAttrs)
    ensures var r := SectionEnv(secid, asideAttrs, aAttrs).asideAttrs(fid, a);
      "id" in r && r["id"] == Str(fid)
  {
    var r := SectionEnv(secid, asideAttrs, aAttrs).asideAttrs(fid, a);
    assert r == AsideAttrs(asideAttrs, fid, a);
    MergeTwo(a, asideAttrs, StrAttrs("id", fid), "id");
  }

  /** A reference links to `#` and the note's id, whatever `a_attrs` said. */
  lemma RefLinksTo(secid: string, asideAttrs: WAttrs, aAttrs: WAttrs, fid: string)
    ensures var r := SectionEnv(secid, asideAttrs, aAttrs).refAttrs(fid);
      "href" in r && r["href"] == Str("#" + fid)
  {
    var r := SectionEnv(secid, asideAttrs, aAttrs).refAttrs(fid);
    assert r == RefAttrs(aAttrs, fid);
    MergeOne(aAttrs, StrAttrs("href", "#" + fid), "href");
  }

  /** A size that shrinks from a footnote to its reference's body. */
  function NoteSize(e: Node): nat
    decreases e
  {
    match e
    case Text(_) => 1
    case Elem(_, _, b) => 2 + BodyNoteSize(b)
  }

  function BodyNoteSize(b: seq<Node>): nat
    decreases b
  {
    if b == [] then 0 else NoteSize(b[0]) + BodyNoteSize(b[1..])
  }

  lemma {:induction false} ItemSmaller(b: seq<Node>, i: nat)
    requires i < |b|
    ensures NoteSize(b[i]) <= BodyNoteSize(b)
    decreases i
  {
    if i > 0 {
      ItemSmaller(b[1..], i - 1);
      assert b[1..][i - 1] == b[i];
    }
  }

  predicate IsNoteTag(t: string) { t == ".footnote" }

  /** A footnote's own `id`, when it has one, must be a string for
      `'#' + fid` to succeed. */
  predicate IdUsable(a: WAttrs) { "id" in a ==> a["id"].Str? }

  /** `fid`: `'%s-fn%d' % (secid, k)`, or the footnote's own id. */
  function NoteId(secid: string, k: nat, a: WAttrs): (r: Result<string>)
    ensures r.Ok? <==> IdUsable(a)
    ensures r.Ok? && "id" !in a ==> r.value == secid + "-fn" + NatToString(k)
    ensures r.Ok? && "id" in a ==> Str(r.value) == a["id"]
  {
    if "id" !in a then Ok(secid + "-fn" + NatToString(k))
    else if a["id"].Str? then Ok(a["id"].s)
    else Err("TypeError")
  }

  /** Generated note ids of one section never collide. */
  lemma NoteIdsDistinct(secid: string, i: nat, j: nat)
    requires i != j
    ensures secid + "-fn" + NatToString(i) != secid + "-fn" + NatToString(j)
  {
    var p := secid + "-fn";
    if p + NatToString(i) == p + NatToString(j) {
      assert (p + NatToString(i))[|p|..] == NatToString(i);
      assert (p + NatToString(j))[|p|..] == NatToString(j);
      NatToStringInjective(i, j);
    }
  }

  /** `mkel('aside', ..., b)`: the footnote's body under the aside's attrs. */
  function Aside(env: Env, fid: string, f: Node): Node
    requires f.Elem?
  {
    Elem("aside", env.asideAttrs(fid, f.attrs), f.body)
  }

  /** `mkel('a', ..., [str(k)])`: the reference shows the ordinal. */
  function NoteRef(env: Env, fid: string, k: nat): Node
  {
    Elem("a", env.refAttrs(fid), [Text(NatToString(k))])
  }

  lemma RefBodySize(env: Env, fid: string, k: nat)
    ensures BodyNoteSize(NoteRef(env, fid, k).body) == 1
  {
    var b := NoteRef(env, fid, k).body;
    assert b[1..] == [];
  }

  // ---------------------------------------------------------------------
  // The transformation, on values

  /** `split_footnote(e)` when the counter holds `k`: the element that
      replaces `e`, and what is appended to `endnotes`. */
  function SplitNote(env: Env, k: nat, e: Node): (r: Result<(Node, seq<Node>)>)
    requires e.Elem?
    ensures r.Ok? ==> r.value.0.Elem? && BodyNoteSize(r.value.0.body) < NoteSize(e)
    ensures !IsNoteTag(e.tag) ==> r == Ok((e, []))
    ensures IsNoteTag(e.tag) ==> (r.Ok? <==> IdUsable(e.attrs))
  {
    if !IsNoteTag(e.tag) then Ok((e, []))
    else
      var fid := NoteId(env.secid, k + 1, e.attrs);
      if fid.Err? then Err(fid.error)
      else
        RefBodySize(env, fid.value, k + 1);
        Ok((NoteRef(env, fid.value, k + 1), [Aside(env, fid.value, e)]))
  }

  /** `_transform(split_footnote, body)` from counter `k`: the new body and
      the asides appended meanwhile. */
  function TransformBody(env: Env, k: nat, body: seq<Node>): (r: Result<(seq<Node>, seq<Node>)>)
    decreases BodyNoteSize(body), 1
  {
    if body == [] then Ok(([], []))
    else
      var h := TransformNode(env, k, body[0]);
      if h.Err? then Err(h.error)
      else
        var t := TransformBody(env, k + |h.value.1|, body[1..]);
        if t.Err? then t
        else Ok(([h.value.0] + t.value.0, h.value.1 + t.value.1))
  }

  /** One item of `_transform`: a string stays; an element goes through
      `split_footnote`, and the body of what comes back is transformed. */
  function TransformNode(env: Env, k: nat, e: Node): (r: Result<(Node, seq<Node>)>)
    decreases NoteSize(e), 0
  {
    if e.Text? then Ok((e, []))
    else
      var s := SplitNote(env, k, e);
      if s.Err? then Err(s.error)
      else
        var x := s.value.0;
        var t := TransformBody(env, k + |s.value.1|, x.body);
        if t.Err? then Err(t.error)
        else Ok((Elem(x.tag, x.attrs, t.value.0), s.value.1 + t.value.1))
  }

  /** The section of endnotes, when there is at least one. */
  function EndnotesSection(sectionAttrs: WAttrs, notes: seq<Node>): seq<Node>
  {
    if notes == [] then [] else [Elem("section", sectionAttrs, notes)]
  }

  /** `(t, a, b)` of one top-level item, with `_transform` over its body and
      the endnotes section appended when a footnote was found.  A string
      cannot be unpacked into three parts (or, with three characters, cannot
      be indexed by `'id'`), and an item without an `id` raises KeyError.
      The id is formatted with `%s`, whatever its type. */
  function EndnotifySection(sec: Node, asideAttrs: WAttrs, aAttrs: WAttrs, sectionAttrs: WAttrs): Result<Node>
  {
    if sec.Text? then Err(if |sec.text| == 3 then "TypeError" else "ValueError")
    else if "id" !in sec.attrs then Err("KeyError")
    else
      var t := TransformBody(SectionEnv(AttrText(sec.attrs["id"]), asideAttrs, aAttrs), 0, sec.body);
      if t.Err? then Err(t.error)
      else Ok(Elem(sec.tag, sec.attrs, t.value.0 + EndnotesSection(sectionAttrs, t.value.1)))
  }

  /** `endnotify(body, aside_attrs, a_attrs, section_attrs)`. */
  function EndnotifyAll(body: seq<Node>, asideAttrs: WAttrs, aAttrs: WAttrs, sectionAttrs: WAttrs): Result<seq<Node>>
  {
    if body == [] then Ok([])
    else
      var s := EndnotifySection(body[0], asideAttrs, aAttrs, sectionAttrs);
      if s.Err? then Err(s.error)
      else Cons(s.value, EndnotifyAll(body[1..], asideAttrs, aAttrs, sectionAttrs))
  }

  function Cons(x: Node, t: Result<seq<Node>>): Result<seq<Node>>
  {
    if t.Err? then t else Ok([x] + t.value)
  }

  // ---------------------------------------------------------------------
  // What the transformation does: a reference definition

  /** The footnotes of `body`, in document order.  A footnote inside a
      footnote is not one of them: it travels, untouched, into its aside. */
  function Notes(body: seq<Node>): (r: seq<Node>)
    ensures forall j :: 0 <= j < |r| ==> r[j].Elem? && IsNoteTag(r[j].tag)
    decreases body
  {
    if body == [] then [] else NotesOf(body[0]) + Notes(body[1..])
  }

  function NotesOf(e: Node): (r: seq<Node>)
    ensures forall j :: 0 <= j < |r| ==> r[j].Elem? && IsNoteTag(r[j].tag)
    decreases e
  {
    match e
    case Text(_) => []
    case Elem(t, _, b) => if IsNoteTag(t) then [e] else Notes(b)
  }

  lemma NotesCons(x: Node, s: seq<Node>)
    ensures Notes([x] + s) == NotesOf(x) + Notes(s)
  {
    assert ([x] + s)[0] == x && ([x] + s)[1..] == s;
  }

  /** The asides that the footnotes `ns` become, numbered from `k + 1`. */
  function Asides(env: Env, k: nat, ns: seq<Node>): (r: Result<seq<Node>>)
    requires forall j :: 0 <= j < |ns| ==> ns[j].Elem?
    ensures r.Ok? ==> |r.value| == |ns|
    decreases ns
  {
    if ns == [] then Ok([])
    else
      var fid := NoteId(env.secid, k + 1, ns[0].attrs);
      if fid.Err? then Err(fid.error)
      else Cons(Aside(env, fid.value, ns[0]), Asides(env, k + 1, ns[1..]))
  }

  lemma AsidesCongruent(env: Env, m: nat, n: nat, ns: seq<Node>)
    requires forall j :: 0 <= j < |ns| ==> ns[j].Elem?
    requires m == n
    ensures Asides(env, m, ns) == Asides(env, n, ns)
  {
  }

  /** The footnotes become asides exactly when each of their ids is usable. */
  lemma {:induction false} AsidesOk(env: Env, k: nat, ns: seq<Node>)
    requires forall j :: 0 <= j < |ns| ==> ns[j].Elem?
    ensures Asides(env, k, ns).Ok? <==> forall j :: 0 <= j < |ns| ==> IdUsable(ns[j].attrs)
    decreases ns
  {
    if ns != [] {
      AsidesOk(env, k + 1, ns[1..]);
      assert forall j :: 1 <= j < |ns| ==> ns[j] == ns[1..][j - 1];
    }
  }

  /** Both halves succeed, and their lists are joined. */
  function Concat(a: Result<seq<Node>>, b: Result<seq<Node>>): Result<seq<Node>>
  {
    if a.Err? then a else if b.Err? then b else Ok(a.value + b.value)
  }

  lemma ConsConcat(x: Node, a: Result<seq<Node>>, b: Result<seq<Node>>)
    ensures Cons(x, Concat(a, b)) == Concat(Cons(x, a), b)
  {
    if a.Ok? && b.Ok? {
      assert [x] + (a.value + b.value) == ([x] + a.value) + b.value;
    }
  }

  lemma {:induction false} AsidesAppend(env: Env, k: nat, a: seq<Node>, b: seq<Node>)
    requires forall j :: 0 <= j < |a| ==> a[j].Elem?
    requires forall j :: 0 <= j < |b| ==> b[j].Elem?
    ensures Asides(env, k, a + b) == Concat(Asides(env, k, a), Asides(env, k + |a|, b))
    decreases a
  {
    if a == [] {
      assert a + b == b;
      var r := Asides(env, k, b);
      if r.Ok? {
        assert [] + r.value == r.value;
      }
    } else {
      assert (a + b)[0] == a[0] && (a + b)[1..] == a[1..] + b;
      var fid := NoteId(env.secid, k + 1, a[0].attrs);
      if fid.Ok? {
        AsidesAppend(env, k + 1, a[1..], b);
        AsidesCongruent(env, k + 1 + |a[1..]|, k + |a|, b);
        ConsConcat(Aside(env, fid.value, a[0]), Asides(env, k + 1, a[1..]), Asides(env, k + |a|, b));
      }
    }
  }

  /** The `j`-th aside is the `j`-th footnote under the id numbered
      `k + j + 1` (or its own id). */
  lemma {:induction false} AsidesNumbered(env: Env, k: nat, ns: seq<Node>, j: nat)
    requires forall i :: 0 <= i < |ns| ==> ns[i].Elem?
    requires Asides(env, k, ns).Ok? && j < |ns|
    ensures NoteId(env.secid, k + j + 1, ns[j].attrs).Ok?
    ensures Asides(env, k, ns).value[j] == Aside(env, NoteId(env.secid, k + j + 1, ns[j].attrs).value, ns[j])
    decreases j
  {
    if j > 0 {
      assert ns[1..][j - 1] == ns[j];
      AsidesNumbered(env, k + 1, ns[1..], j - 1);
      assert k + 1 + (j - 1) + 1 == k + j + 1;
    }
  }

  /** The asides appended by `_transform`, or its error. */
  function Appended<T>(t: Result<(T, seq<Node>)>): Result<seq<Node>>
  {
    if t.Err? then Err(t.error) else Ok(t.value.1)
  }

  /** `_transform` appends exactly the asides of the body's footnotes, or
      fails with the error of the first of them whose id is unusable. */
  lemma {:induction false} BodyCollects(env: Env, k: nat, body: seq<Node>)
    ensures Appended(TransformBody(env, k, body)) == Asides(env, k, Notes(body))
    decreases BodyNoteSize(body), 1
  {
    if body != [] {
      var h := TransformNode(env, k, body[0]);
      NodeCollects(env, k, body[0]);
      if h.Err? {
        BodyCollectsErr(env, k, body);
      } else {
        BodyCollects(env, k + |h.value.1|, body[1..]);
        BodyCollectsStep(env, k, body, h.value, k + |h.value.1|);
      }
    }
  }

  lemma BodyCollectsErr(env: Env, k: nat, body: seq<Node>)
    requires body != [] && TransformNode(env, k, body[0]).Err?
    requires Appended(TransformNode(env, k, body[0])) == Asides(env, k, NotesOf(body[0]))
    ensures Appended(TransformBody(env, k, body)) == Asides(env, k, Notes(body))
  {
    var n0, n1 := NotesOf(body[0]), Notes(body[1..]);
    AsidesAppend(env, k, n0, n1);
  }

  lemma BodyCollectsStep(env: Env, k: nat, body: seq<Node>, h: (Node, seq<Node>), k2: nat)
    requires body != [] && TransformNode(env, k, body[0]) == Ok(h) && k2 == k + |h.1|
    requires Ok(h.1) == Asides(env, k, NotesOf(body[0]))
    requires Appended(TransformBody(env, k2, body[1..])) == Asides(env, k2, Notes(body[1..]))
    ensures Appended(TransformBody(env, k, body)) == Asides(env, k, Notes(body))
  {
    var n0, n1 := NotesOf(body[0]), Notes(body[1..]);
    var t := TransformBody(env, k2, body[1..]);
    AsidesAppend(env, k, n0, n1);
    HeadStep(env, k, body);
    AsidesCongruent(env, k2, k + |n0|, n1);
    AppendedGlue(h.0, h.1, t, Asides(env, k2, n1));
    assert Notes(body) == n0 + n1;
    assert Appended(TransformBody(env, k, body)) == Concat(Ok(h.1), Asides(env, k2, n1));
  }

  lemma AppendedGlue(x: Node, ns: seq<Node>, t: Result<(seq<Node>, seq<Node>)>, a: Result<seq<Node>>)
    requires Appended(t) == a
    ensures Appended(Glue([x], ns, t)) == Concat(Ok(ns), a)
  {
  }

  lemma {:induction false} NodeCollects(env: Env, k: nat, e: Node)
    ensures Appended(TransformNode(env, k, e)) == Asides(env, k, NotesOf(e))
    decreases NoteSize(e), 0
  {
    if e.Elem? {
      if !IsNoteTag(e.tag) {
        BodyCollects(env, k, e.body);
        PlainElem(env, k, e);
      } else {
        FootnoteCollects(env, k, e);
      }
    }
  }

  /** No footnote is left in what `_transform` returns. */
  lemma {:induction false} BodyClean(env: Env, k: nat, body: seq<Node>)
    requires TransformBody(env, k, body).Ok?
    ensures Notes(TransformBody(env, k, body).value.0) == []
    decreases BodyNoteSize(body), 1
  {
    if body != [] {
      var h := TransformNode(env, k, body[0]);
      var k2 := k + |h.value.1|;
      var t := TransformBody(env, k2, body[1..]);
      NodeClean(env, k, body[0]);
      BodyClean(env, k2, body[1..]);
      assert TransformBody(env, k, body).value.0 == [h.value.0] + t.value.0;
      NotesCons(h.value.0, t.value.0);
    }
  }

  lemma {:induction false} NodeClean(env: Env, k: nat, e: Node)
    requires TransformNode(env, k, e).Ok?
    ensures NotesOf(TransformNode(env, k, e).value.0) == []
    decreases NoteSize(e), 0
  {
    if e.Elem? {
      if !IsNoteTag(e.tag) {
        BodyClean(env, k, e.body);
        PlainElem(env, k, e);
      } else {
        FootnoteCollects(env, k, e);
      }
    }
  }

  /** An element that is not a footnote keeps its tag and attrs, and only
      its body is transformed. */
  lemma PlainElem(env: Env, k: nat, e: Node)
    requires e.Elem? && !IsNoteTag(e.tag)
    ensures var t := TransformBody(env, k, e.body);
      TransformNode(env, k, e) == (if t.Err? then Err(t.error) else Ok((Elem(e.tag, e.attrs, t.value.0), t.value.1)))
  {
    Congruent(env, k, k + |SplitNote(env, k, e).value.1|, e.body);
    var t := TransformBody(env, k, e.body);
    if t.Ok? {
      assert [] + t.value.1 == t.value.1;
    }
  }

  /** A footnote becomes one aside, and its reference holds no footnote. */
  lemma FootnoteCollects(env: Env, k: nat, e: Node)
    requires e.Elem? && IsNoteTag(e.tag)
    ensures Appended(TransformNode(env, k, e)) == Asides(env, k, [e])
    ensures TransformNode(env, k, e).Ok? ==> NotesOf(TransformNode(env, k, e).value.0) == []
  {
    var fid := NoteId(env.secid, k + 1, e.attrs);
    assert [e][1..] == [];
    if fid.Ok? {
      var x := NoteRef(env, fid.value, k + 1);
      var a := Aside(env, fid.value, e);
      assert SplitNote(env, k, e) == Ok((x, [a]));
      RefUnchanged(env, fid.value, k + 1, k + 1);
      NodeOk(env, k, e, x, [a], x.body, [], k + 1);
      assert [a] + [] == [a];
      assert Asides(env, k, [e]) == Cons(a, Ok([]));
    }
  }

  /** The body of a reference has nothing to transform. */
  lemma RefUnchanged(env: Env, fid: string, n: nat, k: nat)
    ensures var b := NoteRef(env, fid, n).body;
      TransformBody(env, k, b) == Ok((b, [])) && Notes(b) == []
  {
    var b := NoteRef(env, fid, n).body;
    assert b[1..] == [];
    NoNotesUnchanged(env, k, b);
  }

  /** A body without footnotes comes back as it was, with nothing appended. */
  lemma {:induction false} NoNotesUnchanged(env: Env, k: nat, body: seq<Node>)
    requires Notes(body) == []
    ensures TransformBody(env, k, body) == Ok((body, []))
    decreases BodyNoteSize(body), 1
  {
    if body != [] {
      NoNoteUnchanged(env, k, body[0]);
      NoNotesUnchanged(env, k, body[1..]);
      Congruent(env, k, k + |TransformNode(env, k, body[0]).value.1|, body[1..]);
      assert [body[0]] + body[1..] == body;
    }
  }

  lemma {:induction false} NoNoteUnchanged(env: Env, k: nat, e: Node)
    requires NotesOf(e) == []
    ensures TransformNode(env, k, e) == Ok((e, []))
    decreases NoteSize(e), 0
  {
    if e.Elem? {
      assert !IsNoteTag(e.tag);
      NoNotesUnchanged(env, k, e.body);
      PlainElem(env, k, e);
    }
  }

  /** Transforming what `_transform` returned changes nothing more. */
  lemma TransformIdempotent(env: Env, k: nat, m: nat, body: seq<Node>)
    requires TransformBody(env, k, body).Ok?
    ensures var b := TransformBody(env, k, body).value.0;
      TransformBody(env, m, b) == Ok((b, []))
  {
    BodyClean(env, k, body);
    NoNotesUnchanged(env, m, TransformBody(env, k, body).value.0);
  }

  /** One footnote alone becomes the reference `1`, and its body the aside
      of id `<secid>-fn1`. */
  lemma OneFootnote(secid: string, asideAttrs: WAttrs, aAttrs: WAttrs, a: WAttrs, b: seq<Node>)
    requires "id" !in a
    ensures var env := SectionEnv(secid, asideAttrs, aAttrs);
      var fid := secid + "-fn1";
      TransformBody(env, 0, [Elem(".footnote", a, b)]) ==
        Ok(([Elem("a", env.refAttrs(fid), [Text("1")])], [Elem("aside", env.asideAttrs(fid, a), b)]))
  {
    var env := SectionEnv(secid, asideAttrs, aAttrs);
    var e := Elem(".footnote", a, b);
    var fid := secid + "-fn1";
    FirstNoteId(secid, a);
    var x := NoteRef(env, fid, 1);
    var s := [Aside(env, fid, e)];
    OneNoteNode(env, e, fid);
    HeadStep(env, 0, [e]);
    assert [e][1..] == [];
    assert [x] + [] == [x] && s + [] == s;
  }

  lemma FirstNoteId(secid: string, a: WAttrs)
    requires "id" !in a
    ensures NoteId(secid, 1, a) == Ok(secid + "-fn1") && NatToString(1) == "1"
  {
    assert NatToString(1) == "1";
    assert "-fn" + "1" == "-fn1";
    assert secid + "-fn" + "1" == secid + "-fn1";
  }

  lemma OneNoteNode(env: Env, e: Node, fid: string)
    requires e.Elem? && IsNoteTag(e.tag) && NoteId(env.secid, 1, e.attrs) == Ok(fid)
    ensures TransformNode(env, 0, e) == Ok((NoteRef(env, fid, 1), [Aside(env, fid, e)]))
  {
    var x := NoteRef(env, fid, 1);
    var s := [Aside(env, fid, e)];
    assert SplitNote(env, 0, e) == Ok((x, s));
    RefUnchanged(env, fid, 1, 1);
    NodeOk(env, 0, e, x, s, x.body, [], 1);
    assert s + [] == s;
  }

  // ---------------------------------------------------------------------
  // Sections

  /** A section keeps its tag and attrs; its footnotes are numbered from 1
      (the counter restarts in every section) and their asides follow the
      transformed body, in a `section` of their own when there are any. */
  lemma SectionResult(sec: Node, asideAttrs: WAttrs, aAttrs: WAttrs, sectionAttrs: WAttrs)
    requires sec.Elem? && "id" in sec.attrs
    ensures var env := SectionEnv(AttrText(sec.attrs["id"]), asideAttrs, aAttrs);
      var notes := Asides(env, 0, Notes(sec.body));
      var r := EndnotifySection(sec, asideAttrs, aAttrs, sectionAttrs);
      (notes.Err? ==> r == Err(notes.error)) &&
      (notes.Ok? ==> TransformBody(env, 0, sec.body).Ok? && r == Ok(Elem(sec.tag, sec.attrs,
        TransformBody(env, 0, sec.body).value.0 + EndnotesSection(sectionAttrs, notes.value))))
  {
    BodyCollects(SectionEnv(AttrText(sec.attrs["id"]), asideAttrs, aAttrs), 0, sec.body);
  }

  /** The endnotes section is appended exactly when the section has a
      footnote. */
  lemma SectionGrows(sec: Node, asideAttrs: WAttrs, aAttrs: WAttrs, sectionAttrs: WAttrs)
    requires EndnotifySection(sec, asideAttrs, aAttrs, sectionAttrs).Ok?
    ensures var env := SectionEnv(AttrText(sec.attrs["id"]), asideAttrs, aAttrs);
      var r := EndnotifySection(sec, asideAttrs, aAttrs, sectionAttrs).value;
      |r.body| == |TransformBody(env, 0, sec.body).value.0| + (if Notes(sec.body) == [] then 0 else 1)
  {
    SectionResult(sec, asideAttrs, aAttrs, sectionAttrs);
    if Notes(sec.body) == [] {
      var env := SectionEnv(AttrText(sec.attrs["id"]), asideAttrs, aAttrs);
      var t := TransformBody(env, 0, sec.body).value.0;
      assert t + [] == t;
    }
  }

  // ---------------------------------------------------------------------
  // Which reference replaces which footnote

  /** Every footnote of `ns` has a usable id. */
  predicate AllUsable(ns: seq<Node>)
  {
    forall j :: 0 <= j < |ns| ==> ns[j].Elem? && IdUsable(ns[j].attrs)
  }

  /** The references the footnotes `ns` become, numbered from `k + 1`. */
  function Refs(env: Env, k: nat, ns: seq<Node>): (r: seq<Node>)
    requires AllUsable(ns)
    ensures |r| == |ns|
  {
    seq(|ns|, j requires 0 <= j < |ns| => NoteRef(env, NoteId(env.secid, k + j + 1, ns[j].attrs).value, k + j + 1))
  }

  lemma RefAt(env: Env, k: nat, ns: seq<Node>, j: nat)
    requires AllUsable(ns) && j < |ns|
    ensures Refs(env, k, ns)[j] == NoteRef(env, NoteId(env.secid, k + j + 1, ns[j].attrs).value, k + j + 1)
  {
  }

  lemma RefsAppend(env: Env, k: nat, a: seq<Node>, b: seq<Node>)
    requires AllUsable(a) && AllUsable(b)
    ensures AllUsable(a + b)
    ensures Refs(env, k, a + b)[..|a|] == Refs(env, k, a)
    ensures Refs(env, k, a + b)[|a|..] == Refs(env, k + |a|, b)
  {
    var r := Refs(env, k, a + b);
    assert forall j :: |a| <= j < |a + b| ==> (a + b)[j] == b[j - |a|] && k + j + 1 == k + |a| + (j - |a|) + 1;
    assert forall j :: 0 <= j < |a| ==> (a + b)[j] == a[j];
  }

  /** `body` with its `j`-th footnote (in the order of `Notes`) replaced by
      `rs[j]`. */
  function Subst(body: seq<Node>, rs: seq<Node>): (r: seq<Node>)
    requires |rs| == |Notes(body)|
    ensures |r| == |body|
    decreases body
  {
    if body == [] then []
    else
      var n := |NotesOf(body[0])|;
      [SubstOf(body[0], rs[..n])] + Subst(body[1..], rs[n..])
  }

  lemma SubstCons(body: seq<Node>, rs: seq<Node>)
    requires body != [] && |rs| == |Notes(body)|
    ensures |NotesOf(body[0])| <= |rs|
    ensures Subst(body, rs) == [SubstOf(body[0], rs[..|NotesOf(body[0])|])] + Subst(body[1..], rs[|NotesOf(body[0])|..])
  {
  }

  function SubstOf(e: Node, rs: seq<Node>): Node
    requires |rs| == |NotesOf(e)|
    decreases e
  {
    match e
    case Text(_) => e
    case Elem(t, a, b) => if IsNoteTag(t) then rs[0] else Elem(t, a, Subst(b, rs))
  }

  /** `_transform` replaces the `j`-th footnote by the reference numbered
      `k + j + 1`, leaving everything else in place. */
  lemma {:induction false} BodySubst(env: Env, k: nat, body: seq<Node>)
    requires TransformBody(env, k, body).Ok?
    ensures AllUsable(Notes(body))
    ensures TransformBody(env, k, body).value.0 == Subst(body, Refs(env, k, Notes(body)))
    decreases BodyNoteSize(body), 1
  {
    if body != [] {
      NodeCollects(env, k, body[0]);
      var k2 := BodySubstHead(env, k, body);
      NodeSubst(env, k, body[0]);
      BodySubst(env, k2, body[1..]);
      BodySubstStep(env, k, body);
    }
  }

  lemma BodySubstHead(env: Env, k: nat, body: seq<Node>) returns (k2: nat)
    requires body != [] && TransformBody(env, k, body).Ok?
    requires Appended(TransformNode(env, k, body[0])) == Asides(env, k, NotesOf(body[0]))
    ensures TransformNode(env, k, body[0]).Ok?
    ensures k2 == k + |NotesOf(body[0])| == k + |TransformNode(env, k, body[0]).value.1|
    ensures TransformBody(env, k2, body[1..]).Ok?
  {
    k2 := k + |NotesOf(body[0])|;
    assert TransformNode(env, k, body[0]).Ok?;
    HeadStep(env, k, body);
  }

  lemma BodySubstStep(env: Env, k: nat, body: seq<Node>)
    requires body != [] && TransformBody(env, k, body).Ok? && TransformNode(env, k, body[0]).Ok?
    requires AllUsable(NotesOf(body[0]))
    requires TransformNode(env, k, body[0]).value.0 == SubstOf(body[0], Refs(env, k, NotesOf(body[0])))
    requires var k2 := k + |NotesOf(body[0])|;
      k2 == k + |TransformNode(env, k, body[0]).value.1| &&
      TransformBody(env, k2, body[1..]).Ok? && AllUsable(Notes(body[1..])) &&
      TransformBody(env, k2, body[1..]).value.0 == Subst(body[1..], Refs(env, k2, Notes(body[1..])))
    ensures AllUsable(Notes(body))
    ensures TransformBody(env, k, body).value.0 == Subst(body, Refs(env, k, Notes(body)))
  {
    var h := TransformNode(env, k, body[0]).value;
    var n0, n1 := NotesOf(body[0]), Notes(body[1..]);
    var k2 := k + |n0|;
    HeadStep(env, k, body);
    var t := TransformBody(env, k2, body[1..]);
    assert TransformBody(env, k, body).value.0 == [h.0] + t.value.0;
    RefsAppend(env, k, n0, n1);
    SubstCons(body, Refs(env, k, Notes(body)));
  }

  lemma {:induction false} NodeSubst(env: Env, k: nat, e: Node)
    requires TransformNode(env, k, e).Ok?
    ensures AllUsable(NotesOf(e))
    ensures TransformNode(env, k, e).value.0 == SubstOf(e, Refs(env, k, NotesOf(e)))
    decreases NoteSize(e), 0
  {
    if e.Elem? {
      if !IsNoteTag(e.tag) {
        PlainElem(env, k, e);
        BodySubst(env, k, e.body);
      } else {
        var fid := NoteId(env.secid, k + 1, e.attrs);
        assert fid.Ok?;
        var x := NoteRef(env, fid.value, k + 1);
        var a := Aside(env, fid.value, e);
        assert SplitNote(env, k, e) == Ok((x, [a]));
        RefUnchanged(env, fid.value, k + 1, k + 1);
        NodeOk(env, k, e, x, [a], x.body, [], k + 1);
        assert Refs(env, k, [e])[0] == x;
      }
    }
  }

  /** The `n`-th note reference `r` and the aside `a` it points to. */
  predicate Paired(r: Node, a: Node, n: nat)
  {
    r.Elem? && a.Elem? && r.tag == "a" && r.body == [Text(NatToString(n))] && a.tag == "aside" &&
    "href" in r.attrs && "id" in a.attrs && a.attrs["id"].Str? && r.attrs["href"] == Str("#" + a.attrs["id"].s)
  }

  lemma RefPaired(env: Env, asideAttrs: WAttrs, aAttrs: WAttrs, k: nat, ns: seq<Node>, j: nat)
    requires env == SectionEnv(env.secid, asideAttrs, aAttrs)
    requires AllUsable(ns) && Asides(env, k, ns).Ok? && j < |ns|
    ensures Paired(Refs(env, k, ns)[j], Asides(env, k, ns).value[j], k + j + 1)
    ensures Asides(env, k, ns).value[j].body == ns[j].body
  {
    var fid := NoteId(env.secid, k + j + 1, ns[j].attrs).value;
    AsidesNumbered(env, k, ns, j);
    var r, a := Refs(env, k, ns)[j], Asides(env, k, ns).value[j];
    RefAt(env, k, ns, j);
    assert a == Aside(env, fid, ns[j]);
    AsideHasId(env.secid, asideAttrs, aAttrs, fid, ns[j].attrs);
    RefLinksTo(env.secid, asideAttrs, aAttrs, fid);
  }

  /** The `j`-th reference is paired with the `j`-th aside, which holds the
      `j`-th footnote's body. */
  predicate AllPaired(refs: seq<Node>, asides: seq<Node>, ns: seq<Node>)
  {
    |refs| == |asides| == |ns| &&
    forall j :: 0 <= j < |ns| ==> Paired(refs[j], asides[j], j + 1) && ns[j].Elem? && asides[j].body == ns[j].body
  }

  lemma {:induction false} RefsPaired(env: Env, asideAttrs: WAttrs, aAttrs: WAttrs, ns: seq<Node>)
    requires env == SectionEnv(env.secid, asideAttrs, aAttrs)
    requires AllUsable(ns) && Asides(env, 0, ns).Ok?
    ensures AllPaired(Refs(env, 0, ns), Asides(env, 0, ns).value, ns)
  {
    forall j | 0 <= j < |ns|
      ensures Paired(Refs(env, 0, ns)[j], Asides(env, 0, ns).value[j], j + 1) && Asides(env, 0, ns).value[j].body == ns[j].body
    {
      RefPaired(env, asideAttrs, aAttrs, 0, ns, j);
    }
  }

  /** In a section, the footnotes are replaced by note references, and the
      `j`-th of them (the ordinal `j + 1`) links to `#` + the id of the
      `j`-th aside of the endnotes section, which holds the `j`-th
      footnote's body. */
  lemma NoterefsPairAsides(sec: Node, asideAttrs: WAttrs, aAttrs: WAttrs, sectionAttrs: WAttrs)
    returns (refs: seq<Node>, asides: seq<Node>)
    requires EndnotifySection(sec, asideAttrs, aAttrs, sectionAttrs).Ok?
    ensures AllPaired(refs, asides, Notes(sec.body))
    ensures EndnotifySection(sec, asideAttrs, aAttrs, sectionAttrs).value.body ==
      Subst(sec.body, refs) + EndnotesSection(sectionAttrs, asides)
  {
    var env := SectionEnv(AttrText(sec.attrs["id"]), asideAttrs, aAttrs);
    var ns := Notes(sec.body);
    SectionResult(sec, asideAttrs, aAttrs, sectionAttrs);
    BodyCollects(env, 0, sec.body);
    BodySubst(env, 0, sec.body);
    refs, asides := Refs(env, 0, ns), Asides(env, 0, ns).value;
    RefsPaired(env, asideAttrs, aAttrs, ns);
  }

  /** `endnotify` maps every section on its own: it fails when one of them
      does, and otherwise has one result per section, in order. */
  lemma {:induction false} EndnotifyMaps(body: seq<Node>, asideAttrs: WAttrs, aAttrs: WAttrs, sectionAttrs: WAttrs)
    ensures var r := EndnotifyAll(body, asideAttrs, aAttrs, sectionAttrs);
      (r.Ok? <==> forall i :: 0 <= i < |body| ==> EndnotifySection(body[i], asideAttrs, aAttrs, sectionAttrs).Ok?) &&
      (r.Ok? ==> |r.value| == |body|) &&
      (r.Ok? ==> forall i :: 0 <= i < |body| ==> r.value[i] == EndnotifySection(body[i], asideAttrs, aAttrs, sectionAttrs).value)
    decreases body
  {
    if body != [] {
      EndnotifyMaps(body[1..], asideAttrs, aAttrs, sectionAttrs);
      assert forall i :: 1 <= i < |body| ==> body[i] == body[1..][i - 1];
    }
  }

  // ---------------------------------------------------------------------
  // The transformation, as the source runs it

  /** The cells `split_footnote` closes over: `counter` and `endnotes`. */
  class NoteState {
    const env: Env
    var counter: nat
    var endnotes: seq<Node>

    constructor (env: Env)
      ensures this.env == env && counter == 0 && endnotes == []
    {
      this.env := env;
      counter := 0;
      endnotes := [];
    }

    /** `split_footnote(e)`. The source appends the aside before `'#' + fid`
        fails; the state after a failure is not described, as the exception
        ends `endnotify`. */
    method SplitFootnote(e: Node) returns (r: Result<Node>)
      requires e.Elem?
      modifies this
      ensures var s := SplitNote(env, old(counter), e);
        r == (if s.Err? then Err(s.error) else Ok(s.value.0)) &&
        (s.Ok? ==> counter == old(counter) + |s.value.1| && endnotes == old(endnotes) + s.value.1)
    {
      if e.tag != ".footnote" {
        return Ok(e);
      }
      counter := counter + 1;
      var ordinal := [Text(NatToString(counter))];
      var fid := NoteId(env.secid, counter, e.attrs);
      if fid.Err? {
        return Err(fid.error);
      }
      endnotes := endnotes + [Elem("aside", env.asideAttrs(fid.value, e.attrs), e.body)];
      r := Ok(Elem("a", env.refAttrs(fid.value), ordinal));
    }

    /** `_transform(split_footnote, body)`. */
    method Transform(body: seq<Node>) returns (r: Result<seq<Node>>)
      modifies this
      ensures var t := TransformBody(env, old(counter), body);
        r == (if t.Err? then Err(t.error) else Ok(t.value.0)) &&
        (t.Ok? ==> counter == old(counter) + |t.value.1| && endnotes == old(endnotes) + t.value.1)
      decreases BodyNoteSize(body), 1
    {
      ghost var k0 := counter;
      ghost var e0 := endnotes;
      ghost var added: seq<Node> := [];
      var res: seq<Node> := [];
      var i := 0;
      GlueNothing(TransformBody(env, counter, body));
      assert body[0..] == body;
      while i < |body|
        invariant i <= |body|
        invariant endnotes == e0 + added && counter == k0 + |added|
        invariant TransformBody(env, k0, body) == Glue(res, added, TransformBody(env, counter, body[i..]))
      {
        var e := body[i];
        ghost var c := counter;
        ghost var ec := endnotes;
        var y := e;
        if e.Text? {
          TextNode(env, c, e);
        } else {
          ItemSmaller(body, i);
          var x := TransformItem(e);
          if x.Err? {
            LoopErr(env, k0, body, i, res, added, c);
            return Err(x.error);
          }
          y := x.value;
        }
        ghost var ns := TransformNode(env, c, e).value.1;
        LoopStep(env, k0, body, i, res, added, c, y, ns, counter);
        Appends(e0, added, ns, ec, endnotes);
        res := res + [y];
        added := added + ns;
        i := i + 1;
      }
      Finish(env, k0, body, res, added, counter);
      r := Ok(res);
    }

    /** One element of the loop of `_transform`: `f(e)`, and `_transform`
        of the body of what comes back. */
    method TransformItem(e: Node) returns (r: Result<Node>)
      requires e.Elem?
      modifies this
      ensures var t := TransformNode(env, old(counter), e);
        r == (if t.Err? then Err(t.error) else Ok(t.value.0)) &&
        (t.Ok? ==> counter == old(counter) + |t.value.1| && endnotes == old(endnotes) + t.value.1)
      decreases NoteSize(e), 0
    {
      ghost var c := counter;
      var x := SplitFootnote(e);
      if x.Err? {
        return Err(x.error);
      }
      ghost var s := SplitNote(env, c, e).value.1;
      ghost var mid := counter;
      ghost var em := endnotes;
      var bb := Transform(x.value.body);
      ghost var tb := TransformBody(env, mid, x.value.body);
      if bb.Err? {
        NodeErr(env, c, e, mid);
        return Err(bb.error);
      }
      NodeOk(env, c, e, x.value, s, bb.value, tb.value.1, mid);
      assert endnotes == old(endnotes) + (s + tb.value.1) by {
        assert endnotes == em + tb.value.1 && em == old(endnotes) + s;
      }
      r := Ok(Elem(x.value.tag, x.value.attrs, bb.value));
    }
  }

  /** `res` and the asides found so far, in front of what the rest yields. */
  function Glue(res: seq<Node>, added: seq<Node>, t: Result<(seq<Node>, seq<Node>)>): Result<(seq<Node>, seq<Node>)>
  {
    if t.Err? then t else Ok((res + t.value.0, added + t.value.1))
  }

  lemma GlueNothing(t: Result<(seq<Node>, seq<Node>)>)
    ensures Glue([], [], t) == t
  {
    if t.Ok? {
      assert [] + t.value.0 == t.value.0 && [] + t.value.1 == t.value.1;
    }
  }

  lemma GlueAssoc(res: seq<Node>, added: seq<Node>, x: Node, ns: seq<Node>, t: Result<(seq<Node>, seq<Node>)>)
    ensures Glue(res, added, Glue([x], ns, t)) == Glue(res + [x], added + ns, t)
  {
    if t.Ok? {
      assert res + ([x] + t.value.0) == (res + [x]) + t.value.0;
      assert added + (ns + t.value.1) == (added + ns) + t.value.1;
    }
  }

  lemma Finish(env: Env, k0: nat, body: seq<Node>, res: seq<Node>, added: seq<Node>, k: nat)
    requires TransformBody(env, k0, body) == Glue(res, added, TransformBody(env, k, body[|body|..]))
    ensures TransformBody(env, k0, body) == Ok((res, added))
  {
    assert body[|body|..] == [];
    assert res + [] == res && added + [] == added;
  }

  lemma BodyStep(env: Env, k: nat, body: seq<Node>, i: nat)
    requires i < |body| && TransformNode(env, k, body[i]).Ok?
    ensures var h := TransformNode(env, k, body[i]).value;
      TransformBody(env, k, body[i..]) == Glue([h.0], h.1, TransformBody(env, k + |h.1|, body[i + 1..]))
  {
    assert body[i..][0] == body[i] && body[i..][1..] == body[i + 1..];
  }

  lemma HeadStep(env: Env, k: nat, body: seq<Node>)
    requires body != [] && TransformNode(env, k, body[0]).Ok?
    ensures var h := TransformNode(env, k, body[0]).value;
      TransformBody(env, k, body) == Glue([h.0], h.1, TransformBody(env, k + |h.1|, body[1..]))
  {
  }

  lemma BodyStepErr(env: Env, k: nat, body: seq<Node>, i: nat)
    requires i < |body| && TransformNode(env, k, body[i]).Err?
    ensures TransformBody(env, k, body[i..]) == Err(TransformNode(env, k, body[i]).error)
  {
    assert body[i..][0] == body[i];
  }

  lemma TextNode(env: Env, k: nat, e: Node)
    requires e.Text?
    ensures TransformNode(env, k, e) == Ok((e, []))
  {
  }

  /** The loop of `_transform` after an item that becomes `y` and appends
      `ns`. */
  lemma LoopStep(env: Env, k0: nat, body: seq<Node>, i: nat, res: seq<Node>, added: seq<Node>, k: nat,
                 y: Node, ns: seq<Node>, k2: nat)
    requires i < |body| && TransformNode(env, k, body[i]) == Ok((y, ns)) && k2 == k + |ns|
    requires TransformBody(env, k0, body) == Glue(res, added, TransformBody(env, k, body[i..]))
    ensures TransformBody(env, k0, body) == Glue(res + [y], added + ns, TransformBody(env, k2, body[i + 1..]))
  {
    ItemStep(env, k, body, i, y, ns, k2);
    GlueAssoc(res, added, y, ns, TransformBody(env, k2, body[i + 1..]));
  }

  lemma Appends(e0: seq<Node>, added: seq<Node>, ns: seq<Node>, ec: seq<Node>, en: seq<Node>)
    requires ec == e0 + added && en == ec + ns
    ensures en == e0 + (added + ns)
  {
  }

  /** The loop of `_transform` at an item that fails. */
  lemma LoopErr(env: Env, k0: nat, body: seq<Node>, i: nat, res: seq<Node>, added: seq<Node>, k: nat)
    requires i < |body| && TransformNode(env, k, body[i]).Err?
    requires TransformBody(env, k0, body) == Glue(res, added, TransformBody(env, k, body[i..]))
    ensures TransformBody(env, k0, body) == Err(TransformNode(env, k, body[i]).error)
  {
    BodyStepErr(env, k, body, i);
  }

  /** An item of `body` that becomes `y`, appending `ns`; the rest is
      transformed from `k2`. */
  lemma ItemStep(env: Env, k: nat, body: seq<Node>, i: nat, y: Node, ns: seq<Node>, k2: nat)
    requires i < |body| && TransformNode(env, k, body[i]) == Ok((y, ns))
    requires k2 == k + |ns|
    ensures TransformBody(env, k, body[i..]) == Glue([y], ns, TransformBody(env, k2, body[i + 1..]))
  {
    BodyStep(env, k, body, i);
    Congruent(env, k + |ns|, k2, body[i + 1..]);
  }

  /** An element whose split's body, transformed from `k1`, fails. */
  lemma NodeErr(env: Env, k: nat, e: Node, k1: nat)
    requires e.Elem? && SplitNote(env, k, e).Ok?
    requires k1 == k + |SplitNote(env, k, e).value.1|
    requires TransformBody(env, k1, SplitNote(env, k, e).value.0.body).Err?
    ensures TransformNode(env, k, e) == Err(TransformBody(env, k1, SplitNote(env, k, e).value.0.body).error)
  {
    var s := SplitNote(env, k, e).value;
    Congruent(env, k1, k + |s.1|, s.0.body);
  }

  /** An element split into `x` and `s`, with `x`'s body transformed, from
      `k1`, into `bb` and `t`. */
  lemma NodeOk(env: Env, k: nat, e: Node, x: Node, s: seq<Node>, bb: seq<Node>, t: seq<Node>, k1: nat)
    requires e.Elem?
    requires SplitNote(env, k, e) == Ok((x, s))
    requires k1 == k + |s|
    requires TransformBody(env, k1, x.body) == Ok((bb, t))
    ensures TransformNode(env, k, e) == Ok((Elem(x.tag, x.attrs, bb), s + t))
  {
    Congruent(env, k1, k + |s|, x.body);
  }

  lemma Congruent(env: Env, a: nat, b: nat, body: seq<Node>)
    requires a == b
    ensures TransformBody(env, a, body) == TransformBody(env, b, body)
  {
  }

  /** `endnotify(body, aside_attrs, a_attrs, section_attrs)`: a fresh
      counter and endnotes list per section. */
  method Endnotify(body: seq<Node>, asideAttrs: WAttrs, aAttrs: WAttrs, sectionAttrs: WAttrs) returns (r: Result<seq<Node>>)
    ensures r == EndnotifyAll(body, asideAttrs, aAttrs, sectionAttrs)
  {
    var ans: seq<Node> := [];
    var i := 0;
    PrependNothing(EndnotifyAll(body, asideAttrs, aAttrs, sectionAttrs));
    assert body[0..] == body;
    while i < |body|
      invariant i <= |body|
      invariant EndnotifyAll(body, asideAttrs, aAttrs, sectionAttrs) == Prepend(ans, EndnotifyAll(body[i..], asideAttrs, aAttrs, sectionAttrs))
    {
      SectionStep(body, i, asideAttrs, aAttrs, sectionAttrs);
      var sec := EndnotifyOne(body[i], asideAttrs, aAttrs, sectionAttrs);
      if sec.Err? {
        return Err(sec.error);
      }
      PrependCons(ans, sec.value, EndnotifyAll(body[i + 1..], asideAttrs, aAttrs, sectionAttrs));
      ans := ans + [sec.value];
      i := i + 1;
    }
    assert body[i..] == [];
    assert ans + [] == ans;
    r := Ok(ans);
  }

  /** One pass of the loop of `endnotify`: a section, its footnotes moved
      into a trailing `section` of asides. */
  method EndnotifyOne(section: Node, asideAttrs: WAttrs, aAttrs: WAttrs, sectionAttrs: WAttrs) returns (r: Result<Node>)
    ensures r == EndnotifySection(section, asideAttrs, aAttrs, sectionAttrs)
  {
    if section.Text? {
      return Err(if |section.text| == 3 then "TypeError" else "ValueError");
    }
    if "id" !in section.attrs {
      return Err("KeyError");
    }
    var secid := AttrText(section.attrs["id"]);
    var st := new NoteState(SectionEnv(secid, asideAttrs, aAttrs));
    var b := st.Transform(section.body);
    if b.Err? {
      return Err(b.error);
    }
    ghost var t := TransformBody(SectionEnv(secid, asideAttrs, aAttrs), 0, section.body).value;
    assert b.value == t.0 && st.endnotes == [] + t.1 == t.1;
    var nb := b.value;
    if |st.endnotes| > 0 {
      nb := nb + [Elem("section", sectionAttrs, st.endnotes)];
    }
    SectionDone(section, asideAttrs, aAttrs, sectionAttrs, t);
    r := Ok(Elem(section.tag, section.attrs, nb));
  }

  function Prepend(ans: seq<Node>, t: Result<seq<Node>>): Result<seq<Node>>
  {
    if t.Err? then t else Ok(ans + t.value)
  }

  lemma SectionDone(sec: Node, asideAttrs: WAttrs, aAttrs: WAttrs, sectionAttrs: WAttrs, t: (seq<Node>, seq<Node>))
    requires sec.Elem? && "id" in sec.attrs
    requires TransformBody(SectionEnv(AttrText(sec.attrs["id"]), asideAttrs, aAttrs), 0, sec.body) == Ok(t)
    ensures EndnotifySection(sec, asideAttrs, aAttrs, sectionAttrs) ==
      Ok(Elem(sec.tag, sec.attrs, if |t.1| > 0 then t.0 + [Elem("section", sectionAttrs, t.1)] else t.0))
  {
    if t.1 == [] {
      assert t.0 + [] == t.0;
    }
  }

  lemma PrependNothing(t: Result<seq<Node>>)
    ensures Prepend([], t) == t
  {
    if t.Ok? {
      assert [] + t.value == t.value;
    }
  }

  lemma PrependCons(ans: seq<Node>, x: Node, t: Result<seq<Node>>)
    ensures Prepend(ans, Cons(x, t)) == Prepend(ans + [x], t)
  {
    if t.Ok? {
      assert ans + ([x] + t.value) == (ans + [x]) + t.value;
    }
  }

  lemma SectionStep(body: seq<Node>, i: nat, asideAttrs: WAttrs, aAttrs: WAttrs, sectionAttrs: WAttrs)
    requires i < |body|
    ensures var s := EndnotifySection(body[i], asideAttrs, aAttrs, sectionAttrs);
      EndnotifyAll(body[i..], asideAttrs, aAttrs, sectionAttrs) ==
      (if s.Err? then Err(s.error) else Cons(s.value, EndnotifyAll(body[i + 1..], asideAttrs, aAttrs, sectionAttrs)))
  {
    assert body[i..][0] == body[i] && body[i..][1..] == body[i + 1..];
  }
}
