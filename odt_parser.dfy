/** The pure and loop-based helpers of odt_parser.py: the relative depths of
    list levels, the table-body rewriting that spots header rows and header
    columns, the parse context's list-level bump, and the immutability and
    value checks of `Sty`. */
module OdtParser {
  import opened Wrappers
  import opened PyStr
  import opened Internal
  import Postprocess

  // ---------------------------------------------------------------------
  // Sty._rel_depths

  predicate SortedInts(xs: seq<int>)
  {
    forall i, j :: 0 <= i < j < |xs| ==> xs[i] <= xs[j]
  }

  function InsertInt(x: int, xs: seq<int>): seq<int>
  {
    if xs == [] then [x]
    else if x <= xs[0] then [x] + xs
    else [xs[0]] + InsertInt(x, xs[1..])
  }

  /** Inserting into a sorted sequence keeps it sorted and adds `x`. */
  lemma {:induction false} InsertIntSorted(x: int, xs: seq<int>)
    requires SortedInts(xs)
    ensures forall y :: y in InsertInt(x, xs) <==> y == x || y in xs
    ensures SortedInts(InsertInt(x, xs)) && multiset(InsertInt(x, xs)) == multiset(xs) + multiset{x}
    decreases |xs|
  {
    if xs != [] && x > xs[0] {
      var t := InsertInt(x, xs[1..]);
      assert xs == [xs[0]] + xs[1..];
      SortedTail(xs);
      InsertIntSorted(x, xs[1..]);
      assert forall y :: y in t ==> xs[0] <= y;
      SortedCons(xs[0], t);
    } else if xs != [] {
      SortedCons(x, xs);
    }
  }

  lemma {:induction false} SortedTail(xs: seq<int>)
    requires SortedInts(xs) && xs != []
    ensures SortedInts(xs[1..]) && forall y :: y in xs[1..] ==> xs[0] <= y
  {
    forall y | y in xs[1..] ensures xs[0] <= y {
      var k :| 0 <= k < |xs[1..]| && xs[1..][k] == y;
      assert xs[k + 1] == y;
    }
  }

  lemma {:induction false} SortedCons(h: int, t: seq<int>)
    requires SortedInts(t) && forall y :: y in t ==> h <= y
    ensures SortedInts([h] + t)
  {
    var r := [h] + t;
    forall i, j | 0 <= i < j < |r| ensures r[i] <= r[j] {
      assert r[j] == t[j - 1];
      if i > 0 { assert r[i] == t[i - 1]; } else { assert t[j - 1] in t; }
    }
  }

  /** `sorted(levels)`. */
  function SortInts(xs: seq<int>): seq<int>
  {
    if xs == [] then [] else InsertInt(xs[0], SortInts(xs[1..]))
  }

  /** `sorted` returns the same levels in ascending order. */
  lemma {:induction false} SortIntsSorted(xs: seq<int>)
    ensures forall y :: y in SortInts(xs) <==> y in xs
    ensures SortedInts(SortInts(xs)) && multiset(SortInts(xs)) == multiset(xs)
    decreases |xs|
  {
    if xs != [] {
      SortIntsSorted(xs[1..]);
      InsertIntSorted(xs[0], SortInts(xs[1..]));
      assert xs == [xs[0]] + xs[1..];
    }
  }

  /** The depths `_rel_depths` has assigned after visiting the sorted
      levels `ls` from left to right. */
  function DepthsOf(ls: seq<int>): (d: map<int, nat>)
    ensures ls != [] ==> ls[|ls| - 1] in d
    decreases |ls|
  {
    if ls == [] then map[]
    else if |ls| == 1 then map[ls[0] := 0]
    else
      var d := DepthsOf(ls[..|ls| - 1]);
      var p, x := ls[|ls| - 2], ls[|ls| - 1];
      Visit(d, p, x)
  }

  /** One step of the walk: `x` follows `p`, whose depth is known. */
  function Visit(d: map<int, nat>, p: int, x: int): (r: map<int, nat>)
    requires p in d
    ensures x in r
  {
    d[x := if x == p + 1 then d[p] + 1 else 0]
  }

  /** The visited levels are exactly the keys. */
  lemma {:induction false} DepthsOfKeys(ls: seq<int>)
    ensures forall x :: x in DepthsOf(ls) <==> x in ls
    decreases |ls|
  {
    if |ls| >= 2 {
      var init := ls[..|ls| - 1];
      DepthsOfKeys(init);
      assert ls == init + [ls[|ls| - 1]];
    }
  }

  /** `Sty._rel_depths(levels)`: walk the sorted levels and give each the
      depth of its predecessor plus one when it follows it directly, and 0
      otherwise. */
  method RelDepths(levels: seq<int>) returns (depths: map<int, nat>)
    ensures depths == DepthsOf(SortInts(levels))
  {
    var ls := SortInts(levels);
    if levels == [] {
      return map[];
    }
    depths := map[ls[0] := 0];
    assert ls[..1] == [ls[0]];
    var i := 0;
    while i + 1 < |ls|
      invariant 0 <= i < |ls|
      invariant depths == DepthsOf(ls[..i + 1])
    {
      RelDepthsStep(ls, i);
      depths := depths[ls[i + 1] := if ls[i + 1] == ls[i] + 1 then depths[ls[i]] + 1 else 0];
      i := i + 1;
    }
    assert ls[..i + 1] == ls;
  }

  lemma RelDepthsStep(ls: seq<int>, i: nat)
    requires i + 1 < |ls|
    ensures ls[i] in DepthsOf(ls[..i + 1])
    ensures DepthsOf(ls[..i + 2]) == var d := DepthsOf(ls[..i + 1]);
      Visit(d, ls[i], ls[i + 1])
  {
    assert ls[..i + 1][i] == ls[i];
    DepthsOfSnoc(ls[..i + 1], ls[i + 1]);
    assert ls[..i + 1] + [ls[i + 1]] == ls[..i + 2];
  }

  /** `_rel_depths` gives a depth to every level and to nothing else; no
      levels give `{}`. */
  lemma RelDepthsKeys(levels: seq<int>)
    ensures forall x :: x in DepthsOf(SortInts(levels)) <==> x in levels
    ensures levels == [] ==> DepthsOf(SortInts(levels)) == map[]
  {
    SortIntsSorted(levels);
    DepthsOfKeys(SortInts(levels));
  }

  /** One more level visited. */
  lemma {:induction false} DepthsOfSnoc(a: seq<int>, x: int)
    requires a != []
    ensures DepthsOf(a + [x]) ==
      Visit(DepthsOf(a), a[|a| - 1], x)
  {
    var ls := a + [x];
    assert ls[..|ls| - 1] == a;
    assert ls[|ls| - 2] == a[|a| - 1] && ls[|ls| - 1] == x;
  }

  /** Two sorted arrangements of the same levels are the same sequence, so
      `sorted` is characterised by its result being sorted. */
  lemma {:induction false} SortedUnique(a: seq<int>, b: seq<int>)
    requires SortedInts(a) && SortedInts(b) && multiset(a) == multiset(b)
    ensures a == b
    decreases |a|
  {
    if a != [] {
      assert |b| == |multiset(b)| == |a|;
      SortedHeads(a, b);
      SortedTail(a);
      SortedTail(b);
      SortedUnique(a[1..], b[1..]);
      assert a == [a[0]] + a[1..] && b == [b[0]] + b[1..];
    }
  }

  /** Two sorted arrangements of the same levels start alike and go on with
      the same levels. */
  lemma SortedHeads(a: seq<int>, b: seq<int>)
    requires SortedInts(a) && SortedInts(b) && multiset(a) == multiset(b) && a != [] && b != []
    ensures a[0] == b[0] && multiset(a[1..]) == multiset(b[1..])
  {
    assert a[0] in multiset(b) && b[0] in multiset(a);
    SortedMin(a, b[0]);
    SortedMin(b, a[0]);
    MultisetTail(a, b);
  }

  lemma SortedMin(a: seq<int>, y: int)
    requires SortedInts(a) && y in a
    ensures a[0] <= y
  {
    var k :| 0 <= k < |a| && a[k] == y;
    if k > 0 { assert a[0] <= a[k]; }
  }

  lemma MultisetTail(a: seq<int>, b: seq<int>)
    requires a != [] && b != [] && a[0] == b[0] && multiset(a) == multiset(b)
    ensures multiset(a[1..]) == multiset(b[1..])
  {
    var ta, tb := a[1..], b[1..];
    assert a == [a[0]] + ta && b == [b[0]] + tb;
    assert multiset(a) == multiset{a[0]} + multiset(ta);
    assert multiset(b) == multiset{a[0]} + multiset(tb);
    forall x ensures multiset(ta)[x] == multiset(tb)[x] {
      assert multiset(a)[x] == multiset(b)[x];
    }
    assert multiset(ta) == multiset(tb);
  }

  /** No level occurs twice. */
  ghost predicate DistinctLevels(xs: seq<int>)
  {
    forall x :: multiset(xs)[x] <= 1
  }

  /** The reference: with distinct levels, the depth of `x` is the length of
      the run of levels directly below it, `x - 1`, `x - 2`, ... */
  predicate RunBelow(levels: seq<int>, d: map<int, nat>)
  {
    forall x: int :: x in d ==> RunOf(levels, x, d[x]) && Below(x, d[x] + 1) !in levels
  }

  /** `x - 1`, ..., `x - n` are all levels. */
  predicate RunOf(levels: seq<int>, x: int, n: nat)
  {
    forall k: nat :: 1 <= k <= n ==> Below(x, k) in levels
  }

  function Below(x: int, k: nat): int { x - k }

  lemma {:induction false} StrictlySortedOfDistinct(ls: seq<int>)
    requires SortedInts(ls) && DistinctLevels(ls)
    ensures StrictlySortedInts(ls)
  {
    forall i, j | 0 <= i < j < |ls| ensures ls[i] < ls[j] {
      if ls[i] == ls[j] {
        RepeatedCount(ls, i, j);
      }
    }
  }

  lemma RepeatedCount(ls: seq<int>, i: int, j: int)
    requires 0 <= i < j < |ls| && ls[i] == ls[j]
    ensures multiset(ls)[ls[i]] >= 2
  {
    assert ls == ls[..i] + [ls[i]] + ls[i + 1..j] + [ls[j]] + ls[j + 1..];
  }

  predicate StrictlySortedInts(xs: seq<int>)
  {
    forall i, j :: 0 <= i < j < |xs| ==> xs[i] < xs[j]
  }

  lemma {:induction false} DepthsOfRuns(ls: seq<int>)
    requires StrictlySortedInts(ls)
    ensures RunBelow(ls, DepthsOf(ls))
    decreases |ls|
  {
    if |ls| >= 2 {
      StrictPrefix(ls, ls[..|ls| - 1]);
      DepthsOfRuns(ls[..|ls| - 1]);
      DepthsOfRunsLast(ls, ls[..|ls| - 1]);
    }
  }

  /** Dropping the last level keeps the levels strictly ascending, all below
      the dropped one. */
  lemma StrictPrefix(ls: seq<int>, init: seq<int>)
    requires StrictlySortedInts(ls) && |ls| >= 2 && init == ls[..|ls| - 1]
    ensures StrictlySortedInts(init) && init != []
    ensures forall y :: y in init ==> y <= init[|init| - 1] < ls[|ls| - 1]
  {
    forall y | y in init ensures y <= ls[|ls| - 2] < ls[|ls| - 1] {
      var k :| 0 <= k < |init| && init[k] == y;
      if k < |init| - 1 { assert ls[k] < ls[|ls| - 2]; }
    }
  }

  lemma DepthsOfRunsLast(ls: seq<int>, init: seq<int>)
    requires |ls| >= 2 && init == ls[..|ls| - 1] && RunBelow(init, DepthsOf(init))
    requires init != [] && forall y :: y in init ==> y <= init[|init| - 1] < ls[|ls| - 1]
    ensures RunBelow(ls, DepthsOf(ls))
  {
    var x := ls[|ls| - 1];
    assert ls[|ls| - 2] == init[|init| - 1];
    assert DepthsOf(ls) == Visit(DepthsOf(init), init[|init| - 1], x);
    DepthsOfKeys(init);
    DepthsOfRunsStep(init, x, DepthsOf(init), ls, DepthsOf(ls));
  }

  /** The step of `DepthsOfRuns`: a level above every visited one, with
      `d0` the depths so far. */
  lemma {:induction false} DepthsOfRunsStep(init: seq<int>, x: int, d0: map<int, nat>, ls: seq<int>, d: map<int, nat>)
    requires init != [] && forall y :: y in init ==> y <= init[|init| - 1] < x
    requires forall y :: y in d0 <==> y in init
    requires RunBelow(init, d0)
    requires |ls| >= 2 && init == ls[..|ls| - 1] && x == ls[|ls| - 1] && init[|init| - 1] in d0
    requires d == Visit(d0, init[|init| - 1], x)
    ensures RunBelow(ls, d)
  {
    assert ls == init + [x];
    var p := init[|init| - 1];
    forall y: int | y in d
      ensures RunOf(init + [x], y, d[y]) && Below(y, d[y] + 1) !in init + [x]
    {
      if y == x {
        RunNew(init, x, d0[p], d[y]);
      } else {
        RunOld(init, x, y, d0[y]);
      }
    }
  }

  /** The new level's run: one longer than its predecessor's when it follows
      it directly, empty otherwise. */
  lemma RunNew(init: seq<int>, x: int, m: nat, n: nat)
    requires init != [] && forall y :: y in init ==> y <= init[|init| - 1] < x
    requires RunOf(init, init[|init| - 1], m) && Below(init[|init| - 1], m + 1) !in init
    requires n == if x == init[|init| - 1] + 1 then m + 1 else 0
    ensures RunOf(init + [x], x, n) && Below(x, n + 1) !in init + [x]
  {
    var p := init[|init| - 1];
    assert p in init;
    if x == p + 1 {
      forall k: nat | 1 <= k <= n ensures Below(x, k) in init + [x] {
        if k > 1 {
          assert Below(x, k) == Below(p, k - 1);
        }
      }
      assert Below(x, n + 1) == Below(p, m + 1);
    } else {
      assert Below(x, 1) > p;
    }
  }

  /** An old level keeps its run, and the new level does not extend it. */
  lemma RunOld(init: seq<int>, x: int, y: int, m: nat)
    requires forall z :: z in init ==> z < x
    requires y in init && RunOf(init, y, m) && Below(y, m + 1) !in init
    ensures RunOf(init + [x], y, m) && Below(y, m + 1) !in init + [x]
  {
    forall k: nat | 1 <= k <= m ensures Below(y, k) in init + [x] {
      assert Below(y, k) in init;
    }
  }

  /** With distinct levels, every depth is the length of the run of
      consecutive levels directly below. */
  lemma RelDepthsAreRuns(levels: seq<int>)
    requires DistinctLevels(levels)
    ensures RunBelow(levels, DepthsOf(SortInts(levels)))
  {
    var ls := SortInts(levels);
    SortIntsSorted(levels);
    DepthsOfKeys(ls);
    assert DistinctLevels(ls);
    StrictlySortedOfDistinct(ls);
    DepthsOfRuns(ls);
  }

  lemma {:induction false} FirstDepthZero(ls: seq<int>)
    requires SortedInts(ls) && ls != []
    ensures ls[0] in DepthsOf(ls) && DepthsOf(ls)[ls[0]] == 0
    decreases |ls|
  {
    if |ls| >= 2 {
      var init := ls[..|ls| - 1];
      assert init[0] == ls[0];
      assert SortedInts(init);
      FirstDepthZero(init);
      assert ls == init + [ls[|ls| - 1]];
      DepthsOfSnoc(init, ls[|ls| - 1]);
      assert ls[|ls| - 2] <= ls[|ls| - 1];
      if ls[|ls| - 1] == ls[0] {
        assert ls[0] <= ls[|ls| - 2];
      }
    }
  }

  /** The smallest level gets depth 0, duplicates or not. */
  lemma RelDepthsMinimumIsZero(levels: seq<int>, m: int)
    requires m in levels && forall x :: x in levels ==> m <= x
    ensures m in DepthsOf(SortInts(levels)) && DepthsOf(SortInts(levels))[m] == 0
  {
    var ls := SortInts(levels);
    SortIntsSorted(levels);
    DepthsOfKeys(ls);
    FirstDepthZero(ls);
    assert ls[0] in levels;
    assert ls[0] == m;
  }

  /** The module's own check: levels 1-3 form one run, 5-10 another. */
  lemma RelDepthsExample()
    ensures DepthsOf(SortInts([1, 2, 3, 5, 6, 7, 8, 10, 9])) ==
      map[1 := 0, 2 := 1, 3 := 2, 5 := 0, 6 := 1, 7 := 2, 8 := 3, 9 := 4, 10 := 5]
  {
    ExampleSorted();
    ExampleDepths();
  }

  lemma ExampleSorted()
    ensures SortInts([1, 2, 3, 5, 6, 7, 8, 10, 9]) == [1, 2, 3, 5, 6, 7, 8, 9, 10]
  {
    ExampleSortedTail();
    assert SortInts([5, 6, 7, 8, 10, 9]) == [5, 6, 7, 8, 9, 10];
    assert SortInts([3, 5, 6, 7, 8, 10, 9]) == [3, 5, 6, 7, 8, 9, 10];
    assert SortInts([2, 3, 5, 6, 7, 8, 10, 9]) == [2, 3, 5, 6, 7, 8, 9, 10];
  }

  lemma ExampleSortedTail()
    ensures SortInts([6, 7, 8, 10, 9]) == [6, 7, 8, 9, 10]
  {
    assert SortInts([9]) == [9];
    assert SortInts([10, 9]) == InsertInt(10, [9]) == [9, 10];
    assert SortInts([8, 10, 9]) == [8, 9, 10];
    assert SortInts([7, 8, 10, 9]) == [7, 8, 9, 10];
  }

  lemma {:induction false} ExampleDepths()
    ensures DepthsOf([1, 2, 3, 5, 6, 7, 8, 9, 10]) ==
      map[1 := 0, 2 := 1, 3 := 2, 5 := 0, 6 := 1, 7 := 2, 8 := 3, 9 := 4, 10 := 5]
  {
    DepthsOfSnoc([1], 2);
    assert [1] + [2] == [1, 2];
    DepthsOfSnoc([1, 2], 3);
    assert [1, 2] + [3] == [1, 2, 3];
    DepthsOfSnoc([1, 2, 3], 5);
    assert [1, 2, 3] + [5] == [1, 2, 3, 5];
    DepthsOfSnoc([1, 2, 3, 5], 6);
    assert [1, 2, 3, 5] + [6] == [1, 2, 3, 5, 6];
    DepthsOfSnoc([1, 2, 3, 5, 6], 7);
    assert [1, 2, 3, 5, 6] + [7] == [1, 2, 3, 5, 6, 7];
    DepthsOfSnoc([1, 2, 3, 5, 6, 7], 8);
    assert [1, 2, 3, 5, 6, 7] + [8] == [1, 2, 3, 5, 6, 7, 8];
    DepthsOfSnoc([1, 2, 3, 5, 6, 7, 8], 9);
    assert [1, 2, 3, 5, 6, 7, 8] + [9] == [1, 2, 3, 5, 6, 7, 8, 9];
    DepthsOfSnoc([1, 2, 3, 5, 6, 7, 8, 9], 10);
    assert [1, 2, 3, 5, 6, 7, 8, 9] + [10] == [1, 2, 3, 5, 6, 7, 8, 9, 10];
  }

  /** A repeated level is not its own successor, so its depth restarts at 0. */
  lemma RelDepthsDuplicateRestarts()
    ensures DepthsOf(SortInts([2, 1, 2])) == map[1 := 0, 2 := 0]
  {
    assert SortInts([2]) == [2];
    assert SortInts([1, 2]) == [1, 2];
    assert SortInts([2, 1, 2]) == InsertInt(2, [1, 2]) == [1, 2, 2];
    DepthsOfSnoc([1], 2);
    assert [1] + [2] == [1, 2];
    DepthsOfSnoc([1, 2], 2);
    assert [1, 2] + [2] == [1, 2, 2];
  }

  // ---------------------------------------------------------------------
  // parse_table_body

  /** `TATTRS.get('style', {}).get('background-color')`, when it is set to
      a non-empty value. */
  function Background(a: WAttrs): Option<string>
  {
    if STYLE in a then
      match StyleGet(a[STYLE].kvs, "background-color")
      case Some(bg) => if bg != "" then Some(bg) else None
      case None => None
    else None
  }

  /** The attributes a blank cell passes on: only its background colour. */
  function BlankCellAttrs(a: WAttrs): (r: WAttrs)
  {
    match Background(a)
    case Some(bg) => map[STYLE := Style([("background-color", bg)])]
    case None => map[]
  }

  /** `[('p', PATTRS, [('span', _, [('b', _, TBODY)])])]` or
      `[('p', PATTRS, [('b', _, TBODY)])]`: the paragraph's attributes. */
  function BoldParagraph(body: seq<Node>): Option<WAttrs>
  {
    if |body| == 1 && body[0].Elem? && body[0].tag == "p" && |body[0].body| == 1 && body[0].body[0].Elem? then
      var inner := body[0].body[0];
      if inner.tag == "b" then Some(body[0].attrs)
      else if inner.tag == "span" && |inner.body| == 1 && inner.body[0].Elem? && inner.body[0].tag == "b" then
        Some(body[0].attrs)
      else None
    else None
  }

  /** `merge_attrs(TATTRS, PATTRS)`. */
  function CellParagraphAttrs(ta: WAttrs, pa: WAttrs): WAttrs
  {
    MergeAttrs2(ta, pa)
  }

  /** What `extract_header` accepts for one cell, with the attributes it
      records for it. */
  function HeaderCell(e: Node): Option<WAttrs>
  {
    if !e.Elem? then None
    else if Postprocess.BlankBody(e.body) then Some(BlankCellAttrs(e.attrs))
    else match BoldParagraph(e.body)
      case Some(pa) => Some(CellParagraphAttrs(e.attrs, pa))
      case None => None
  }

  predicate AllHeaderCells(cells: seq<Node>)
  {
    forall i :: 0 <= i < |cells| ==> HeaderCell(cells[i]).Some?
  }

  predicate HeaderAttrsOf(cells: seq<Node>, attrs: seq<WAttrs>)
  {
    |attrs| == |cells| && forall i :: 0 <= i < |cells| ==> HeaderCell(cells[i]) == Some(attrs[i])
  }

  /** `extract_header(cells)`: every cell must be blank or bold. */
  method ExtractHeader(cells: seq<Node>) returns (ok: bool, attrs: seq<WAttrs>)
    ensures ok <==> AllHeaderCells(cells)
    ensures ok ==> HeaderAttrsOf(cells, attrs)
    ensures !ok ==> attrs == []
  {
    attrs := [];
    var i := 0;
    while i < |cells|
      invariant 0 <= i <= |cells|
      invariant HeaderAttrsOf(cells[..i], attrs)
    {
      match HeaderCell(cells[i])
      case None =>
        return false, [];
      case Some(a) =>
        attrs := attrs + [a];
        assert cells[..i + 1][i] == cells[i];
      i := i + 1;
    }
    assert cells[..i] == cells;
    ok := true;
  }

  /** A blank cell passes on at most its background colour. */
  lemma BlankCellKeepsBackground(tag: string, a: WAttrs, body: seq<Node>)
    requires Postprocess.BlankBody(body)
    ensures HeaderCell(Elem(tag, a, body)) == Some(BlankCellAttrs(a))
    ensures BlankCellAttrs(a).Keys <= {STYLE}
    ensures Background(a).Some? ==> BlankCellAttrs(a)[STYLE] == Style([("background-color", Background(a).value)])
  {
  }

  /** A single bold paragraph, directly or through a span, is a header
      cell whose attributes merge the cell's and the paragraph's. */
  lemma BoldCellIsHeader(tag: string, ta: WAttrs, pa: WAttrs, sa: WAttrs, ba: WAttrs, t: string)
    requires t != "" && !IsSpace(t[0])
    ensures HeaderCell(Elem(tag, ta, [Elem("p", pa, [Elem("b", ba, [Text(t)])])])) == Some(CellParagraphAttrs(ta, pa))
    ensures HeaderCell(Elem(tag, ta, [Elem("p", pa, [Elem("span", sa, [Elem("b", ba, [Text(t)])])])])) == Some(CellParagraphAttrs(ta, pa))
  {
    Postprocess.NonBlankString(t);
    var b := Elem("b", ba, [Text(t)]);
    assert !Postprocess.BlankBody([Text(t)]);
    assert !Postprocess.BlankBody([b]);
    assert !Postprocess.BlankBody([Elem("p", pa, [b])]);
    assert !Postprocess.BlankBody([Elem("span", sa, [b])]);
    assert !Postprocess.BlankBody([Elem("p", pa, [Elem("span", sa, [b])])]);
  }

  /** A cell holding plain text is not a header cell. */
  lemma TextCellIsNotHeader(tag: string, a: WAttrs, t: string)
    requires t != "" && !IsSpace(t[0])
    ensures HeaderCell(Elem(tag, a, [Text(t)])).None?
  {
    Postprocess.NonBlankString(t);
  }

  /** The column element after the header row's classes were added. */
  function ColWithClasses(col: Node, ha: WAttrs): (r: Result<Node>)
    requires col.Elem?
    ensures r.Ok? ==> r.value.Elem? && r.value.tag == col.tag && r.value.body == col.body
    ensures r.Ok? && CLASS in ha ==> Elems(ClassesOf(ha)) <= Elems(ClassesOf(r.value.attrs))
    ensures CLASS !in ha ==> r == Ok(col)
  {
    if CLASS in ha then
      match AddClass(col.attrs, ClassesOf(ha))
      case Ok(a) =>
        assert WellTyped(a) by {
          if STYLE in a { assert a[STYLE] == col.attrs[STYLE]; }
        }
        Ok(Elem(col.tag, a, col.body))
      case Err(e) => Err(e)
    else Ok(col)
  }

  /** The header row pass: every cell of the first row becomes a `th` with
      the recorded attributes and the cell's own body, and the matching column
      takes the header's classes.  Columns past the row's width are dropped. */
  method HeaderRow(cells: seq<Node>, hattrs: seq<WAttrs>, cols: seq<Node>)
    returns (r: Result<(seq<Node>, seq<Node>)>)
    requires |hattrs| == |cells| && forall i :: 0 <= i < |cells| ==> cells[i].Elem?
    requires forall i :: 0 <= i < |cols| ==> cols[i].Elem?
    ensures r.Ok? <==> |cells| <= |cols| && forall i :: 0 <= i < |cells| ==> ColWithClasses(cols[i], hattrs[i]).Ok?
    ensures r.Ok? ==> |r.value.0| == |cells| && |r.value.1| == |cells|
    ensures r.Ok? ==> forall i :: 0 <= i < |cells| ==>
      r.value.0[i] == Elem("th", hattrs[i], cells[i].body) && r.value.1[i] == ColWithClasses(cols[i], hattrs[i]).value
  {
    ghost var want := seq(|cells|, j requires 0 <= j < |cells| =>
      if j < |cols| then ColWithClasses(cols[j], hattrs[j]) else Err("IndexError"));
    var ths: seq<Node> := [];
    var ncols: seq<Node> := [];
    var i := 0;
    while i < |cells|
      invariant 0 <= i <= |cells| && i <= |cols|
      invariant |ths| == i && |ncols| == i
      invariant forall j :: 0 <= j < i ==> want[j] == Ok(ncols[j])
      invariant forall j :: 0 <= j < i ==> ths[j] == Elem("th", hattrs[j], cells[j].body)
    {
      if i >= |cols| {
        return Err("IndexError");
      }
      var c := ColWithClasses(cols[i], hattrs[i]);
      assert want[i] == c;
      if c.Err? {
        return Err(c.error);
      }
      OkSnoc(want, ncols, c.value);
      ths := ths + [Elem("th", hattrs[i], cells[i].body)];
      ncols := ncols + [c.value];
      i := i + 1;
    }
    assert forall j :: 0 <= j < |cells| ==> want[j] == ColWithClasses(cols[j], hattrs[j]);
    r := Ok((ths, ncols));
  }

  /** The first cell of a row after the header column pass. */
  function HeadCol(td: Node): (r: Result<Node>)
    requires td.Elem?
    ensures r.Ok? ==> r.value.Elem? && r.value.tag == td.tag && r.value.body == td.body
    ensures r.Ok? ==> "headcol" in Elems(ClassesOf(r.value.attrs))
  {
    match AddClass(td.attrs, ["headcol"])
    case Ok(a) =>
      assert WellTyped(a) by {
        if STYLE in a { assert a[STYLE] == td.attrs[STYLE]; }
      }
      assert "headcol" in Elems(["headcol"]);
      Ok(Elem(td.tag, a, td.body))
    case Err(e) => Err(e)
  }

  predicate RowsWithFirstCell(trs: seq<Node>)
  {
    forall i :: 0 <= i < |trs| ==> trs[i].Elem? && trs[i].body != [] && trs[i].body[0].Elem?
  }

  /** A row whose first cell went through `HeadCol`. */
  function HeadColRow(tr: Node): Result<Node>
    requires tr.Elem? && tr.body != [] && tr.body[0].Elem?
  {
    match HeadCol(tr.body[0])
    case Ok(td) => Ok(Elem(tr.tag, tr.attrs, [td] + tr.body[1..]))
    case Err(e) => Err(e)
  }

  /** The header column pass: the first cell of every row gains the class
      `headcol`; the rows, their other cells and their number are kept. */
  method HeaderColumn(trs: seq<Node>) returns (r: Result<seq<Node>>)
    requires RowsWithFirstCell(trs)
    ensures r.Ok? <==> forall i :: 0 <= i < |trs| ==> HeadCol(trs[i].body[0]).Ok?
    ensures r.Ok? ==> |r.value| == |trs| && forall i :: 0 <= i < |trs| ==>
      r.value[i] == Elem(trs[i].tag, trs[i].attrs, [HeadCol(trs[i].body[0]).value] + trs[i].body[1..])
  {
    ghost var want := seq(|trs|, j requires 0 <= j < |trs| => HeadColRow(trs[j]));
    var ntrs: seq<Node> := [];
    var i := 0;
    while i < |trs|
      invariant 0 <= i <= |trs| && |ntrs| == i
      invariant forall j :: 0 <= j < i ==> want[j] == Ok(ntrs[j])
    {
      var ntr := HeadColRow(trs[i]);
      assert want[i] == ntr;
      if ntr.Err? {
        HeadColRowIs(trs[i]);
        return Err(ntr.error);
      }
      OkSnoc(want, ntrs, ntr.value);
      ntrs := ntrs + [ntr.value];
      i := i + 1;
    }
    forall j | 0 <= j < |trs|
      ensures HeadCol(trs[j].body[0]).Ok? &&
        ntrs[j] == Elem(trs[j].tag, trs[j].attrs, [HeadCol(trs[j].body[0]).value] + trs[j].body[1..])
    {
      assert want[j] == HeadColRow(trs[j]) == Ok(ntrs[j]);
      HeadColRowIs(trs[j]);
    }
    r := Ok(ntrs);
  }

  lemma HeadColRowIs(tr: Node)
    requires tr.Elem? && tr.body != [] && tr.body[0].Elem?
    ensures HeadColRow(tr).Ok? <==> HeadCol(tr.body[0]).Ok?
    ensures HeadColRow(tr).Ok? ==>
      HeadColRow(tr).value == Elem(tr.tag, tr.attrs, [HeadCol(tr.body[0]).value] + tr.body[1..])
  {
  }

  /** One more result of a pointwise pass. */
  lemma OkSnoc<T>(want: seq<Result<T>>, got: seq<T>, x: T)
    requires |got| < |want| && forall j :: 0 <= j < |got| ==> want[j] == Ok(got[j])
    requires want[|got|] == Ok(x)
    ensures forall j :: 0 <= j < |got| + 1 ==> want[j] == Ok((got + [x])[j])
  {
  }

  /** `el[0] == tag`: a string's first character never equals a tag of two
      or more letters, and an empty string has no first character. */
  predicate HasTag(n: Node, tag: string)
  {
    n.Elem? && n.tag == tag
  }

  predicate HasEmptyText(body: seq<Node>)
  {
    exists i :: 0 <= i < |body| && body[i] == Text("")
  }

  function Children(body: seq<Node>, tag: string): (r: seq<Node>)
    ensures forall i :: 0 <= i < |r| ==> HasTag(r[i], tag)
    ensures |r| <= |body|
  {
    if body == [] then []
    else (if HasTag(body[0], tag) then [body[0]] else []) + Children(body[1..], tag)
  }

  /** `[body[0] for (_, _, body) in trs]`. */
  function FirstCells(trs: seq<Node>): (r: Result<seq<Node>>)
    requires forall i :: 0 <= i < |trs| ==> trs[i].Elem?
    ensures r.Ok? <==> forall i :: 0 <= i < |trs| ==> trs[i].body != []
    ensures r.Ok? ==> |r.value| == |trs| && forall i :: 0 <= i < |trs| ==> r.value[i] == trs[i].body[0]
  {
    if trs == [] then Ok([])
    else if trs[0].body == [] then Err("IndexError")
    else match FirstCells(trs[1..])
      case Ok(rest) => Ok([trs[0].body[0]] + rest)
      case Err(e) => Err(e)
  }

  predicate AllRows(trs: seq<Node>)
  {
    forall i :: 0 <= i < |trs| ==> HasTag(trs[i], "tr")
  }

  /** `mkel('th', header_attrs[index], td[2])` for one header cell. */
  function ThOf(cell: Node): (r: Node)
    requires HeaderCell(cell).Some?
  {
    Elem("th", HeaderCell(cell).value, cell.body)
  }

  /** The first row after the header row pass. */
  function ThRow(cells: seq<Node>): (r: Node)
    requires AllHeaderCells(cells)
  {
    Elem("tr", map[], seq(|cells|, i requires 0 <= i < |cells| => ThOf(cells[i])))
  }

  /** The rows after the header row pass: the first replaced by its `th`
      form when it is a header, the others kept. */
  function HeaderRowsOf(trs: seq<Node>): (r: seq<Node>)
    requires trs != [] && AllRows(trs)
  {
    if AllHeaderCells(trs[0].body) then [ThRow(trs[0].body)] + trs[1..] else trs
  }

  /** `cols[index]` after `add_class(cattrs, *header_attrs[index]['class'])`. */
  function ColOf(col: Node, cell: Node): Result<Node>
    requires col.Elem? && HeaderCell(cell).Some?
  {
    ColWithClasses(col, HeaderCell(cell).value)
  }

  /** The header row pass succeeds: there is a column for every cell, and
      each takes the cell's classes. */
  predicate HeaderColsOk(cells: seq<Node>, cols: seq<Node>)
    requires AllHeaderCells(cells) && forall i :: 0 <= i < |cols| ==> cols[i].Elem?
  {
    |cells| <= |cols| && forall i :: 0 <= i < |cells| ==> ColOf(cols[i], cells[i]).Ok?
  }

  /** `ncols`: one column per header cell, with its classes. */
  function HeaderCols(cells: seq<Node>, cols: seq<Node>): seq<Node>
    requires AllHeaderCells(cells) && (forall i :: 0 <= i < |cols| ==> cols[i].Elem?) && HeaderColsOk(cells, cols)
  {
    seq(|cells|, i requires 0 <= i < |cells| => ColOf(cols[i], cells[i]).value)
  }

  /** The header column pass applies: every row has a first cell, and all
      of these are header cells. */
  predicate HeadColCase(trs: seq<Node>)
    requires forall i :: 0 <= i < |trs| ==> trs[i].Elem?
  {
    FirstCells(trs).Ok? && AllHeaderCells(FirstCells(trs).value)
  }

  lemma HeadColCaseRows(trs: seq<Node>)
    requires forall i :: 0 <= i < |trs| ==> trs[i].Elem?
    requires HeadColCase(trs)
    ensures RowsWithFirstCell(trs)
  {
    var firsts := FirstCells(trs).value;
    forall i | 0 <= i < |trs| ensures trs[i].body != [] && trs[i].body[0].Elem? {
      assert trs[i].body[0] == firsts[i];
      assert HeaderCell(firsts[i]).Some?;
    }
  }

  /** The header row pass of `parse_table_body`: when every cell of the
      first row is a header cell, the row becomes a `tr` of `th`s, each
      with the attributes `extract_header` recorded for its cell, and the
      columns take the header classes; a missing column raises
      IndexError.  Otherwise rows and columns are kept. */
  method RowPass(trs: seq<Node>, cols: seq<Node>) returns (r: Result<(seq<Node>, seq<Node>)>)
    requires trs != [] && AllRows(trs)
    requires forall i :: 0 <= i < |cols| ==> cols[i].Elem?
    ensures r.Ok? ==> |r.value.0| == |trs| && AllRows(r.value.0) && r.value.0[1..] == trs[1..]
    ensures r.Ok? ==> r.value.0 == HeaderRowsOf(trs)
    ensures !AllHeaderCells(trs[0].body) ==> r == Ok((trs, cols))
    ensures AllHeaderCells(trs[0].body) ==> (r.Ok? <==> HeaderColsOk(trs[0].body, cols))
    ensures AllHeaderCells(trs[0].body) && r.Ok? ==>
      HeaderColsOk(trs[0].body, cols) && r.value.1 == HeaderCols(trs[0].body, cols)
  {
    var hasRow, hattrs := ExtractHeader(trs[0].body);
    if !hasRow {
      return Ok((trs, cols));
    }
    var cells := trs[0].body;
    assert forall i :: 0 <= i < |cells| ==> cells[i].Elem? by {
      forall i | 0 <= i < |cells| ensures cells[i].Elem? {
        assert HeaderCell(cells[i]).Some?;
      }
    }
    var hr := HeaderRow(cells, hattrs, cols);
    assert forall i :: 0 <= i < |cells| ==> hattrs[i] == HeaderCell(cells[i]).value;
    if hr.Err? {
      return Err(hr.error);
    }
    assert hr.value.0 == ThRow(cells).body;
    assert hr.value.1 == HeaderCols(cells, cols);
    var ntrs := [Elem("tr", map[], hr.value.0)] + trs[1..];
    assert ntrs[1..] == trs[1..];
    return Ok((ntrs, hr.value.1));
  }

  /** The header column pass of `parse_table_body`: a row without cells
      raises IndexError; when the first cell of every row is a header cell,
      each of them gains `headcol`, the rest of each row kept; otherwise the
      rows are kept. */
  method ColumnPass(trs: seq<Node>) returns (r: Result<seq<Node>>)
    requires AllRows(trs)
    ensures FirstCells(trs).Err? ==> r == Err("IndexError")
    ensures r.Ok? ==> |r.value| == |trs| && AllRows(r.value)
    ensures FirstCells(trs).Ok? && !AllHeaderCells(FirstCells(trs).value) ==> r == Ok(trs)
    ensures HeadColCase(trs) ==> (RowsWithFirstCell(trs) &&
      (r.Ok? <==> forall i :: 0 <= i < |trs| ==> HeadCol(trs[i].body[0]).Ok?))
    ensures HeadColCase(trs) && r.Ok? ==> (RowsWithFirstCell(trs) &&
      forall i :: 0 <= i < |trs| ==> HeadColRow(trs[i]) == Ok(r.value[i]))
  {
    var firsts := FirstCells(trs);
    if firsts.Err? {
      return Err("IndexError");
    }
    var hasCol, _ := ExtractHeader(firsts.value);
    if !hasCol {
      return Ok(trs);
    }
    HeadColCaseRows(trs);
    r := HeaderColumn(trs);
    if r.Ok? {
      forall i | 0 <= i < |trs| ensures HeadColRow(trs[i]) == Ok(r.value[i]) {
        HeadColRowIs(trs[i]);
      }
    }
  }

  /** `parse_table_body(body)`: a `colgroup` of the columns followed by the
      rows, after the header row and header column passes. */
  method ParseTableBody(body: seq<Node>) returns (r: Result<seq<Node>>)
    ensures HasEmptyText(body) ==> r == Err("IndexError")
    ensures !HasEmptyText(body) && Children(body, "tr") == [] ==> r == Err("IndexError")
    ensures r.Ok? ==> |r.value| == 1 + |Children(body, "tr")|
    ensures r.Ok? ==> r.value[0].Elem? && r.value[0].tag == "colgroup" && r.value[0].attrs == map[]
    ensures r.Ok? ==> forall i :: 1 <= i < |r.value| ==> r.value[i].Elem? && r.value[i].tag == "tr"
    ensures r.Ok? && !AllHeaderCells(Children(body, "tr")[0].body) ==>
      r.value[0].body == Children(body, "col") &&
      (FirstCells(Children(body, "tr")).Ok? && !AllHeaderCells(FirstCells(Children(body, "tr")).value) ==>
         r.value[1..] == Children(body, "tr"))
    ensures r.Ok? && AllHeaderCells(Children(body, "tr")[0].body) ==>
      HeaderColsOk(Children(body, "tr")[0].body, Children(body, "col")) &&
      r.value[0].body == HeaderCols(Children(body, "tr")[0].body, Children(body, "col"))
    ensures r.Ok? ==> var rows := HeaderRowsOf(Children(body, "tr"));
      (!HeadColCase(rows) ==> r.value[1..] == rows) &&
      (HeadColCase(rows) ==> (RowsWithFirstCell(rows) &&
         forall i :: 0 <= i < |rows| ==> HeadColRow(rows[i]) == Ok(r.value[i + 1])))
  {
    if HasEmptyText(body) {
      return Err("IndexError");
    }
    var cols := Children(body, "col");
    var trs := Children(body, "tr");
    if trs == [] {
      return Err("IndexError");
    }
    var rows := RowPass(trs, cols);
    if rows.Err? {
      return Err(rows.error);
    }
    var hc := ColumnPass(rows.value.0);
    if hc.Err? {
      return Err(hc.error);
    }
    var out := [Elem("colgroup", map[], rows.value.1)] + hc.value;
    assert out[1..] == hc.value;
    assert forall i :: 1 <= i < |out| ==> out[i] == hc.value[i - 1];
    return Ok(out);
  }

  // ---------------------------------------------------------------------
  // ParseContext

  /** The parse context: the style table, the list nesting level and the
      list style in force. */
  datatype ParseContext<Stys, ListStyle> = ParseContext(stys: Stys, listLevel: int, listStyle: Option<ListStyle>)

  /** `ctx.bump_list_level(style)`: one level deeper, under the new style,
      or under the old one when the new one is None. */
  function BumpListLevel<S, L>(ctx: ParseContext<S, L>, style: Option<L>): (r: ParseContext<S, L>)
    ensures r.stys == ctx.stys && r.listLevel == ctx.listLevel + 1
    ensures r.listStyle == if style.Some? then style else ctx.listStyle
  {
    ParseContext(ctx.stys, ctx.listLevel + 1, if style.Some? then style else ctx.listStyle)
  }

  /** Bumping twice without a style keeps the style and goes two levels
      deeper. */
  lemma BumpTwiceKeepsStyle<S, L>(ctx: ParseContext<S, L>)
    ensures BumpListLevel(BumpListLevel(ctx, None), None) ==
      ParseContext(ctx.stys, ctx.listLevel + 2, ctx.listStyle)
  {
  }

  // ---------------------------------------------------------------------
  // Sty

  /** The closed value sets of `Sty.props`. */
  const FONT_WEIGHTS: seq<string> := ["bold", "normal"]
  const FONT_STYLES: seq<string> := ["italic", "normal"]
  const DECORATION_STYLES: seq<string> := ["solid", "none"]
  const TEXT_ALIGNS: seq<string> := ["start", "end", "left", "right", "center", "justify"]
  const PAR_BREAKS: seq<string> := ["auto", "column", "page", "even-page", "odd-page"]
  const STY_TYPES: seq<string> :=
    ["title", "subtitle", "h1", "h2", "h3", "h4", "h5", "h6", "list",
     "p", "span", "table", "tr", "td", "col", "footnote"]

  /** `Sty._check_in(k, v, allowable)`: TypeError unless `v` is one of the
      allowed values. */
  function CheckIn(k: string, v: string, allowable: seq<string>): (r: Result<()>)
    ensures r.Ok? <==> v in allowable
    ensures r.Err? ==> r.error == "TypeError"
  {
    if v in allowable then Ok(()) else Err("TypeError")
  }

  /** `Sty.__setattr__`: a `Sty` never changes once built. */
  function SetAttr(k: string, v: string): (r: Result<()>)
    ensures r.Err? && r.error == "TypeError"
  {
    Err("TypeError")
  }

  /** `ol`/`ul` are not `Sty` types (the list kind is decided later), and
      `middle` is no alignment. */
  lemma CheckInExamples()
    ensures CheckIn("type", "list", STY_TYPES).Ok? && CheckIn("type", "ol", STY_TYPES).Err?
    ensures CheckIn("text_align", "start", TEXT_ALIGNS).Ok? && CheckIn("text_align", "middle", TEXT_ALIGNS).Err?
    ensures CheckIn("par_break", "page", PAR_BREAKS).Ok? && CheckIn("par_break", "line", PAR_BREAKS).Err?
  {
    assert STY_TYPES[8] == "list";
    assert TEXT_ALIGNS[0] == "start";
    assert PAR_BREAKS[2] == "page";
  }
}
