/** The structural pattern matcher of ezmatch.py.

    Python compares a pattern with a value by plain `==`; `Var` and `SeqSlice`
    override `__eq__`, so a comparison both answers and binds.  `Val` is the
    universe of Python values the converter compares (None, strings, tuples,
    lists, dicts and OrderedDicts) and `Pat` is such a value that may contain
    `Var`s and `Seq` patterns.  `Match` is the pure reading of `pattern ==
    value`: `None` when the comparison is false, otherwise the bindings the
    comparison leaves behind.  `Var` is also modelled as the stateful object it
    is. */
module EzMatch {
  import opened Wrappers
  import opened PyStr

  /** Python values (keys of dicts are strings). */
  datatype Val =
    | VNone
    | VStr(s: string)
    | VTuple(items: seq<Val>)
    | VList(items: seq<Val>)
    | VDict(m: map<string, Val>)
    | VODict(entries: seq<(string, Val)>)

  /** A `Var(name, pred, *args)`: the predicate has its extra arguments folded in. */
  datatype VarPat = VarPat(name: string, pred: Option<Val -> bool>)

  /** The last argument of `Seq[...]`: absent, or a slice `start:` whose start
      may be missing. */
  datatype Tail = NoSlice | Slice(start: Option<Pat>)

  /** A `SeqSlice`: its arguments split into the non-slice prefix and the tail. */
  datatype SeqSlice = SeqSlice(prefix: seq<Pat>, tail: Tail, pred: Option<Val -> bool>)

  /** One argument of `Seq[...]` as written. */
  datatype SeqArg = Item(p: Pat) | SliceArg(start: Option<Pat>)

  datatype Pat =
    | PVar(v: VarPat)
    | PSeq(sq: SeqSlice)
    | PNone
    | PStr(str: string)
    | PTuple(items: seq<Pat>)
    | PList(items: seq<Pat>)
    | PDict(entries: seq<(string, Pat)>)

  type Bindings = map<string, Val>

  /** `Var` names starting with `_` never bind. */
  predicate IsPrivate(name: string)
  {
    StartsWith(name, "_")
  }

  /** `tuple(other)`; strings iterate as one-character strings.  Dicts are
      iterated in hash order by Python, which the model does not fix, so they
      count as non-iterable here. */
  function AsTuple(v: Val): Option<seq<Val>>
  {
    match v
    case VStr(s) => Some(seq(|s|, i requires 0 <= i < |s| => VStr([s[i]])))
    case VTuple(items) => Some(items)
    case VList(items) => Some(items)
    case _ => None
  }

  /** `other[n:]` for a string, tuple or list. */
  function TailOf(v: Val, n: nat): Val
  {
    match v
    case VStr(s) => VStr(if n <= |s| then s[n..] else "")
    case VTuple(items) => VTuple(if n <= |items| then items[n..] else [])
    case VList(items) => VList(if n <= |items| then items[n..] else [])
    case _ => v
  }

  function ODictToMap(entries: seq<(string, Val)>): map<string, Val>
  {
    if entries == [] then map[]
    else ODictToMap(entries[..|entries| - 1])[entries[|entries| - 1].0 := entries[|entries| - 1].1]
  }

  function EntryKeys(entries: seq<(string, Pat)>): set<string>
  {
    set i | 0 <= i < |entries| :: entries[i].0
  }

  /** The truth of `var == other` and what it binds. */
  function MatchVar(v: VarPat, other: Val): Option<Bindings>
  {
    if v.pred.None? || v.pred.value(other) then
      Some(if IsPrivate(v.name) then map[] else map[v.name := other])
    else None
  }

  /** `pattern == value`. */
  function Match(p: Pat, v: Val): Option<Bindings>
    decreases p, 1
  {
    match p
    case PVar(x) => MatchVar(x, v)
    case PSeq(SeqSlice(prefix, tail, pred)) =>
      var othert := AsTuple(v);
      if othert.None? then None
      else if pred.Some? && !pred.value(v) then None
      else (
        match tail
        case NoSlice => MatchItems(p, prefix, othert.value)
        case Slice(start) =>
          var n := |prefix|;
          var b1 := MatchItems(p, prefix, othert.value[..if n <= |othert.value| then n else |othert.value|]);
          if b1.None? then None
          else if start.None? then b1
          else
            var b2 := Match(start.value, TailOf(v, n));
            if b2.None? then None else Some(b1.value + b2.value))
    case PNone => if v.VNone? then Some(map[]) else None
    case PStr(s) => if v == VStr(s) then Some(map[]) else None
    case PTuple(ps) => if v.VTuple? then MatchItems(p, ps, v.items) else None
    case PList(ps) => if v.VList? then MatchItems(p, ps, v.items) else None
    case PDict(es) =>
      if v.VDict? then MatchEntries(p, es, v.m)
      else if v.VODict? then MatchEntries(p, es, ODictToMap(v.entries))
      else None
  }

  /** Tuple/list equality: equal lengths, then item by item, left to right;
      a later binding of the same name wins. */
  function MatchItems(parent: Pat, ps: seq<Pat>, vs: seq<Val>): Option<Bindings>
    requires forall i :: 0 <= i < |ps| ==> ps[i] < parent
    decreases parent, 0, |ps|
  {
    if |ps| != |vs| then None
    else if ps == [] then Some(map[])
    else
      var b0 := Match(ps[0], vs[0]);
      var rest := MatchItems(parent, ps[1..], vs[1..]);
      if b0.None? || rest.None? then None else Some(b0.value + rest.value)
  }

  /** Dict equality: the same key set, then every value equal. */
  function MatchEntries(parent: Pat, es: seq<(string, Pat)>, m: map<string, Val>): Option<Bindings>
    requires forall i :: 0 <= i < |es| ==> es[i].1 < parent
    decreases parent, 0, |es| + 1
  {
    if EntryKeys(es) != m.Keys then None
    else MatchValues(parent, es, m)
  }

  function MatchValues(parent: Pat, es: seq<(string, Pat)>, m: map<string, Val>): Option<Bindings>
    requires forall i :: 0 <= i < |es| ==> es[i].1 < parent
    decreases parent, 0, |es|
  {
    if es == [] then Some(map[])
    else if es[0].0 !in m then None
    else
      var b0 := Match(es[0].1, m[es[0].0]);
      var rest := MatchValues(parent, es[1..], m);
      if b0.None? || rest.None? then None else Some(b0.value + rest.value)
  }

  // ---------------------------------------------------------------------
  // Building `Seq` patterns

  /** `SeqSlice(args, pred)`: its constructor asserts that only the last
      argument may be a slice. */
  function MkSeqSlice(args: seq<SeqArg>, pred: Option<Val -> bool>): (r: Result<SeqSlice>)
    ensures r.Ok? <==> forall i :: 0 <= i < |args| - 1 ==> args[i].Item?
    ensures r.Ok? && |args| > 0 && args[|args| - 1].SliceArg? ==>
      r.value.tail == Slice(args[|args| - 1].start) && |r.value.prefix| == |args| - 1 &&
      forall i :: 0 <= i < |args| - 1 ==> r.value.prefix[i] == args[i].p
    ensures r.Ok? && (|args| == 0 || args[|args| - 1].Item?) ==>
      r.value.tail == NoSlice && |r.value.prefix| == |args| &&
      forall i :: 0 <= i < |args| ==> r.value.prefix[i] == args[i].p
    ensures r.Ok? ==> r.value.pred == pred
  {
    if exists i :: 0 <= i < |args| - 1 && args[i].SliceArg? then Err("AssertionError")
    else if |args| > 0 && args[|args| - 1].SliceArg? then
      Ok(SeqSlice(seq(|args| - 1, i requires 0 <= i < |args| - 1 => args[i].p),
                  Slice(args[|args| - 1].start), pred))
    else
      Ok(SeqSlice(seq(|args|, i requires 0 <= i < |args| && args[i].Item? => args[i].p), NoSlice, pred))
  }

  /** `s[args]`: a new `SeqSlice` with these arguments and `s`'s predicate. */
  function GetItem(s: SeqSlice, args: seq<SeqArg>): (r: Result<SeqSlice>)
    ensures r == MkSeqSlice(args, s.pred)
  {
    MkSeqSlice(args, s.pred)
  }

  /** `s(pred)`: the same arguments under a new predicate. */
  function CallSeq(s: SeqSlice, pred: Val -> bool): (r: SeqSlice)
    ensures r.prefix == s.prefix && r.tail == s.tail && r.pred == Some(pred)
  {
    SeqSlice(s.prefix, s.tail, Some(pred))
  }

  /** `s != other`. */
  function SeqNe(s: SeqSlice, other: Val): (r: bool)
    ensures r <==> Match(PSeq(s), other).None?
  {
    Match(PSeq(s), other).None?
  }

  // ---------------------------------------------------------------------
  // Properties of matching

  /** A `Var` without predicate equals every value and binds it, unless its
      name is private. */
  lemma VarWithoutPredMatchesAll(name: string, v: Val)
    ensures Match(PVar(VarPat(name, None)), v) ==
      Some(if IsPrivate(name) then map[] else map[name := v])
  {
  }

  /** A comparison with `Seq` is false for a value that is not iterable, and
      false when the sequence-level predicate rejects the value. */
  lemma SeqRejects(s: SeqSlice, v: Val)
    requires AsTuple(v).None? || (s.pred.Some? && !s.pred.value(v))
    ensures Match(PSeq(s), v).None?
  {
  }

  /** Item-by-item matching succeeds exactly when the lengths agree and
      every item matches its pattern. */
  lemma {:induction false} MatchItemsSome(parent: Pat, ps: seq<Pat>, vs: seq<Val>)
    requires forall i :: 0 <= i < |ps| ==> ps[i] < parent
    ensures MatchItems(parent, ps, vs).Some? <==>
      |ps| == |vs| && forall i :: 0 <= i < |ps| ==> Match(ps[i], vs[i]).Some?
    decreases |ps|
  {
    if |ps| == |vs| && ps != [] {
      MatchItemsSome(parent, ps[1..], vs[1..]);
      if forall i :: 0 <= i < |ps| ==> Match(ps[i], vs[i]).Some? {
        assert forall i :: 0 <= i < |ps| - 1 ==> Match(ps[1..][i], vs[1..][i]).Some? by {
          forall i | 0 <= i < |ps| - 1
            ensures Match(ps[1..][i], vs[1..][i]).Some?
          {
            assert ps[1..][i] == ps[i + 1] && vs[1..][i] == vs[i + 1];
          }
        }
      }
      if MatchItems(parent, ps, vs).Some? {
        forall i | 0 <= i < |ps|
          ensures Match(ps[i], vs[i]).Some?
        {
          if i > 0 {
            assert ps[1..][i - 1] == ps[i] && vs[1..][i - 1] == vs[i];
          }
        }
      }
    }
  }

  /** `Seq[p1, ..., pk]` equals exactly the iterables of k items, accepted
      by the sequence predicate, whose items equal their patterns. */
  lemma SeqWithoutSliceNeedsEqualLength(ps: seq<Pat>, pred: Option<Val -> bool>, v: Val)
    ensures Match(PSeq(SeqSlice(ps, NoSlice, pred)), v).Some? <==>
      AsTuple(v).Some? && (pred.None? || pred.value(v)) && |AsTuple(v).value| == |ps| &&
      forall i :: 0 <= i < |ps| ==> Match(ps[i], AsTuple(v).value[i]).Some?
  {
    var p := PSeq(SeqSlice(ps, NoSlice, pred));
    assert forall i :: 0 <= i < |ps| ==> ps[i] < p;
    if AsTuple(v).Some? {
      MatchItemsSome(p, ps, AsTuple(v).value);
    }
  }

  /** `Seq[p1, ..., pk, :]` equals exactly the iterables of at least k items,
      accepted by the sequence predicate, whose first k items equal their
      patterns: the rest is never looked at. */
  lemma SeqOpenSliceMatches(ps: seq<Pat>, pred: Option<Val -> bool>, v: Val)
    ensures Match(PSeq(SeqSlice(ps, Slice(None), pred)), v).Some? <==>
      AsTuple(v).Some? && (pred.None? || pred.value(v)) && |ps| <= |AsTuple(v).value| &&
      forall i :: 0 <= i < |ps| ==> Match(ps[i], AsTuple(v).value[i]).Some?
  {
    var p := PSeq(SeqSlice(ps, Slice(None), pred));
    assert forall i :: 0 <= i < |ps| ==> ps[i] < p;
    if AsTuple(v).Some? {
      var items := AsTuple(v).value;
      var n := if |ps| <= |items| then |ps| else |items|;
      MatchItemsSome(p, ps, items[..n]);
      if |ps| <= |items| {
        assert forall i :: 0 <= i < |ps| ==> items[..n][i] == items[i];
      }
    }
  }

  /** `Seq[p1, ..., pk, start:]` asks what the open form asks and, besides,
      that the remainder `other[k:]` equals `start`. */
  lemma SeqStartSliceMatches(ps: seq<Pat>, start: Pat, pred: Option<Val -> bool>, v: Val)
    ensures Match(PSeq(SeqSlice(ps, Slice(Some(start)), pred)), v).Some? <==>
      AsTuple(v).Some? && (pred.None? || pred.value(v)) && |ps| <= |AsTuple(v).value| &&
      (forall i :: 0 <= i < |ps| ==> Match(ps[i], AsTuple(v).value[i]).Some?) &&
      Match(start, TailOf(v, |ps|)).Some?
  {
    var p := PSeq(SeqSlice(ps, Slice(Some(start)), pred));
    assert forall i :: 0 <= i < |ps| ==> ps[i] < p;
    if AsTuple(v).Some? {
      var items := AsTuple(v).value;
      var n := if |ps| <= |items| then |ps| else |items|;
      MatchItemsSome(p, ps, items[..n]);
      if |ps| <= |items| {
        assert forall i :: 0 <= i < |ps| ==> items[..n][i] == items[i];
      }
    }
  }

  /** A corollary for lists: appending items to a value that meets
      `Seq[p1, ..., pk, :]` keeps it matching. */
  lemma SeqOpenSliceIgnoresTail(ps: seq<Pat>, pred: Option<Val -> bool>, items: seq<Val>, extra: seq<Val>)
    requires Match(PSeq(SeqSlice(ps, Slice(None), pred)), VList(items)).Some?
    requires pred.None?
    ensures Match(PSeq(SeqSlice(ps, Slice(None), pred)), VList(items + extra)).Some?
  {
    SeqOpenSliceMatches(ps, pred, VList(items));
    SeqOpenSliceMatches(ps, pred, VList(items + extra));
    assert forall i :: 0 <= i < |ps| ==> (items + extra)[i] == items[i];
  }

  /** A dict pattern only meets a dict with exactly its key set. */
  lemma DictPatternNeedsSameKeys(es: seq<(string, Pat)>, m: map<string, Val>)
    requires Match(PDict(es), VDict(m)).Some?
    ensures m.Keys == EntryKeys(es)
  {
  }

  // ---------------------------------------------------------------------
  // Patterns without variables are plain values

  /** Values built from None, strings, tuples and lists. */
  predicate Plain(v: Val)
  {
    match v
    case VNone => true
    case VStr(_) => true
    case VTuple(items) => forall i :: 0 <= i < |items| ==> Plain(items[i])
    case VList(items) => forall i :: 0 <= i < |items| ==> Plain(items[i])
    case _ => false
  }

  /** The pattern that is the value itself. */
  function Lit(v: Val): Pat
    requires Plain(v)
  {
    match v
    case VNone => PNone
    case VStr(s) => PStr(s)
    case VTuple(items) => PTuple(seq(|items|, i requires 0 <= i < |items| => Lit(items[i])))
    case VList(items) => PList(seq(|items|, i requires 0 <= i < |items| => Lit(items[i])))
  }

  /** Without variables, matching is Python equality, and binds nothing. */
  lemma {:induction false} LitMatchesIffEqual(x: Val, v: Val)
    requires Plain(x)
    ensures Match(Lit(x), v).Some? <==> v == x
    ensures Match(Lit(x), v).Some? ==> Match(Lit(x), v).value == map[]
    decreases x, 1
  {
    match x
    case VNone =>
    case VStr(_) =>
    case VTuple(items) =>
      if v.VTuple? {
        var ps := Lit(x).items;
        assert forall i :: 0 <= i < |items| ==> ps[i] == Lit(items[i]) && ps[i] < Lit(x);
        LitItemsMatchIffEqual(Lit(x), items, v.items);
      }
    case VList(items) =>
      if v.VList? {
        var ps := Lit(x).items;
        assert forall i :: 0 <= i < |items| ==> ps[i] == Lit(items[i]) && ps[i] < Lit(x);
        LitItemsMatchIffEqual(Lit(x), items, v.items);
      }
  }

  lemma {:induction false} LitItemsMatchIffEqual(parent: Pat, xs: seq<Val>, vs: seq<Val>)
    requires forall i :: 0 <= i < |xs| ==> Plain(xs[i]) && Lit(xs[i]) < parent
    ensures MatchItems(parent, seq(|xs|, i requires 0 <= i < |xs| => Lit(xs[i])), vs).Some? <==> vs == xs
    ensures MatchItems(parent, seq(|xs|, i requires 0 <= i < |xs| => Lit(xs[i])), vs).Some? ==>
      MatchItems(parent, seq(|xs|, i requires 0 <= i < |xs| => Lit(xs[i])), vs).value == map[]
    decreases xs
  {
    var ps := seq(|xs|, i requires 0 <= i < |xs| => Lit(xs[i]));
    if |xs| == |vs| && xs != [] {
      LitMatchesIffEqual(xs[0], vs[0]);
      var tail := seq(|xs| - 1, i requires 0 <= i < |xs| - 1 => Lit(xs[1..][i]));
      assert ps[1..] == tail;
      LitItemsMatchIffEqual(parent, xs[1..], vs[1..]);
      if vs[0] == xs[0] && vs[1..] == xs[1..] {
        assert vs == [vs[0]] + vs[1..];
        assert xs == [xs[0]] + xs[1..];
      }
    }
  }

  /** `Seq[x1, ..., xk]` over plain values is `tuple(other) == (x1, ..., xk)`. */
  lemma SeqOfLitsIsTupleEquality(xs: seq<Val>, v: Val)
    requires forall i :: 0 <= i < |xs| ==> Plain(xs[i])
    ensures Match(PSeq(SeqSlice(seq(|xs|, i requires 0 <= i < |xs| => Lit(xs[i])), NoSlice, None)), v).Some?
      <==> AsTuple(v) == Some(xs)
  {
    var ps := seq(|xs|, i requires 0 <= i < |xs| => Lit(xs[i]));
    var p := PSeq(SeqSlice(ps, NoSlice, None));
    assert forall i :: 0 <= i < |xs| ==> ps[i] == Lit(xs[i]) && ps[i] < p;
    if AsTuple(v).Some? {
      LitItemsMatchIffEqual(p, xs, AsTuple(v).value);
    }
  }

  // ---------------------------------------------------------------------
  // The stateful binder

  /** A `Var` object: `matched` is `self.match` and `val` is `self.val`,
      which does not exist before the first successful binding. */
  class Var {
    const name: string
    const pred: Option<Val -> bool>
    var matched: Option<bool>
    var val: Option<Val>

    constructor (name: string, pred: Option<Val -> bool>)
      ensures this.name == name && this.pred == pred
      ensures matched == None && val == None
    {
      this.name := name;
      this.pred := pred;
      matched := None;
      val := None;
    }

    function Pattern(): Pat
    {
      PVar(VarPat(name, pred))
    }

    /** `var(pred)`: a new `Var` of the same name; this one is left alone. */
    method Call(p: Val -> bool) returns (r: Var)
      ensures fresh(r) && r.name == name && r.pred == Some(p)
      ensures r.matched == None && r.val == None
    {
      r := new Var(name, Some(p));
    }

    /** `var == other`. */
    method Eq(other: Val) returns (r: bool)
      modifies this
      ensures r <==> Match(Pattern(), other).Some?
      ensures r <==> (pred.None? || pred.value(other))
      ensures matched == Some(r)
      ensures val == if r && !IsPrivate(name) then Some(other) else old(val)
    {
      r := pred.None? || pred.value(other);
      matched := Some(r);
      if r && !IsPrivate(name) {
        val := Some(other);
      }
    }

    /** `var != other`: the negation, with the same binding side effect. */
    method Ne(other: Val) returns (r: bool)
      modifies this
      ensures r <==> Match(Pattern(), other).None?
      ensures matched == Some(!r)
      ensures val == if !r && !IsPrivate(name) then Some(other) else old(val)
    {
      var e := Eq(other);
      r := !e;
    }
  }
}
