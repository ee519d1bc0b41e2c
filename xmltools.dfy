/** xmltools.py: converting between lxml's `{url}local` names and the
    `prefix:local` names of the tuple trees, and inverting namespace maps. */
module XmlTools {
  import opened Wrappers
  import opened PyStr

  const XML_NS: string := "http://www.w3.org/XML/1998/namespace"

  /** `s.split(c)` has exactly two parts: `c` occurs exactly once. */
  function SplitTwo(s: string, c: char): (r: Option<(string, string)>)
    ensures r.Some? ==> s == r.value.0 + [c] + r.value.1 && c !in r.value.0 && c !in r.value.1
    ensures c !in s ==> r.None?
  {
    match IndexOf(s, c)
    case None => None
    case Some(i) =>
      if c in s[i + 1..] then None
      else
        assert s == s[..i] + [c] + s[i + 1..];
        Some((s[..i], s[i + 1..]))
  }

  // ---------------------------------------------------------------------
  // de_ns and re_ns

  /** `de_ns(thing, ns_to_prefix, is_attr)`: `{url}local` to
      `prefix:local`. The failures of the code are its exceptions: an
      empty name, a name with other than one `}`, a url with no prefix, and
      an attribute in the default namespace. */
  function DeNs(thing: string, nsToPrefix: map<string, Option<string>>, isAttr: bool): (r: Result<string>)
    ensures thing == [] ==> r == Err("IndexError")
    ensures thing != [] && thing[0] != '{' ==> r == Ok(thing)
  {
    if thing == [] then Err("IndexError")
    else if thing[0] != '{' then Ok(thing)
    else match SplitTwo(thing[1..], '}')
      case None => Err("ValueError")
      case Some((ns, raw)) =>
        if ns != XML_NS && ns !in nsToPrefix then Err("KeyError")
        else
          var prefix := if ns != XML_NS then nsToPrefix[ns] else Some("xml");
          if prefix.None? then
            if isAttr then Err("AssertionError") else Ok(raw)
          else Ok(prefix.value + ":" + raw)
  }

  /** `s.rpartition(':')`: the part before the last `:` and the part after
      it, or `''` and `s`. */
  function RPartition(s: string): (r: (string, string))
    ensures ':' !in r.1
    ensures ':' in s ==> s == r.0 + ":" + r.1
    ensures ':' !in s ==> r == ("", s)
  {
    match LastIndexOf(s, ':')
    case None => ("", s)
    case Some(i) =>
      assert s == s[..i] + ":" + s[i + 1..];
      (s[..i], s[i + 1..])
  }

  /** `re_ns(s, nsmap, is_attr)`: `prefix:local` to `{url}local`. An
      unprefixed attribute stays as it is, `xml` is the XML namespace, an
      empty prefix means the default namespace, and an unknown prefix gives
      the url `''`. */
  function ReNs(s: string, nsmap: map<Option<string>, string>, isAttr: bool): (r: string)
    ensures isAttr && ':' !in s ==> r == s
    ensures !(isAttr && ':' !in s) ==> |r| > 0 && r[0] == '{'
  {
    if isAttr && ':' !in s then s
    else
      var (prefix, local) := RPartition(s);
      var key := if prefix == "" then None else Some(prefix);
      var ns := if prefix == "xml" then XML_NS else if key in nsmap then nsmap[key] else "";
      "{" + ns + "}" + local
  }

  /** The name `{url}local`. */
  function Qualified(url: string, local: string): string
  {
    "{" + url + "}" + local
  }

  lemma SplitQualified(url: string, local: string)
    requires '}' !in url && '}' !in local
    ensures Qualified(url, local)[1..] == url + "}" + local
    ensures SplitTwo(Qualified(url, local)[1..], '}') == Some((url, local))
  {
    var s := Qualified(url, local)[1..];
    assert s == url + ['}'] + local;
    FirstAt(url, local, '}');
    assert s[..|url|] == url && s[|url| + 1..] == local;
  }

  /** No url holds a `}`; the XML namespace does not either. */
  lemma XmlNsPlain()
    ensures '}' !in XML_NS && ':' in XML_NS
  {
    assert XML_NS[4] == ':';
    forall i | 0 <= i < |XML_NS|
      ensures XML_NS[i] != '}'
    {
    }
  }

  /** The XML namespace needs no entry: its prefix is always `xml`. */
  lemma DeNsXml(local: string, nsToPrefix: map<string, Option<string>>, isAttr: bool)
    requires '}' !in local
    ensures DeNs(Qualified(XML_NS, local), nsToPrefix, isAttr) == Ok("xml:" + local)
  {
    XmlNsPlain();
    SplitQualified(XML_NS, local);
    var q := Qualified(XML_NS, local);
    assert q[0] == '{';
    assert SplitTwo(q[1..], '}') == Some((XML_NS, local));
    assert "xml" + ":" + local == "xml:" + local;
  }

  /** A url mapped to no prefix is the default namespace: elements drop it,
      attributes cannot live in it. */
  lemma DeNsDefault(url: string, local: string, nsToPrefix: map<string, Option<string>>, isAttr: bool)
    requires '}' !in url && '}' !in local && url != XML_NS
    requires url in nsToPrefix && nsToPrefix[url].None?
    ensures DeNs(Qualified(url, local), nsToPrefix, isAttr) == if isAttr then Err("AssertionError") else Ok(local)
  {
    SplitQualified(url, local);
  }

  /** A url without an entry is an error. */
  lemma DeNsUnknown(url: string, local: string, nsToPrefix: map<string, Option<string>>, isAttr: bool)
    requires '}' !in url && '}' !in local && url != XML_NS && url !in nsToPrefix
    ensures DeNs(Qualified(url, local), nsToPrefix, isAttr) == Err("KeyError")
  {
    SplitQualified(url, local);
  }

  /** `rpartition` splits at the last `:`, so a local part without `:`
      comes back whole. */
  lemma RPartitionOf(p: string, l: string)
    requires ':' !in l
    ensures RPartition(p + ":" + l) == (p, l)
  {
    var s := p + ":" + l;
    assert s == p + [':'] + l;
    LastAt(p, l, ':');
    assert s[..|p|] == p && s[|p| + 1..] == l;
  }

  /** `xml:` always maps back to the XML namespace. */
  lemma ReNsXml(local: string, nsmap: map<Option<string>, string>, isAttr: bool)
    requires ':' !in local
    ensures ReNs("xml:" + local, nsmap, isAttr) == Qualified(XML_NS, local)
  {
    RPartitionOf("xml", local);
    assert "xml:" + local == "xml" + ":" + local;
  }

  /** A prefixed name makes the round trip `re_ns(de_ns(q)) == q` when the
      two maps agree on the prefix. */
  lemma RoundTripPrefixed(url: string, local: string, p: string, nsToPrefix: map<string, Option<string>>,
                          nsmap: map<Option<string>, string>, isAttr: bool)
    requires '}' !in url && '}' !in local && ':' !in local && url != XML_NS
    requires url in nsToPrefix && nsToPrefix[url] == Some(p) && p != "" && p != "xml"
    requires Some(p) in nsmap && nsmap[Some(p)] == url
    ensures DeNs(Qualified(url, local), nsToPrefix, isAttr) == Ok(p + ":" + local)
    ensures ReNs(p + ":" + local, nsmap, isAttr) == Qualified(url, local)
  {
    SplitQualified(url, local);
    assert Qualified(url, local)[0] == '{';
    RPartitionOf(p, local);
    assert (p + ":" + local)[|p|] == ':';
  }

  /** An element in the default namespace makes the round trip too. */
  lemma RoundTripDefault(url: string, local: string, nsToPrefix: map<string, Option<string>>,
                         nsmap: map<Option<string>, string>)
    requires '}' !in url && '}' !in local && ':' !in local && url != XML_NS
    requires url in nsToPrefix && nsToPrefix[url].None?
    requires None in nsmap && nsmap[None] == url
    ensures DeNs(Qualified(url, local), nsToPrefix, false) == Ok(local)
    ensures ReNs(local, nsmap, false) == Qualified(url, local)
  {
    DeNsDefault(url, local, nsToPrefix, false);
  }

  /** So does a name in the XML namespace, whatever the maps hold. */
  lemma RoundTripXml(local: string, nsToPrefix: map<string, Option<string>>,
                     nsmap: map<Option<string>, string>, isAttr: bool)
    requires '}' !in local && ':' !in local
    ensures DeNs(Qualified(XML_NS, local), nsToPrefix, isAttr) == Ok("xml:" + local)
    ensures ReNs("xml:" + local, nsmap, isAttr) == Qualified(XML_NS, local)
  {
    DeNsXml(local, nsToPrefix, isAttr);
    ReNsXml(local, nsmap, isAttr);
  }

  // ---------------------------------------------------------------------
  // _inverted_update

  /** The keys of a dict in its iteration order: each key once. */
  ghost predicate IsOrder<K(!new), V>(source: map<K, V>, order: seq<K>)
  {
    (forall i, j :: 0 <= i < j < |order| ==> order[i] != order[j]) &&
    (forall k :: k in source <==> k in order)
  }

  /** `into.update((v, k) for (k, v) in source.iteritems() if k is not
      None)`, walking the keys in the dict's order. */
  function Update<K(==,!new), V(==,!new)>(into: map<V, Option<K>>, source: map<Option<K>, V>, order: seq<Option<K>>): (r: map<V, Option<K>>)
    requires forall k :: k in order ==> k in source
    decreases |order|
  {
    if order == [] then into
    else
      var k := order[0];
      Update(if k.Some? then into[source[k] := k] else into, source, order[1..])
  }

  /** `_inverted_update(into, source)`: every url gets its prefix, and the
      url of the default namespace gets `None` only if nothing else gave it
      one. */
  function InvertedUpdate<K(==,!new), V(==,!new)>(into: map<V, Option<K>>, source: map<Option<K>, V>, order: seq<Option<K>>): (r: map<V, Option<K>>)
    requires forall k :: k in order ==> k in source
  {
    var u := Update(into, source, order);
    if None in source && source[None] !in u then u[source[None] := None] else u
  }

  /** The urls that some non-`None` prefix maps to. */
  ghost predicate Prefixed<K(!new), V(!new)>(source: map<Option<K>, V>, v: V)
  {
    exists k :: Some(k) in source && source[Some(k)] == v
  }

  /** Some non-`None` key among `order` maps to `v`. */
  predicate TargetOf<K(==), V(==)>(source: map<Option<K>, V>, order: seq<Option<K>>, v: V)
    requires forall k :: k in order ==> k in source
  {
    order != [] && ((order[0].Some? && source[order[0]] == v) || TargetOf(source, order[1..], v))
  }

  lemma {:induction false} TargetOfExists<K(!new), V(!new)>(source: map<Option<K>, V>, order: seq<Option<K>>, v: V)
    requires forall k :: k in order ==> k in source
    ensures TargetOf(source, order, v) <==> exists k :: k in order && k.Some? && source[k] == v
  {
    if order != [] {
      TargetOfExists(source, order[1..], v);
      assert forall k :: k in order <==> k == order[0] || k in order[1..];
    }
  }

  lemma {:induction false} UpdateEntries<K(!new), V(!new)>(into: map<V, Option<K>>, source: map<Option<K>, V>, order: seq<Option<K>>)
    requires forall k :: k in order ==> k in source
    ensures forall v :: v in Update(into, source, order) <==> v in into || TargetOf(source, order, v)
    ensures forall v :: v in into && !TargetOf(source, order, v) ==> Update(into, source, order)[v] == into[v]
    ensures forall v :: TargetOf(source, order, v) ==>
      var r := Update(into, source, order); r[v].Some? && r[v] in source && source[r[v]] == v
    decreases |order|
  {
    if order != [] {
      var k := order[0];
      var into' := if k.Some? then into[source[k] := k] else into;
      UpdateEntries(into', source, order[1..]);
      assert Update(into, source, order) == Update(into', source, order[1..]);
      forall v
        ensures TargetOf(source, order, v) <==> (k.Some? && source[k] == v) || TargetOf(source, order[1..], v)
      {
      }
    }
  }

  /** A non-`None` key among `order` maps to `v` exactly when `v` is
      prefixed. */
  lemma TargetOfPrefixed<K(!new), V(!new)>(source: map<Option<K>, V>, order: seq<Option<K>>, v: V)
    requires IsOrder(source, order)
    ensures TargetOf(source, order, v) <==> Prefixed(source, v)
  {
    TargetOfExists(source, order, v);
    if TargetOf(source, order, v) {
      var k :| k in order && k.Some? && source[k] == v;
      assert Some(k.value) in source;
    }
    if Prefixed(source, v) {
      var k :| Some(k) in source && source[Some(k)] == v;
      assert Some(k) in order;
    }
  }

  /** Some key, `None` or not, maps to `v`. */
  ghost predicate Target<K(!new), V(!new)>(source: map<Option<K>, V>, v: V)
  {
    exists k :: k in source && source[k] == v
  }

  lemma TargetCases<K(!new), V(!new)>(source: map<Option<K>, V>, v: V)
    ensures Target(source, v) <==> Prefixed(source, v) || (None in source && source[None] == v)
  {
    if Target(source, v) {
      var k :| k in source && source[k] == v;
      if k.Some? {
        assert Some(k.value) in source;
      }
    }
  }

  /** What `_inverted_update` promises for one url: the url is there exactly
      when it was there before or some prefix maps to it; a url a
      non-`None` prefix maps to gets one of those prefixes; a prefix already
      there is never replaced by `None`; `None` only goes to the default
      namespace's url; and every other entry is left alone. */
  lemma InvertedUpdateAt<K(!new), V(!new)>(into: map<V, Option<K>>, source: map<Option<K>, V>, order: seq<Option<K>>, v: V)
    requires IsOrder(source, order)
    ensures var r := InvertedUpdate(into, source, order);
      (v in r <==> v in into || Target(source, v)) &&
      (Prefixed(source, v) ==> v in r && r[v].Some? && r[v] in source && source[r[v]] == v) &&
      (v in into && into[v].Some? ==> r[v].Some?) &&
      (v in r && r[v].None? ==> (v in into && into[v].None?) || (None in source && source[None] == v)) &&
      (v in into && !Target(source, v) ==> r[v] == into[v])
  {
    UpdateEntries(into, source, order);
    TargetOfPrefixed(source, order, v);
    TargetCases(source, v);
  }

  /** `InvertedUpdateAt` for every url. */
  lemma InvertedUpdateSpec<K(!new), V(!new)>(into: map<V, Option<K>>, source: map<Option<K>, V>, order: seq<Option<K>>)
    requires IsOrder(source, order)
    ensures var r := InvertedUpdate(into, source, order);
      (forall v :: v in r <==> v in into || Target(source, v)) &&
      (forall v :: Prefixed(source, v) ==> v in r && r[v].Some? && r[v] in source && source[r[v]] == v) &&
      (forall v :: v in into && into[v].Some? ==> r[v].Some?) &&
      (forall v :: v in r && r[v].None? ==> (v in into && into[v].None?) || (None in source && source[None] == v)) &&
      (forall v :: v in into && !Target(source, v) ==> r[v] == into[v])
  {
    forall v
      ensures var r := InvertedUpdate(into, source, order);
        (v in r <==> v in into || Target(source, v)) &&
        (Prefixed(source, v) ==> v in r && r[v].Some? && r[v] in source && source[r[v]] == v) &&
        (v in into && into[v].Some? ==> r[v].Some?) &&
        (v in r && r[v].None? ==> (v in into && into[v].None?) || (None in source && source[None] == v)) &&
        (v in into && !Target(source, v) ==> r[v] == into[v])
    {
      InvertedUpdateAt(into, source, order, v);
    }
  }

  /** The dict `into` that `_inverted_update` updates in place and returns. */
  class NsIndex<K(==,!new), V(==,!new)> {
    var entries: map<V, Option<K>>

    constructor (entries: map<V, Option<K>>)
      ensures this.entries == entries
    {
      this.entries := entries;
    }

    /** `_inverted_update(self, source)`. */
    method InvertedUpdateFrom(source: map<Option<K>, V>, order: seq<Option<K>>)
      requires IsOrder(source, order)
      modifies this
      ensures entries == InvertedUpdate(old(entries), source, order)
    {
      ghost var e0 := entries;
      var i := 0;
      while i < |order|
        invariant 0 <= i <= |order|
        invariant Update(e0, source, order) == Update(entries, source, order[i..])
      {
        var k := order[i];
        if k.Some? {
          entries := entries[source[k] := k];
        }
        assert order[i..][1..] == order[i + 1..];
        i := i + 1;
      }
      if None in source && source[None] !in entries {
        entries := entries[source[None] := None];
      }
    }
  }
}
