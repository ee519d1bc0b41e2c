/** metainfo.py: the metadata schema of a document style, and the validation of a
    document's metadata against it.

    A schema entry from `metadata.yml` may give `required`, `label`, `type`
    and `default`; `_canonicalize` fills in the rest.  `validate_and_augment`
    runs three passes over the document's metadata `meta` — the supplied
    fields, the required fields, then the output — and returns an ordered
    dict of per-field entries.  The literal parsers, `unparse_literal`,
    `plaintextify` and the type table of the literal module are outside this
    file and come in as the functions of a `Literals` value; error messages
    are kept as the `Problem` they describe. */
module MetaInfo {
  import opened Wrappers
  import opened PyStr
  import opened EzMatch

  // ---------------------------------------------------------------------
  // MetaSchema._canonicalize

  /** The fields a schema entry may give. */
  datatype RawEntry = RawEntry(required: Option<bool>, labelText: Option<string>, metatype: Option<string>, default: Option<Val>)

  /** A canonical schema entry: every field present, the default a string. */
  datatype Entry = Entry(required: bool, labelText: string, metatype: string, default: string)

  const METATYPES: set<string> := {"text", "rich-text", "bibliography", "boolean", "date", "image", "multiline", "lang"}

  /** `metatype_to_default(t)`. */
  function MetatypeToDefault(t: string): (r: Result<string>)
    ensures r.Ok? <==> t in METATYPES
    ensures t == "boolean" ==> r == Ok("no")
    ensures t == "date" ==> r == Ok("today")
    ensures t == "lang" ==> r == Ok("en")
    ensures t in METATYPES && t !in {"boolean", "date", "lang"} ==> r == Ok("")
  {
    if t == "boolean" then Ok("no")
    else if t == "date" then Ok("today")
    else if t == "lang" then Ok("en")
    else if t in {"text", "rich-text", "bibliography", "image", "multiline"} then Ok("")
    else Err("KeyError")
  }

  /** `default_label(k)`. */
  function DefaultLabel(k: string): string
  {
    Capitalize(k)
  }

  function GetOr<T>(o: Option<T>, d: T): T
  {
    if o.Some? then o.value else d
  }

  /** `_canonicalize(k, v)`; a `None` entry is an empty one. */
  function Canonicalize(k: string, v: Option<RawEntry>): (r: Result<Entry>)
  {
    var e := GetOr(v, RawEntry(None, None, None, None));
    var required := GetOr(e.required, false);
    var lbl := GetOr(e.labelText, DefaultLabel(k));
    var t := GetOr(e.metatype, "text");
    match e.default
    case None =>
      (match MetatypeToDefault(t)
       case Ok(d) => Ok(Entry(required, lbl, t, d))
       case Err(m) => Err(m))
    case Some(VStr(d)) => Ok(Entry(required, lbl, t, d))
    case Some(_) => Err("AssertionError")
  }

  /** What `_canonicalize` fills in never overrides what the entry gives:
      `required` is false, the label is the capitalised key and the type is
      `text` unless given; the default is the given one, which must be a
      string, or else the type's default, which must exist. */
  lemma CanonicalizeFills(k: string, e: RawEntry)
    ensures var r := Canonicalize(k, Some(e));
      var t := GetOr(e.metatype, "text");
      (r.Ok? <==> (if e.default.Some? then e.default.value.VStr? else t in METATYPES)) &&
      (r.Ok? ==>
        r.value.required == GetOr(e.required, false) && r.value.labelText == GetOr(e.labelText, Capitalize(k)) &&
        r.value.metatype == t &&
        r.value.default == (if e.default.Some? then e.default.value.s else MetatypeToDefault(t).value))
  {
  }

  /** An empty entry is a non-required text field with an empty default. */
  lemma CanonicalizeEmpty(k: string)
    ensures Canonicalize(k, None) == Ok(Entry(false, Capitalize(k), "text", ""))
    ensures Canonicalize(k, Some(RawEntry(None, None, None, None))) == Canonicalize(k, None)
  {
  }

  /** Canonical entries are fixed points. */
  lemma CanonicalizeIdempotent(k: string, e: Entry)
    ensures Canonicalize(k, Some(RawEntry(Some(e.required), Some(e.labelText), Some(e.metatype), Some(VStr(e.default))))) == Ok(e)
  {
  }

  // ---------------------------------------------------------------------
  // MetaSchema.__init__

  /** `_info` of a schema. */
  datatype Schema = Schema(info: map<string, Entry>)

  const LANG_ENTRY: RawEntry := RawEntry(None, Some("Language"), Some("lang"), Some(VStr("en")))

  /** The entries after the `title` fix-up and with `lang` baked in; the
      entries of `h` come after `lang` and so win over it. */
  function SchemaEntries(h: map<string, Option<RawEntry>>, gdocTitle: string): (r: Result<map<string, Option<RawEntry>>>)
    ensures r.Ok? <==> "title" !in h || h["title"].Some?
    ensures r.Ok? ==> r.value.Keys == h.Keys + {"lang"}
  {
    var h2 :=
      if "title" in h && h["title"].Some? && h["title"].value.default.None? then
        Ok(h["title" := Some(h["title"].value.(default := Some(VStr(gdocTitle))))])
      else if "title" in h && h["title"].None? then Err("TypeError")
      else Ok(h);
    match h2
    case Err(m) => Err(m)
    case Ok(h3) => Ok(map["lang" := Some(LANG_ENTRY)] + h3)
  }

  /** `MetaSchema(h, gdoc_meta)` with `gdoc_meta.get('title', '')`. Which
      bad entry raises first depends on dict order; a missing type default
      is reported before a default that is not a string. */
  function MakeSchema(h: map<string, Option<RawEntry>>, gdocTitle: string): (r: Result<Schema>)
    ensures r.Ok? ==> r.value.info.Keys == h.Keys + {"lang"}
  {
    match SchemaEntries(h, gdocTitle)
    case Err(m) => Err(m)
    case Ok(es) =>
      if forall k :: k in es ==> Canonicalize(k, es[k]).Ok? then
        Ok(Schema(map k | k in es :: Canonicalize(k, es[k]).value))
      else if exists k :: k in es && Canonicalize(k, es[k]) == Err("KeyError") then Err("KeyError")
      else Err("AssertionError")
  }

  /** Each entry of a schema is its canonicalised entry. */
  lemma MakeSchemaAt(h: map<string, Option<RawEntry>>, gdocTitle: string, k: string)
    requires MakeSchema(h, gdocTitle).Ok? && k in SchemaEntries(h, gdocTitle).value
    ensures Canonicalize(k, SchemaEntries(h, gdocTitle).value[k]).Ok?
    ensures MakeSchema(h, gdocTitle).value.info[k] == Canonicalize(k, SchemaEntries(h, gdocTitle).value[k]).value
  {
  }

  /** Every schema has `lang`; without an entry of its own it is a language
      field defaulting to `en`. */
  lemma SchemaHasLang(h: map<string, Option<RawEntry>>, gdocTitle: string)
    requires MakeSchema(h, gdocTitle).Ok?
    ensures "lang" in MakeSchema(h, gdocTitle).value.info
    ensures "lang" !in h ==> MakeSchema(h, gdocTitle).value.info["lang"] == Entry(false, "Language", "lang", "en")
  {
    var es := SchemaEntries(h, gdocTitle).value;
    assert "lang" in es;
    MakeSchemaAt(h, gdocTitle, "lang");
    if "lang" !in h {
      assert es["lang"] == Some(LANG_ENTRY);
    }
  }

  /** A title without a default of its own defaults to the document's title;
      one with a default keeps it. */
  lemma SchemaTitleDefault(h: map<string, Option<RawEntry>>, gdocTitle: string)
    requires MakeSchema(h, gdocTitle).Ok? && "title" in h
    ensures h["title"].Some?
    ensures var e := h["title"].value;
      MakeSchema(h, gdocTitle).value.info["title"].default ==
        if e.default.None? then gdocTitle else e.default.value.s
  {
    var es := SchemaEntries(h, gdocTitle).value;
    assert "title" in es;
    MakeSchemaAt(h, gdocTitle, "title");
    var e := h["title"].value;
    if e.default.None? {
      assert es["title"] == Some(e.(default := Some(VStr(gdocTitle))));
    } else {
      assert es["title"] == h["title"];
    }
  }

  /** A schema entry that fails to canonicalise makes the whole schema fail. */
  lemma SchemaFailsOnBadEntry(h: map<string, Option<RawEntry>>, gdocTitle: string, k: string)
    requires k in h && k != "title" && Canonicalize(k, h[k]).Err?
    ensures MakeSchema(h, gdocTitle).Err?
  {
    var es := SchemaEntries(h, gdocTitle);
    if es.Ok? {
      assert es.value[k] == h[k];
    }
  }

  /** `_defaults`. */
  function Defaults(s: Schema): (r: map<string, string>)
    ensures r.Keys == s.info.Keys
  {
    map k | k in s.info :: s.info[k].default
  }

  /** `augment_with_defaults(meta)`: the schema's defaults, with the supplied
      values in their place. */
  function AugmentWithDefaults(s: Schema, meta: map<string, Val>): map<string, Val>
  {
    (map k | k in s.info :: VStr(s.info[k].default)) + meta
  }

  lemma AugmentWithDefaultsProps(s: Schema, meta: map<string, Val>)
    ensures AugmentWithDefaults(s, meta).Keys == s.info.Keys + meta.Keys
    ensures forall k :: k in meta ==> AugmentWithDefaults(s, meta)[k] == meta[k]
    ensures forall k :: k in s.info && k !in meta ==> AugmentWithDefaults(s, meta)[k] == VStr(Defaults(s)[k])
  {
  }

  // ---------------------------------------------------------------------
  // validate_and_augment

  /** The helpers of the literal module: `PY_TYPE_TO_TYPESETR_TYPES` of a
      value's Python type (a non-empty tuple), `parse_literal(v, t)`,
      `Bibliography(v)` (either `None` when they raise), `unparse_literal`
      and `postprocess.plaintextify`. */
  datatype Literals = Literals(
    types: Val -> (string, seq<string>),
    parse: (Val, string) -> Option<Val>,
    bibliography: Val -> Option<Val>,
    unparse: Val -> string,
    plaintext: Val -> Val)

  function PotentialTypes(L: Literals, v: Val): (r: seq<string>)
    ensures |r| > 0
  {
    [L.types(v).0] + L.types(v).1
  }

  /** What the error messages say. */
  datatype Problem =
    | UnexpectedField(k: string)
    | NotInDocumentType(k: string)
    | BadFormat(expected: string)
    | WrongType(k: string, expected: string, found: string)
    | FieldRequired
    | FieldOfTypeRequired(t: string)

  /** One field of the result: `error`, `supplied`, `canonical`, `label` and
      `type`, each possibly absent. */
  datatype OutEntry = OutEntry(error: Option<Problem>, supplied: Option<string>, canonical: Option<string>,
                               labelText: Option<string>, metatype: Option<string>)

  /** `error(problem, k, supplied)`; `VNone` stands for the absent
      `supplied`. */
  function ErrorEntry(s: Schema, L: Literals, p: Problem, k: string, supplied: Val): (r: OutEntry)
    ensures r.error == Some(p) && r.labelText.None? && r.metatype.None?
    ensures r.supplied.Some? <==> supplied != VNone
    ensures r.canonical == if k in s.info then Some(s.info[k].default) else None
  {
    OutEntry(Some(p), if supplied != VNone then Some(L.unparse(supplied)) else None,
             if k in s.info then Some(s.info[k].default) else None, None, None)
  }

  /** The dicts the passes fill: `meta` (whose values `plaintextify` may
      replace), `parsed` and `errors`. */
  datatype Checked = Checked(meta: map<string, Val>, parsed: map<string, Val>, errors: map<string, OutEntry>)

  /** The problem of a field the schema does not know. */
  function UnknownProblem(k: string): Problem
  {
    if k == "title" || k == "subtitle" then NotInDocumentType(k) else UnexpectedField(k)
  }

  /** One turn of the loop of `check_supplied`. */
  function SuppliedStep(s: Schema, L: Literals, st: Checked, k: string): (r: Checked)
    requires k in st.meta
    ensures r.meta.Keys == st.meta.Keys
  {
    var v := st.meta[k];
    if k !in s.info then st.(errors := st.errors[k := ErrorEntry(s, L, UnknownProblem(k), k, v)])
    else
      var pot := PotentialTypes(L, v);
      var right := s.info[k].metatype;
      if right in pot then
        if right == "bibliography" then
          match L.bibliography(v)
          case Some(p) => st.(parsed := st.parsed[k := p])
          case None => st.(errors := st.errors[k := ErrorEntry(s, L, BadFormat(right), k, v)])
        else st
      else
        var v2 := if "rich-text" in pot && !v.VStr? then L.plaintext(v) else v;
        var pot2 := if "rich-text" in pot then ["text"] else pot;
        var st2 := st.(meta := st.meta[k := v2]);
        if pot2 == ["text"] then
          match L.parse(v2, right)
          case Some(p) => st2.(parsed := st2.parsed[k := p])
          case None => st2.(errors := st2.errors[k := ErrorEntry(s, L, BadFormat(right), k, v2)])
        else st2.(errors := st2.errors[k := ErrorEntry(s, L, WrongType(k, right, pot2[0]), k, v2)])
  }

  /** `check_supplied` over the first `|keys|` keys of `meta`. */
  function Supplied(s: Schema, L: Literals, st: Checked, keys: seq<string>): (r: Checked)
    requires forall i :: 0 <= i < |keys| ==> keys[i] in st.meta
    ensures r.meta.Keys == st.meta.Keys
  {
    if keys == [] then st
    else SuppliedStep(s, L, Supplied(s, L, st, keys[..|keys| - 1]), keys[|keys| - 1])
  }

  /** One turn of the loop of `check_required` as written: a missing
      required text field is reported under the key `''`, with the field's
      name as the supplied value. */
  function RequiredStepAsWritten(s: Schema, L: Literals, st: Checked, k: string): Checked
    requires k in s.info
  {
    if k == "title" || k in st.meta then st
    else if s.info[k].metatype == "text" then
      st.(errors := st.errors["" := ErrorEntry(s, L, FieldRequired, "", VStr(k))])
    else st.(errors := st.errors[k := ErrorEntry(s, L, FieldOfTypeRequired(s.info[k].metatype), k, VNone)])
  }

  /** The same turn with the text field reported under its own key. */
  function RequiredStep(s: Schema, L: Literals, st: Checked, k: string): Checked
    requires k in s.info
  {
    if k == "title" || k in st.meta then st
    else if s.info[k].metatype == "text" then
      st.(errors := st.errors[k := ErrorEntry(s, L, FieldRequired, k, VNone)])
    else st.(errors := st.errors[k := ErrorEntry(s, L, FieldOfTypeRequired(s.info[k].metatype), k, VNone)])
  }

  function Required(s: Schema, L: Literals, st: Checked, keys: seq<string>, asWritten: bool): (r: Checked)
    requires forall i :: 0 <= i < |keys| ==> keys[i] in s.info
    ensures r.meta == st.meta && r.parsed == st.parsed
  {
    if keys == [] then st
    else
      var prev := Required(s, L, st, keys[..|keys| - 1], asWritten);
      if asWritten then RequiredStepAsWritten(s, L, prev, keys[|keys| - 1])
      else RequiredStep(s, L, prev, keys[|keys| - 1])
  }

  /** `meta.keys() + [k for k in self._info.keys() if k not in meta]`. */
  function OutKeys(metaKeys: seq<string>, infoOrder: seq<string>, meta: map<string, Val>): seq<string>
  {
    if infoOrder == [] then metaKeys
    else
      var k := infoOrder[|infoOrder| - 1];
      OutKeys(metaKeys, infoOrder[..|infoOrder| - 1], meta) + (if k in meta then [] else [k])
  }

  /** The entry the output loop makes for `k`. */
  function OutStep(s: Schema, L: Literals, st: Checked, k: string): (r: OutEntry)
    requires k in st.errors || k in st.meta || k in s.info
    ensures k !in st.errors ==>
      r.error.None? &&
      r.supplied == (if k in st.meta then Some(L.unparse(st.meta[k])) else None) &&
      (r.canonical.Some? ==> r.canonical != r.supplied && r.canonical == Some(OutCanonical(s, L, st, k))) &&
      (r.canonical.None? ==> r.supplied == Some(OutCanonical(s, L, st, k)))
    ensures k in st.errors ==>
      r.error == st.errors[k].error && r.supplied == st.errors[k].supplied && r.canonical == st.errors[k].canonical
    ensures r.labelText == if k in s.info && s.info[k].labelText != DefaultLabel(k) then Some(s.info[k].labelText)
      else if k in st.errors then st.errors[k].labelText else None
    ensures r.metatype == if k in s.info && s.info[k].metatype != "text" then Some(s.info[k].metatype)
      else if k in st.errors then st.errors[k].metatype else None
  {
    var base :=
      if k !in st.errors then
        var sup := if k in st.meta then Some(L.unparse(st.meta[k])) else None;
        var can := OutCanonical(s, L, st, k);
        OutEntry(None, sup, if Some(can) != sup then Some(can) else None, None, None)
      else st.errors[k];
    var labelled := if k in s.info && s.info[k].labelText != DefaultLabel(k) then base.(labelText := Some(s.info[k].labelText)) else base;
    if k in s.info && s.info[k].metatype != "text" then labelled.(metatype := Some(s.info[k].metatype)) else labelled
  }

  /** `unparse_literal(parsed.get(k, meta.get(k, self._defaults[k])))`. */
  function OutCanonical(s: Schema, L: Literals, st: Checked, k: string): string
    requires k in st.meta || k in s.info
  {
    L.unparse(if k in st.parsed then st.parsed[k] else if k in st.meta then st.meta[k] else VStr(s.info[k].default))
  }

  predicate OutReady(s: Schema, st: Checked, keys: seq<string>)
  {
    forall i :: 0 <= i < |keys| ==> keys[i] in st.errors || keys[i] in st.meta || keys[i] in s.info
  }

  /** The output loop over `keys`. */
  function Output(s: Schema, L: Literals, st: Checked, keys: seq<string>): (r: seq<(string, OutEntry)>)
    requires OutReady(s, st, keys)
    ensures |r| == |keys|
    ensures forall i :: 0 <= i < |keys| ==> r[i] == (keys[i], OutStep(s, L, st, keys[i]))
  {
    if keys == [] then []
    else
      var p := keys[..|keys| - 1];
      assert OutReady(s, st, p) by {
        forall i | 0 <= i < |p| ensures p[i] in st.errors || p[i] in st.meta || p[i] in s.info {
          assert p[i] == keys[i];
        }
      }
      Output(s, L, st, p) + [(keys[|keys| - 1], OutStep(s, L, st, keys[|keys| - 1]))]
  }

  predicate Distinct(xs: seq<string>)
  {
    forall i, j :: 0 <= i < j < |xs| ==> xs[i] != xs[j]
  }

  /** The orders in which Python walks `meta`, `self._info` and
      `self._required`. */
  ghost predicate Orders(s: Schema, meta: map<string, Val>, metaKeys: seq<string>, infoOrder: seq<string>, requiredOrder: seq<string>)
  {
    Distinct(metaKeys) && (forall k :: k in meta <==> k in metaKeys) &&
    Distinct(infoOrder) && (forall k :: k in s.info <==> k in infoOrder) &&
    Distinct(requiredOrder) && (forall k :: k in requiredOrder <==> k in s.info && s.info[k].required)
  }

  lemma {:induction false} OutKeysMembers(metaKeys: seq<string>, infoOrder: seq<string>, meta: map<string, Val>)
    ensures forall k :: k in OutKeys(metaKeys, infoOrder, meta) <==> k in metaKeys || (k in infoOrder && k !in meta)
  {
    if infoOrder != [] {
      var p := infoOrder[..|infoOrder| - 1];
      OutKeysMembers(metaKeys, p, meta);
      assert infoOrder == p + [infoOrder[|infoOrder| - 1]];
    }
  }

  /** The output has one entry per supplied key, in the order supplied,
      then one per remaining schema key: each key once. */
  lemma {:induction false} OutKeysDistinct(metaKeys: seq<string>, infoOrder: seq<string>, meta: map<string, Val>)
    requires Distinct(metaKeys) && Distinct(infoOrder) && forall k :: k in meta <==> k in metaKeys
    ensures Distinct(OutKeys(metaKeys, infoOrder, meta))
    ensures |OutKeys(metaKeys, infoOrder, meta)| >= |metaKeys| && OutKeys(metaKeys, infoOrder, meta)[..|metaKeys|] == metaKeys
  {
    if infoOrder != [] {
      var p := infoOrder[..|infoOrder| - 1];
      var k := infoOrder[|infoOrder| - 1];
      assert Distinct(p);
      OutKeysDistinct(metaKeys, p, meta);
      OutKeysMembers(metaKeys, p, meta);
      var o := OutKeys(metaKeys, p, meta);
      if k !in meta {
        assert k !in o by {
          assert k !in metaKeys;
          assert forall i :: 0 <= i < |p| ==> p[i] != k;
        }
        assert (o + [k])[..|metaKeys|] == o[..|metaKeys|];
      }
    }
  }

  /** `validate_and_augment(meta)` with the required check as written. */
  function ValidatedAsWritten(s: Schema, L: Literals, meta: map<string, Val>, metaKeys: seq<string>,
                              infoOrder: seq<string>, requiredOrder: seq<string>): seq<(string, OutEntry)>
    requires Orders(s, meta, metaKeys, infoOrder, requiredOrder)
  {
    var st1 := Supplied(s, L, Checked(meta, map[], map[]), metaKeys);
    var st2 := Required(s, L, st1, requiredOrder, true);
    var keys := OutKeys(metaKeys, infoOrder, meta);
    OutKeysMembers(metaKeys, infoOrder, meta);
    Output(s, L, st2, keys)
  }

  /** `validate_and_augment(meta)` with every missing required field
      reported under its own key. */
  function Validated(s: Schema, L: Literals, meta: map<string, Val>, metaKeys: seq<string>,
                     infoOrder: seq<string>, requiredOrder: seq<string>): seq<(string, OutEntry)>
    requires Orders(s, meta, metaKeys, infoOrder, requiredOrder)
  {
    var st1 := Supplied(s, L, Checked(meta, map[], map[]), metaKeys);
    var st2 := Required(s, L, st1, requiredOrder, false);
    var keys := OutKeys(metaKeys, infoOrder, meta);
    OutKeysMembers(metaKeys, infoOrder, meta);
    Output(s, L, st2, keys)
  }

  /** One turn of the loop of `check_supplied`. */
  method CheckField(s: Schema, L: Literals, st: Checked, k: string) returns (r: Checked)
    requires k in st.meta
    ensures r == SuppliedStep(s, L, st, k)
  {
    var meta, parsed, errors := st.meta, st.parsed, st.errors;
    var v := meta[k];
    if k !in s.info {
      errors := errors[k := ErrorEntry(s, L, UnknownProblem(k), k, v)];
    } else {
      var pot := PotentialTypes(L, v);
      var right := s.info[k].metatype;
      if right in pot {
        if right == "bibliography" {
          var b := L.bibliography(v);
          if b.Some? {
            parsed := parsed[k := b.value];
          } else {
            errors := errors[k := ErrorEntry(s, L, BadFormat(right), k, v)];
          }
        }
      } else {
        if "rich-text" in pot {
          if !v.VStr? {
            v := L.plaintext(v);
          }
          pot := ["text"];
        }
        meta := meta[k := v];
        if pot == ["text"] {
          var p := L.parse(v, right);
          if p.Some? {
            parsed := parsed[k := p.value];
          } else {
            errors := errors[k := ErrorEntry(s, L, BadFormat(right), k, v)];
          }
        } else {
          errors := errors[k := ErrorEntry(s, L, WrongType(k, right, pot[0]), k, v)];
        }
      }
    }
    r := Checked(meta, parsed, errors);
  }

  /** `check_supplied()`. */
  method CheckSupplied(s: Schema, L: Literals, st0: Checked, metaKeys: seq<string>) returns (r: Checked)
    requires forall i :: 0 <= i < |metaKeys| ==> metaKeys[i] in st0.meta
    ensures r == Supplied(s, L, st0, metaKeys)
  {
    r := st0;
    var i := 0;
    while i < |metaKeys|
      invariant 0 <= i <= |metaKeys|
      invariant r == Supplied(s, L, st0, metaKeys[..i])
    {
      assert metaKeys[..i + 1][..i] == metaKeys[..i];
      r := CheckField(s, L, r, metaKeys[i]);
      i := i + 1;
    }
    assert metaKeys[..i] == metaKeys;
  }

  /** `check_required()`. With `asWritten` a missing required text field
      is filed under `''` with its name as the value, as the source does;
      without it every missing field is reported under its own key. */
  method CheckRequired(s: Schema, L: Literals, st1: Checked, requiredOrder: seq<string>, asWritten: bool) returns (r: Checked)
    requires forall i :: 0 <= i < |requiredOrder| ==> requiredOrder[i] in s.info
    ensures r == Required(s, L, st1, requiredOrder, asWritten)
  {
    var errors := st1.errors;
    var i := 0;
    while i < |requiredOrder|
      invariant 0 <= i <= |requiredOrder|
      invariant st1.(errors := errors) == Required(s, L, st1, requiredOrder[..i], asWritten)
    {
      var k := requiredOrder[i];
      assert requiredOrder[..i + 1][..i] == requiredOrder[..i];
      if k != "title" && k !in st1.meta {
        var right := s.info[k].metatype;
        if asWritten && right == "text" {
          errors := errors["" := ErrorEntry(s, L, FieldRequired, "", VStr(k))];
        } else {
          errors := errors[k := ErrorEntry(s, L, if right == "text" then FieldRequired else FieldOfTypeRequired(right), k, VNone)];
        }
      }
      i := i + 1;
    }
    assert requiredOrder[..i] == requiredOrder;
    r := st1.(errors := errors);
  }

  /** The keys of the result: those of `meta`, then the schema's others. */
  method ResultKeys(metaKeys: seq<string>, infoOrder: seq<string>, meta: map<string, Val>) returns (keys: seq<string>)
    ensures keys == OutKeys(metaKeys, infoOrder, meta)
  {
    keys := metaKeys;
    var i := 0;
    while i < |infoOrder|
      invariant 0 <= i <= |infoOrder|
      invariant keys == OutKeys(metaKeys, infoOrder[..i], meta)
    {
      assert infoOrder[..i + 1][..i] == infoOrder[..i];
      if infoOrder[i] !in meta {
        keys := keys + [infoOrder[i]];
      }
      i := i + 1;
    }
    assert infoOrder[..i] == infoOrder;
  }

  /** `validate_and_augment(meta)`: with `asWritten` the required check of
      the source, otherwise the corrected one. */
  method ValidateAndAugment(s: Schema, L: Literals, meta: map<string, Val>, metaKeys: seq<string>,
                            infoOrder: seq<string>, requiredOrder: seq<string>, asWritten: bool)
    returns (d: seq<(string, OutEntry)>, metaOut: map<string, Val>)
    requires Orders(s, meta, metaKeys, infoOrder, requiredOrder)
    ensures d == if asWritten then ValidatedAsWritten(s, L, meta, metaKeys, infoOrder, requiredOrder)
                 else Validated(s, L, meta, metaKeys, infoOrder, requiredOrder)
    ensures metaOut.Keys == meta.Keys
    ensures forall k :: k in meta ==> metaOut[k] == CheckedValue(s, L, k, meta[k])
  {
    var st1 := CheckSupplied(s, L, Checked(meta, map[], map[]), metaKeys);
    metaOut := st1.meta;
    forall k | k in meta
      ensures metaOut[k] == CheckedValue(s, L, k, meta[k])
    {
      SuppliedMeta(s, L, Checked(meta, map[], map[]), metaKeys, k);
    }
    var st2 := CheckRequired(s, L, st1, requiredOrder, asWritten);
    var keys := ResultKeys(metaKeys, infoOrder, meta);
    OutKeysMembers(metaKeys, infoOrder, meta);
    d := Render(s, L, st2, keys);
  }

  /** The loop that builds the result's entries. */
  method Render(s: Schema, L: Literals, st: Checked, keys: seq<string>) returns (d: seq<(string, OutEntry)>)
    requires OutReady(s, st, keys)
    ensures d == Output(s, L, st, keys)
  {
    d := [];
    var i := 0;
    while i < |keys|
      invariant 0 <= i <= |keys|
      invariant |d| == i
      invariant forall j :: 0 <= j < i ==> d[j] == (keys[j], OutStep(s, L, st, keys[j]))
    {
      d := d + [(keys[i], OutStep(s, L, st, keys[i]))];
      i := i + 1;
    }
  }

  // ---------------------------------------------------------------------
  // Properties of the passes

  /** Each turn of `check_supplied` touches only its own key. */
  lemma SuppliedStepFrame(s: Schema, L: Literals, st: Checked, k: string, x: string)
    requires k in st.meta && x != k
    ensures var r := SuppliedStep(s, L, st, k);
      (x in r.meta ==> r.meta[x] == st.meta[x]) &&
      (x in r.errors <==> x in st.errors) && (x in st.errors ==> r.errors[x] == st.errors[x])
  {
  }

  /** The value `check_supplied` leaves in the caller's `meta[k]`: a
      rich-text value of a schema field whose type does not accept it is
      replaced, in place, by its plain text. */
  function CheckedValue(s: Schema, L: Literals, k: string, v: Val): Val
  {
    var pot := PotentialTypes(L, v);
    if k in s.info && s.info[k].metatype !in pot && "rich-text" in pot && !v.VStr? then L.plaintext(v) else v
  }

  lemma SuppliedStepValue(s: Schema, L: Literals, st: Checked, k: string)
    requires k in st.meta
    ensures SuppliedStep(s, L, st, k).meta[k] == CheckedValue(s, L, k, st.meta[k])
  {
  }

  /** Each walked key's value is replaced as `CheckedValue` says, once; the
      others are left alone. */
  lemma {:induction false} SuppliedMeta(s: Schema, L: Literals, st: Checked, keys: seq<string>, x: string)
    requires forall i :: 0 <= i < |keys| ==> keys[i] in st.meta
    requires Distinct(keys) && x in st.meta
    ensures Supplied(s, L, st, keys).meta[x] == if x in keys then CheckedValue(s, L, x, st.meta[x]) else st.meta[x]
  {
    if keys != [] {
      var p := keys[..|keys| - 1];
      var last := keys[|keys| - 1];
      assert forall i :: 0 <= i < |p| ==> p[i] == keys[i];
      assert Distinct(p);
      SuppliedMeta(s, L, st, p, x);
      if last == x {
        assert x !in p;
        SuppliedStepValue(s, L, Supplied(s, L, st, p), x);
      } else {
        SuppliedStepFrame(s, L, Supplied(s, L, st, p), last, x);
        assert x in keys <==> x in p;
      }
    }
  }

  /** A key not yet walked keeps its value and has no error. */
  lemma {:induction false} SuppliedUntouched(s: Schema, L: Literals, st: Checked, keys: seq<string>, x: string)
    requires forall i :: 0 <= i < |keys| ==> keys[i] in st.meta
    requires x !in keys
    ensures var r := Supplied(s, L, st, keys);
      (x in st.meta ==> r.meta[x] == st.meta[x]) && (x in r.errors <==> x in st.errors)
  {
    if keys != [] {
      var p := keys[..|keys| - 1];
      assert x !in p by {
        assert forall i :: 0 <= i < |p| ==> p[i] == keys[i];
      }
      SuppliedUntouched(s, L, st, p, x);
      SuppliedStepFrame(s, L, Supplied(s, L, st, p), keys[|keys| - 1], x);
    }
  }

  /** A supplied key the schema does not know is an error entry made from
      its value. */
  lemma {:induction false} SuppliedUnknown(s: Schema, L: Literals, st: Checked, keys: seq<string>, x: string)
    requires forall i :: 0 <= i < |keys| ==> keys[i] in st.meta
    requires Distinct(keys) && x in keys && x !in s.info
    ensures var r := Supplied(s, L, st, keys);
      x in r.errors && r.errors[x] == ErrorEntry(s, L, UnknownProblem(x), x, st.meta[x])
  {
    var p := keys[..|keys| - 1];
    var last := keys[|keys| - 1];
    assert forall i :: 0 <= i < |p| ==> p[i] == keys[i];
    if last == x {
      assert x !in p;
      SuppliedUntouched(s, L, st, p, x);
    } else {
      assert x in p by {
        var i :| 0 <= i < |keys| && keys[i] == x;
        assert i < |p|;
      }
      assert Distinct(p);
      SuppliedUnknown(s, L, st, p, x);
      SuppliedStepFrame(s, L, Supplied(s, L, st, p), last, x);
    }
  }

  /** The corrected required check touches only keys of the schema. */
  lemma {:induction false} RequiredOutside(s: Schema, L: Literals, st: Checked, keys: seq<string>, x: string)
    requires forall i :: 0 <= i < |keys| ==> keys[i] in s.info
    requires x !in s.info || x !in keys
    ensures var r := Required(s, L, st, keys, false);
      (x in r.errors <==> x in st.errors) && (x in st.errors ==> r.errors[x] == st.errors[x])
  {
    if keys != [] {
      var p := keys[..|keys| - 1];
      assert forall i :: 0 <= i < |p| ==> p[i] == keys[i];
      RequiredOutside(s, L, st, p, x);
    }
  }

  /** The required check as written touches only `''` and the non-text
      required keys. */
  lemma {:induction false} RequiredAsWrittenOutside(s: Schema, L: Literals, st: Checked, keys: seq<string>, x: string)
    requires forall i :: 0 <= i < |keys| ==> keys[i] in s.info
    requires x != "" && (x !in keys || s.info[x].metatype == "text")
    ensures var r := Required(s, L, st, keys, true);
      (x in r.errors <==> x in st.errors)
  {
    if keys != [] {
      var p := keys[..|keys| - 1];
      assert forall i :: 0 <= i < |p| ==> p[i] == keys[i];
      RequiredAsWrittenOutside(s, L, st, p, x);
    }
  }

  /** A missing required field, other than `title`, is an error entry of its
      own. */
  lemma {:induction false} RequiredReports(s: Schema, L: Literals, st: Checked, keys: seq<string>, x: string)
    requires forall i :: 0 <= i < |keys| ==> keys[i] in s.info
    requires Distinct(keys) && x in keys && x != "title" && x !in st.meta
    ensures var r := Required(s, L, st, keys, false);
      x in r.errors && r.errors[x].error == Some(if s.info[x].metatype == "text" then FieldRequired else FieldOfTypeRequired(s.info[x].metatype))
  {
    var p := keys[..|keys| - 1];
    var last := keys[|keys| - 1];
    assert forall i :: 0 <= i < |p| ==> p[i] == keys[i];
    if last != x {
      assert x in p by {
        var i :| 0 <= i < |keys| && keys[i] == x;
        assert i < |p|;
      }
      assert Distinct(p);
      RequiredReports(s, L, st, p, x);
    }
  }

  /** The position of a key in the output. */
  lemma OutKeyAt(metaKeys: seq<string>, infoOrder: seq<string>, meta: map<string, Val>, x: string)
    requires x in metaKeys || (x in infoOrder && x !in meta)
    ensures exists i :: 0 <= i < |OutKeys(metaKeys, infoOrder, meta)| && OutKeys(metaKeys, infoOrder, meta)[i] == x
  {
    OutKeysMembers(metaKeys, infoOrder, meta);
  }

  /** A supplied field the schema does not know comes out as an error that
      carries the supplied value (unless it is `None`) and no canonical
      value. */
  lemma UnknownFieldIsError(s: Schema, L: Literals, meta: map<string, Val>, metaKeys: seq<string>,
                            infoOrder: seq<string>, requiredOrder: seq<string>, x: string)
    requires Orders(s, meta, metaKeys, infoOrder, requiredOrder)
    requires x in meta && x !in s.info
    ensures var d := Validated(s, L, meta, metaKeys, infoOrder, requiredOrder);
      forall i :: 0 <= i < |d| && d[i].0 == x ==>
        d[i].1 == ErrorEntry(s, L, UnknownProblem(x), x, meta[x]) && d[i].1.canonical.None? &&
        (d[i].1.supplied.Some? <==> meta[x] != VNone)
  {
    var st0 := Checked(meta, map[], map[]);
    var st1 := Supplied(s, L, st0, metaKeys);
    SuppliedUnknown(s, L, st0, metaKeys, x);
    RequiredOutside(s, L, st1, requiredOrder, x);
  }

  /** Every missing required field other than `title` is reported, so the
      result has errors. */
  lemma MissingRequiredIsError(s: Schema, L: Literals, meta: map<string, Val>, metaKeys: seq<string>,
                               infoOrder: seq<string>, requiredOrder: seq<string>, x: string)
    requires Orders(s, meta, metaKeys, infoOrder, requiredOrder)
    requires x in s.info && s.info[x].required && x != "title" && x !in meta
    ensures var d := Validated(s, L, meta, metaKeys, infoOrder, requiredOrder);
      (forall i :: 0 <= i < |d| && d[i].0 == x ==> d[i].1.error.Some?) &&
      HasErrors(d)
  {
    var st0 := Checked(meta, map[], map[]);
    var st1 := Supplied(s, L, st0, metaKeys);
    RequiredReports(s, L, st1, requiredOrder, x);
    OutKeyAt(metaKeys, infoOrder, meta, x);
    var keys := OutKeys(metaKeys, infoOrder, meta);
    var i :| 0 <= i < |keys| && keys[i] == x;
    var d := Validated(s, L, meta, metaKeys, infoOrder, requiredOrder);
    assert d[i].0 == x && d[i].1.error.Some?;
  }

  /** As written, a missing required text field is dropped: its own entry
      carries no error (the error went to the key `''`). */
  lemma MissingRequiredTextDropped(s: Schema, L: Literals, meta: map<string, Val>, metaKeys: seq<string>,
                                   infoOrder: seq<string>, requiredOrder: seq<string>, x: string)
    requires Orders(s, meta, metaKeys, infoOrder, requiredOrder)
    requires x in s.info && s.info[x].required && s.info[x].metatype == "text" && x != "title" && x != "" && x !in meta
    ensures var d := ValidatedAsWritten(s, L, meta, metaKeys, infoOrder, requiredOrder);
      exists i :: 0 <= i < |d| && d[i].0 == x && d[i].1.error.None?
  {
    var st0 := Checked(meta, map[], map[]);
    assert x !in metaKeys;
    SuppliedUntouched(s, L, st0, metaKeys, x);
    var st1 := Supplied(s, L, st0, metaKeys);
    RequiredAsWrittenOutside(s, L, st1, requiredOrder, x);
    OutKeyAt(metaKeys, infoOrder, meta, x);
    var keys := OutKeys(metaKeys, infoOrder, meta);
    var i :| 0 <= i < |keys| && keys[i] == x;
    var d := ValidatedAsWritten(s, L, meta, metaKeys, infoOrder, requiredOrder);
    assert d[i].0 == x && d[i].1.error.None?;
  }

  /** Keys without an error entry come out without an error. */
  lemma OutputWithoutErrors(s: Schema, L: Literals, st: Checked, keys: seq<string>)
    requires OutReady(s, st, keys)
    requires forall i :: 0 <= i < |keys| ==> keys[i] !in st.errors
    ensures !HasErrors(Output(s, L, st, keys))
  {
    var d := Output(s, L, st, keys);
    forall i | 0 <= i < |d|
      ensures d[i].1.error.None?
    {
      assert d[i].1 == OutStep(s, L, st, keys[i]);
    }
  }

  /** The two-field schema of `MissingRequiredTextNoErrors` and an empty
      document leave, as written, only the error under `''`. */
  lemma OnlyBlankKeyInError(s: Schema, L: Literals, x: string)
    requires x != "title" && x in s.info && s.info[x].metatype == "text"
    ensures Required(s, L, Checked(map[], map[], map[]), [x], true).errors.Keys == {""}
  {
    var st0 := Checked(map[], map[], map[]);
    assert Required(s, L, st0, [x][..0], true) == st0;
  }

  lemma OutKeysOfEmpty(x: string)
    ensures OutKeys([], ["lang", x], map[]) == ["lang", x]
  {
    var m: map<string, Val> := map[];
    assert ["lang", x][..1] == ["lang"] && ["lang"][..0] == [];
    assert OutKeys([], [], m) == [];
    assert OutKeys([], ["lang"], m) == ["lang"];
  }

  lemma TwoFieldOrders(s: Schema, x: string, caption: string, default: string)
    requires x != "lang"
    requires s.info == map["lang" := Entry(false, "Language", "lang", "en"), x := Entry(true, caption, "text", default)]
    ensures Orders(s, map[], [], ["lang", x], [x])
  {
    assert s.info.Keys == {"lang", x};
  }

  /** So, as written, a schema whose only field is a required text field and
      a document without it give a result with no error at all. */
  lemma MissingRequiredTextNoErrors(s: Schema, L: Literals, x: string, caption: string, default: string)
    requires x != "title" && x != "" && x != "lang"
    requires s.info == map["lang" := Entry(false, "Language", "lang", "en"), x := Entry(true, caption, "text", default)]
    ensures Orders(s, map[], [], ["lang", x], [x])
    ensures !HasErrors(ValidatedAsWritten(s, L, map[], [], ["lang", x], [x]))
  {
    TwoFieldOrders(s, x, caption, default);
    var st0 := Checked(map[], map[], map[]);
    assert Supplied(s, L, st0, []) == st0;
    OnlyBlankKeyInError(s, L, x);
    OutKeysOfEmpty(x);
    var st2 := Required(s, L, st0, [x], true);
    var keys := ["lang", x];
    assert OutReady(s, st2, keys);
    OutputWithoutErrors(s, L, st2, keys);
  }

  // ---------------------------------------------------------------------
  // MetaInfo

  /** `has_errors()`. */
  predicate HasErrors(d: seq<(string, OutEntry)>)
  {
    exists i :: 0 <= i < |d| && d[i].1.error.Some?
  }

  /** What `_parse(v)` hands to `parse_literal`: the canonical value if
      there is one, else the supplied one, and the type (`text` if none). */
  function ParseArgs(v: OutEntry): (r: Result<(string, string)>)
    ensures r.Ok? <==> v.canonical.Some? || v.supplied.Some?
    ensures r.Ok? ==> r.value.0 == (if v.canonical.Some? then v.canonical.value else v.supplied.value)
    ensures r.Ok? ==> r.value.1 == GetOr(v.metatype, "text")
  {
    var t := GetOr(v.metatype, "text");
    if v.canonical.Some? then Ok((v.canonical.value, t))
    else if v.supplied.Some? then Ok((v.supplied.value, t))
    else Err("KeyError")
  }

  /** `_parse(v)`: `parse_literal` of the value `ParseArgs` picks, which
      raises `KeyError` when there is none and `BadLiteral` when it does not
      parse. */
  function ParseEntry(L: Literals, v: OutEntry): (r: Result<Val>)
    ensures ParseArgs(v).Err? ==> r == Err("KeyError")
    ensures ParseArgs(v).Ok? ==>
      var (x, t) := ParseArgs(v).value;
      (r.Ok? <==> L.parse(VStr(x), t).Some?) && (r.Ok? ==> r.value == L.parse(VStr(x), t).value)
  {
    match ParseArgs(v)
    case Err(m) => Err(m)
    case Ok((x, t)) =>
      match L.parse(VStr(x), t)
      case Some(p) => Ok(p)
      case None => Err("BadLiteral")
  }

  /** The entries `raw_items()` (`raw`) or `items()` walks: those with a
      supplied value, or those with no error or a canonical value. */
  predicate Wanted(v: OutEntry, raw: bool)
  {
    if raw then v.supplied.Some? else v.error.None? || v.canonical.Some?
  }

  /** `raw_items()` (`raw`) or `items()`: the wanted entries, in order, each
      parsed by `_parse`; the first entry that raises stops the walk. */
  function ParseAll(L: Literals, d: seq<(string, OutEntry)>, raw: bool): (r: Result<seq<(string, Val)>>)
    ensures r.Ok? ==> |r.value| <= |d|
  {
    if d == [] then Ok([])
    else if !Wanted(d[0].1, raw) then ParseAll(L, d[1..], raw)
    else
      match ParseEntry(L, d[0].1)
      case Err(m) => Err(m)
      case Ok(a) =>
        match ParseAll(L, d[1..], raw)
        case Err(m) => Err(m)
        case Ok(rest) => Ok([(d[0].0, a)] + rest)
  }

  function RawItems(L: Literals, d: seq<(string, OutEntry)>): Result<seq<(string, Val)>>
  {
    ParseAll(L, d, true)
  }

  function Items(L: Literals, d: seq<(string, OutEntry)>): Result<seq<(string, Val)>>
  {
    ParseAll(L, d, false)
  }

  /** A supplied entry always has a value for `_parse`: `raw_items()` can
      only fail in `parse_literal`. */
  lemma RawEntryHasValue(L: Literals, v: OutEntry)
    requires Wanted(v, true)
    ensures ParseArgs(v).Ok? && ParseEntry(L, v) != Err("KeyError")
  {
  }

  /** The walk succeeds exactly when every wanted entry parses. */
  lemma {:induction false} ParseAllOk(L: Literals, d: seq<(string, OutEntry)>, raw: bool)
    ensures ParseAll(L, d, raw).Ok? <==> forall p :: p in d && Wanted(p.1, raw) ==> ParseEntry(L, p.1).Ok?
  {
    if d != [] {
      ParseAllOk(L, d[1..], raw);
      assert d == [d[0]] + d[1..];
    }
  }

  /** A successful walk holds exactly the wanted entries, parsed. */
  lemma {:induction false} ParseAllMembers(L: Literals, d: seq<(string, OutEntry)>, raw: bool, k: string, a: Val)
    requires ParseAll(L, d, raw).Ok?
    ensures (k, a) in ParseAll(L, d, raw).value <==> exists e :: (k, e) in d && Wanted(e, raw) && ParseEntry(L, e) == Ok(a)
  {
    if d != [] {
      ParseAllMembers(L, d[1..], raw, k, a);
      assert d == [d[0]] + d[1..];
      if (exists e :: (k, e) in d && Wanted(e, raw) && ParseEntry(L, e) == Ok(a)) {
        var e :| (k, e) in d && Wanted(e, raw) && ParseEntry(L, e) == Ok(a);
        if (k, e) != d[0] {
          assert (k, e) in d[1..];
        }
      }
    }
  }

  /** An error entry made for a schema key carries the schema default as its
      canonical value. */
  predicate ErrorsKeyed(s: Schema, errors: map<string, OutEntry>)
  {
    forall k :: k in errors ==> errors[k].error.Some? && (k in s.info ==> errors[k].canonical == Some(s.info[k].default))
  }

  lemma SuppliedStepKeyed(s: Schema, L: Literals, st: Checked, k: string)
    requires k in st.meta && ErrorsKeyed(s, st.errors)
    ensures ErrorsKeyed(s, SuppliedStep(s, L, st, k).errors)
  {
    var r := SuppliedStep(s, L, st, k);
    forall x | x in r.errors
      ensures r.errors[x].error.Some? && (x in s.info ==> r.errors[x].canonical == Some(s.info[x].default))
    {
      if x != k {
        SuppliedStepFrame(s, L, st, k, x);
      }
    }
  }

  lemma {:induction false} SuppliedKeyed(s: Schema, L: Literals, st: Checked, keys: seq<string>)
    requires forall i :: 0 <= i < |keys| ==> keys[i] in st.meta
    requires ErrorsKeyed(s, st.errors)
    ensures ErrorsKeyed(s, Supplied(s, L, st, keys).errors)
  {
    if keys != [] {
      var p := keys[..|keys| - 1];
      SuppliedKeyed(s, L, st, p);
      SuppliedStepKeyed(s, L, Supplied(s, L, st, p), keys[|keys| - 1]);
    }
  }

  lemma {:induction false} RequiredKeyed(s: Schema, L: Literals, st: Checked, keys: seq<string>)
    requires forall i :: 0 <= i < |keys| ==> keys[i] in s.info
    requires ErrorsKeyed(s, st.errors)
    ensures ErrorsKeyed(s, Required(s, L, st, keys, false).errors)
  {
    if keys != [] {
      var p := keys[..|keys| - 1];
      RequiredKeyed(s, L, st, p);
    }
  }

  /** Every entry the output makes for a schema key, or without an error,
      has a value for `_parse`. */
  lemma OutStepHasValue(s: Schema, L: Literals, st: Checked, k: string)
    requires ErrorsKeyed(s, st.errors)
    requires k in st.errors || k in st.meta || k in s.info
    ensures var e := OutStep(s, L, st, k);
      (Wanted(e, false) ==> ParseArgs(e).Ok?) && (k in s.info ==> Wanted(e, false))
  {
  }

  /** The state the output loop of `validate_and_augment` reads: every
      error entry made for a schema key carries the schema default. */
  lemma ValidatedState(s: Schema, L: Literals, meta: map<string, Val>, metaKeys: seq<string>,
                       infoOrder: seq<string>, requiredOrder: seq<string>) returns (st: Checked, keys: seq<string>)
    requires Orders(s, meta, metaKeys, infoOrder, requiredOrder)
    ensures ErrorsKeyed(s, st.errors) && OutReady(s, st, keys)
    ensures forall k :: k in s.info ==> k in keys
    ensures Validated(s, L, meta, metaKeys, infoOrder, requiredOrder) == Output(s, L, st, keys)
  {
    var st0 := Checked(meta, map[], map[]);
    SuppliedKeyed(s, L, st0, metaKeys);
    var st1 := Supplied(s, L, st0, metaKeys);
    RequiredKeyed(s, L, st1, requiredOrder);
    st := Required(s, L, st1, requiredOrder, false);
    keys := OutKeys(metaKeys, infoOrder, meta);
    OutKeysMembers(metaKeys, infoOrder, meta);
  }

  /** `items()` of a result never raises `KeyError`, and when every value
      parses it holds every field of the schema: a schema field in error
      falls back to its default. */
  lemma ItemsCoverSchema(s: Schema, L: Literals, meta: map<string, Val>, metaKeys: seq<string>,
                         infoOrder: seq<string>, requiredOrder: seq<string>, k: string)
    requires Orders(s, meta, metaKeys, infoOrder, requiredOrder)
    requires k in s.info
    ensures var d := Validated(s, L, meta, metaKeys, infoOrder, requiredOrder);
      (forall p :: p in d && Wanted(p.1, false) ==> ParseArgs(p.1).Ok?) &&
      (Items(L, d).Ok? ==> exists a :: (k, a) in Items(L, d).value)
  {
    var st, keys := ValidatedState(s, L, meta, metaKeys, infoOrder, requiredOrder);
    var d := Output(s, L, st, keys);
    forall p | p in d && Wanted(p.1, false)
      ensures ParseArgs(p.1).Ok?
    {
      var i :| 0 <= i < |d| && d[i] == p;
      OutStepHasValue(s, L, st, keys[i]);
    }
    if Items(L, d).Ok? {
      var i :| 0 <= i < |keys| && keys[i] == k;
      OutStepHasValue(s, L, st, k);
      var e := d[i].1;
      assert (k, e) in d && Wanted(e, false);
      ParseAllOk(L, d, false);
      ParseAllMembers(L, d, false, k, ParseEntry(L, e).value);
    }
  }
}
