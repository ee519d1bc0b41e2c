/** docxlite.py: fresh names inside a .docx container, the paths of its
    relationship parts, its units of length, and the bookkeeping of adding
    an image. */
module DocxLite {
  import opened Wrappers
  import opened PyStr

  const MAGIC_WORD: string := "word"
  const REL_URI: string := "http://schemas.openxmlformats.org/officeDocument/2006/relationships"
  const IMAGE_REL_URI: string := REL_URI + "/image"

  // ---------------------------------------------------------------------
  // fresh_name

  /** A name pattern with one `%d`: the text before it and after it. */
  datatype Pattern = Pattern(before: string, after: string)

  /** `pattern % i`. */
  function Format(p: Pattern, i: nat): string
  {
    p.before + NatToString(i) + p.after
  }

  /** Different numbers give different names. */
  lemma FormatInjective(p: Pattern, i: nat, j: nat)
    requires Format(p, i) == Format(p, j)
    ensures i == j
  {
    var s := Format(p, i);
    var a, b := NatToString(i), NatToString(j);
    assert |a| == |b|;
    assert s[|p.before|..|p.before| + |a|] == a;
    assert Format(p, j)[|p.before|..|p.before| + |b|] == b;
    NatToStringInjective(i, j);
  }

  /** `name` is the first of `pattern % 1`, `pattern % 2`, ... that is not
      in `existing`. */
  ghost predicate LeastFree(existing: set<string>, p: Pattern, name: string)
  {
    name !in existing &&
    exists i: nat :: 1 <= i && name == Format(p, i) && forall j: nat :: 1 <= j < i ==> Format(p, j) in existing
  }

  /** `fresh_name(existing_names, pattern)`: the first of `pattern % 1`,
      `pattern % 2`, ... that is not taken. */
  method FreshName(existing: set<string>, p: Pattern) returns (name: string)
    ensures name !in existing
    ensures exists i: nat :: 1 <= i && name == Format(p, i) && forall j: nat :: 1 <= j < i ==> Format(p, j) in existing
    ensures LeastFree(existing, p, name)
  {
    var i: nat := 1;
    ghost var seen: set<string> := {};
    while true
      invariant 1 <= i
      invariant forall j: nat :: 1 <= j < i ==> Format(p, j) in existing
      invariant seen <= existing
      invariant forall x :: x in seen ==> exists j: nat :: 1 <= j < i && x == Format(p, j)
      decreases existing - seen
    {
      name := Format(p, i);
      if name !in existing {
        return;
      }
      forall x | x in seen
        ensures x != name
      {
        var j: nat :| 1 <= j < i && x == Format(p, j);
        if x == name {
          FormatInjective(p, i, j);
        }
      }
      seen := seen + {name};
      i := i + 1;
    }
  }

  // ---------------------------------------------------------------------
  // get_rels_path

  /** `get_rels_path(path)`: `d/f` has its relationships in `d/_rels/f.rels`.
      A path without `/` leaves the format string one argument short. */
  function GetRelsPath(path: string): (r: Result<string>)
    ensures r.Err? <==> '/' !in path
  {
    match LastIndexOf(path, '/')
    case None => Err("TypeError")
    case Some(i) => Ok(path[..i] + "/_rels/" + path[i + 1..] + ".rels")
  }

  /** `rsplit('/', 1)` splits at the last `/`. */
  lemma RelsPathOf(dir: string, file: string)
    requires '/' !in file
    ensures GetRelsPath(dir + "/" + file) == Ok(dir + "/_rels/" + file + ".rels")
  {
    var s := dir + "/" + file;
    assert s == dir + ['/'] + file;
    LastAt(dir, file, '/');
    assert s[..|dir|] == dir && s[|dir| + 1..] == file;
  }

  // ---------------------------------------------------------------------
  // Measurement

  datatype Unit = Px | Emu | Twips

  /** The number of EMUs in one unit. */
  function Scale(u: Unit): nat
  {
    match u
    case Px => 12700
    case Emu => 1
    case Twips => 635
  }

  /** `Px(v)`, `Emu(v)`, `Twips(v)` once `int(v)` is taken. */
  datatype Measurement = Measurement(unit: Unit, value: int)

  /** The `emu` property. */
  function ToEmu(m: Measurement): (r: Measurement)
    ensures r.unit == Emu
  {
    Measurement(Emu, m.value * Scale(m.unit))
  }

  /** The `real` property. */
  function Real(m: Measurement): int
  {
    m.value
  }

  /** A length's `emu` is already in EMUs, so `emu` is idempotent and a
      length in EMUs (as `make_pic` receives them) is written unchanged. */
  lemma EmuOfEmu(m: Measurement)
    ensures ToEmu(ToEmu(m)) == ToEmu(m)
    ensures m.unit == Emu ==> ToEmu(m) == m && Real(ToEmu(m)) == Real(m)
  {
  }

  /** `SectPr(page_width, right_margin, left_margin)`. */
  datatype SectPr = SectPr(pageWidth: Measurement, rightMargin: Measurement, leftMargin: Measurement)

  /** `parse_sectPr(e)` once `pgSz/@w`, `pgMar/@left` and `pgMar/@right` are
      read and `int`-ed: all three lengths are in twips. */
  function ParseSectPr(pageWidth: int, leftMargin: int, rightMargin: int): (r: SectPr)
    ensures r.pageWidth.unit == Twips && r.leftMargin.unit == Twips && r.rightMargin.unit == Twips
    ensures Real(r.pageWidth) == pageWidth && Real(r.leftMargin) == leftMargin && Real(r.rightMargin) == rightMargin
  {
    SectPr(Measurement(Twips, pageWidth), Measurement(Twips, rightMargin), Measurement(Twips, leftMargin))
  }

  /** The text width the docx writer derives from a section:
      `page_width.emu.real - right_margin.emu.real - left_margin.emu.real`. */
  function TextWidthEmu(s: SectPr): int
  {
    Real(ToEmu(s.pageWidth)) - Real(ToEmu(s.rightMargin)) - Real(ToEmu(s.leftMargin))
  }

  /** Converting each length and subtracting gives the twips between the
      margins converted once; the width is positive exactly when the
      margins leave room on the page. */
  lemma TextWidthOfSection(pageWidth: int, leftMargin: int, rightMargin: int)
    ensures TextWidthEmu(ParseSectPr(pageWidth, leftMargin, rightMargin)) ==
      Real(ToEmu(Measurement(Twips, pageWidth - leftMargin - rightMargin)))
    ensures TextWidthEmu(ParseSectPr(pageWidth, leftMargin, rightMargin)) > 0 <==>
      leftMargin + rightMargin < pageWidth
  {
  }

  // ---------------------------------------------------------------------
  // Document.add_image

  /** The `('Relationship', {...}, [])` element added to a part's rels. */
  datatype Relationship = Relationship(target: string, relType: string, id: string)

  /** The pattern of media file names: `word/media/image%d.<extn>`. */
  function MediaPattern(extn: string): Pattern
  {
    Pattern(MAGIC_WORD + "/media/image", "." + extn)
  }

  const RID_PATTERN: Pattern := Pattern("rId", "")

  /** The zip's contents by file name, and the relationships of its main
      document part by id. */
  class Document {
    var z: map<string, seq<bv8>>
    var rels: map<string, Relationship>

    constructor (z: map<string, seq<bv8>>, rels: map<string, Relationship>)
      ensures this.z == z && this.rels == rels
    {
      this.z := z;
      this.rels := rels;
    }

    /** `add_image(f, mime_type)`, with the extension that
        `get_or_add_extn` settles on and the bytes `f.read()` returns. */
    method AddImage(extn: string, img: seq<bv8>) returns (rid: string)
      modifies this
      ensures rid !in old(rels)
      ensures exists p :: (LeastFree(old(z).Keys, MediaPattern(extn), p) && z == old(z)[p := img] &&
        rels == old(rels)[rid := Relationship(p[|MAGIC_WORD| + 1..], IMAGE_REL_URI, rid)])
      ensures LeastFree(old(rels).Keys, RID_PATTERN, rid)
    {
      var p := FreshName(z.Keys, MediaPattern(extn));
      ghost var z0, rels0 := z, rels;
      z := z[p := img];
      ghost var i: nat :| 1 <= i && p == Format(MediaPattern(extn), i);
      MediaSlash(extn, i);
      var slash := IndexOf(p, '/');
      var relP := p[slash.value + 1..];
      rid := FreshName(rels.Keys, RID_PATTERN);
      rels := rels[rid := Relationship(relP, IMAGE_REL_URI, rid)];
      assert LeastFree(z0.Keys, MediaPattern(extn), p) && z == z0[p := img] &&
        rels == rels0[rid := Relationship(p[|MAGIC_WORD| + 1..], IMAGE_REL_URI, rid)];
    }
  }

  /** The first `/` of a media name is the one after `word`. */
  lemma MediaSlash(extn: string, i: nat)
    ensures IndexOf(Format(MediaPattern(extn), i), '/') == Some(|MAGIC_WORD|)
  {
    var w, m := MAGIC_WORD, "media/image" + NatToString(i) + "." + extn;
    assert Format(MediaPattern(extn), i) == w + ['/'] + m;
    assert '/' !in w by {
      assert w == ['w', 'o', 'r', 'd'];
    }
    FirstAt(w, m, '/');
  }

  /** The image's target is relative to the `word` folder:
      `media/image<i>.<extn>`. */
  lemma MediaTarget(extn: string, i: nat)
    ensures Format(MediaPattern(extn), i)[|MAGIC_WORD| + 1..] == "media/image" + NatToString(i) + "." + extn
  {
    var w, m := MAGIC_WORD, "media/image" + NatToString(i) + "." + extn;
    assert Format(MediaPattern(extn), i) == w + "/" + m;
    assert (w + "/" + m)[|w| + 1..] == m;
  }
}
