/** Human languages, identified by ISO 639-1 codes with an optional dialect
    (lang.py): construction, the dialect-free form, the babel name and the
    localisation of fixed strings. */
module Lang {
  import opened Wrappers
  import opened PyStr

  /** The plain languages of `ISO_TO_BABEL`. */
  const Languages: map<string, string> := map[
    "af" := "afrikaans", "id" := "indonesian", "ms" := "malay", "bg" := "bulgarian",
    "ca" := "catalan", "hr" := "croatian", "cs" := "czech", "da" := "danish",
    "nl" := "dutch", "en" := "american", "et" := "estonian", "fi" := "finnish",
    "fr" := "french", "gl" := "galician", "de" := "ngerman", "el" := "greek",
    "he" := "hebrew", "hu" := "hungarian", "is" := "icelandic", "ga" := "irish",
    "it" := "italian", "la" := "latin", "no" := "norsk", "pl" := "polish",
    "pt" := "portuguese", "ro" := "romanian", "ru" := "russian", "es" := "spanish",
    "sk" := "slovak", "sl" := "slovene", "sv" := "swedish", "sr" := "serbian",
    "tr" := "turkish", "uk" := "ukrainian"]

  /** The dialects of `ISO_TO_BABEL`. */
  const Dialects: map<string, string> := map[
    "en-US" := "american", "en-UK" := "british", "en-CA" := "canadian",
    "en-AU" := "australian", "en-NZ" := "newzealand", "fr-FR" := "french",
    "fr-CA" := "canadien", "fr-CH" := "french", "de-DE" := "ngerman",
    "de-AT" := "naustrian", "de-CH" := "ngerman", "pt-BR" := "brazilian"]

  /** `ISO_TO_BABEL`: the language codes known to babel. */
  const IsoToBabel: map<string, string> := Languages + Dialects

  /** `LOCALIZATIONS`: every string has a German translation only. */
  const Localizations: map<string, map<string, string>> := map[
    "Author" := map["de" := "Autor"],
    "Title" := map["de" := "Titel"],
    "Date" := map["de" := "Datum"],
    "Short-title" := map["de" := "Kurztitel"],
    "Subtitle" := map["de" := "Untertitel"],
    "Abstract" := map["de" := "Abstract"],
    "ISBN" := map["de" := "ISBN"],
    "Printing" := map["de" := "Druck"],
    "Confidential" := map["de" := "Vertraulich"],
    "Draft" := map["de" := "Entwurf"],
    "Version" := map["de" := "Version"],
    "Project" := map["de" := "Projekt"],
    "Client" := map["de" := "Klient"],
    "Recipients" := map["de" := "Empf\U{E4}nger"],
    "Recipient" := map["de" := "Empf\U{E4}nger"],
    "Recipient address" := map["de" := "Empf\U{E4}nger Adresse"],
    "Opening" := map["de" := "Er\U{F6}ffnung"],
    "Subject" := map["de" := "Betreff"],
    "Closing" := map["de" := "Schluss"],
    "Signature" := map["de" := "Unterschrift"],
    "Place" := map["de" := "Ort"],
    "Keywords" := map["de" := "Schl\U{FC}sselw\U{F6}rter"],
    "Thanks" := map["de" := "Danksagungen"],
    "Notice" := map["de" := "Notiz"],
    "Affiliation" := map["de" := "Affiliation"],
    "Terms & Conditions" := map["de" := "AGB"],
    "Contents" := map["de" := "Inhalt"],
    "Table of Contents" := map["de" := "Inhaltsverzeichnis"],
    "Table of contents" := map["de" := "Inhaltsverzeichnis"],
    "Start of Contents" := map["de" := "Inhaltsanfang"],
    "yes" := map["de" := "ja"],
    "no" := map["de" := "nein"],
    "Cover image" := map["de" := "Umschlagsabbildung"],
    "Logo" := map["de" := "Logo"],
    "Bibliography" := map["de" := "Bibliographie"],
    "Bibliography-preamble" := map["de" := "Bibliographiepreambel"],
    "Language" := map["de" := "Sprache"],
    "Section-numbering-depth" := map["de" := "Kapitelnummerierungstiefe"],
    "Table of contents depth" := map["de" := "Inhaltsverzeichnisnummerierungstiefe"]]

  /** A `Lang`: its `code`, and the code of its `dialect_free` language
      (its own code when that is the object itself). */
  datatype Lang = Lang(code: string, base: string)

  /** `self.code = code.replace('_', '-')`. */
  function Normalize(code: string): string
  {
    ReplaceChar(code, '_', "-")
  }

  /** The part before the first `-`: `code.split('-')[0]`. */
  function Prefix(code: string): string
  {
    Split(code, "-")[0]
  }

  /** `Lang(code)`: `UnknownLang` unless the normalised code is known; the
      dialect-free form is looked up only when the argument as given
      contains `-`. */
  function MkLang(code0: string): Result<Lang>
  {
    var code := Normalize(code0);
    if code !in IsoToBabel then Err("UnknownLang")
    else if '-' in code0 then
      var p := Prefix(code);
      if p !in IsoToBabel then Err("UnknownLang") else Ok(Lang(code, p))
    else Ok(Lang(code, code))
  }

  /** `self.dialect_free`. */
  function DialectFree(l: Lang): Lang
  {
    Lang(l.base, l.base)
  }

  /** `Lang.is_valid_lang(code)`: `Lang(code)` does not raise. */
  predicate IsValidLang(code: string)
  {
    MkLang(code).Ok?
  }

  /** `Lang.__eq__` (via `Literal`): the same code. */
  predicate LangEq(a: Lang, b: Lang)
  {
    a.code == b.code
  }

  /** `to_babel()`. */
  function ToBabel(l: Lang): (r: string)
    requires l.code in IsoToBabel
    ensures r in IsoToBabel.Values
  {
    IsoToBabel[l.code]
  }

  /** `localize(s)`: English returns `s`; otherwise the translation for the
      code, else the translation for the dialect-free language, else `s`. A
      string missing from the table raises `KeyError` for every language but
      English. */
  function Localize(l: Lang, s: string): Result<string>
    decreases if l.code == l.base then 0 else 1
  {
    if l.code == "en" then Ok(s)
    else if s !in Localizations then Err("KeyError")
    else if l.code in Localizations[s] then Ok(Localizations[s][l.code])
    else if DialectFree(l).code == l.code then Ok(s)
    else Localize(DialectFree(l), s)
  }

  // ---------------------------------------------------------------------
  // Properties

  lemma {:induction false} SplitHeadFrom(p: string, q: string, cur: string)
    requires '-' !in p
    ensures SplitFrom(p + "-" + q, "-", cur)[0] == cur + p
    decreases |p|
  {
    var s := p + "-" + q;
    if p == [] {
      assert s[..1] == "-";
      assert s == "-" + q;
    } else {
      assert s[..1] == [p[0]];
      assert s[1..] == p[1..] + "-" + q;
      assert p[0] in p;
      assert '-' !in p[1..] by {
        assert forall c :: c in p[1..] ==> c in p;
      }
      SplitHeadFrom(p[1..], q, cur + [p[0]]);
      assert cur + [p[0]] + p[1..] == cur + p;
    }
  }

  /** `(p + '-' + q).split('-')[0] == p` when `p` has no dash. */
  lemma SplitHead(p: string, q: string)
    requires '-' !in p
    ensures Prefix(p + "-" + q) == p
  {
    SplitHeadFrom(p, q, "");
  }

  /** No plain language code has a dash ... */
  lemma LanguagesUndashed(code: string)
    requires code in Languages
    ensures '-' !in code
  {
  }

  /** ... so a code of the table with a dash is a dialect. */
  lemma DashedIsDialect(code: string)
    requires code in IsoToBabel && '-' in code
    ensures code in Dialects
  {
    if code in Languages {
      LanguagesUndashed(code);
    }
  }

  /** A dialect code is its two letters, the dash and the rest. */
  lemma DashSplit(code: string)
    requires |code| == 5 && code[2] == '-' && code[0] != '-' && code[1] != '-'
    ensures code == code[..2] + "-" + code[3..] && '-' !in code[..2]
  {
    assert code[..2] == [code[0], code[1]];
  }

  /** Every dialect is two letters, a dash and two more ... */
  lemma DialectShape(code: string)
    requires code in Dialects
    ensures |code| == 5 && code[2] == '-' && code[0] != '-' && code[1] != '-'
  {
  }

  /** The dialects, one by one. */
  lemma DialectCases(code: string)
    requires code in Dialects
    ensures code == "en-US" || code == "en-UK" || code == "en-CA" || code == "en-AU" ||
            code == "en-NZ" || code == "fr-FR" || code == "fr-CA" || code == "fr-CH" ||
            code == "de-DE" || code == "de-AT" || code == "de-CH" || code == "pt-BR"
  {
  }

  /** ... and its first two letters are a plain language. */
  lemma DialectLanguage(code: string)
    requires code in Dialects
    ensures code[..2] in Languages
  {
    DialectCases(code);
    DialectShape(code);
    var p := code[..2];
    assert p == [code[0], code[1]];
    if code[0] == 'e' {
      assert p == "en";
    } else if code[0] == 'f' {
      assert p == "fr";
    } else if code[0] == 'd' {
      assert p == "de";
    } else {
      assert p == "pt";
    }
  }

  /** The prefix of every dialect in the table is in the table too, so the
      constructor never fails on the dialect-free lookup. */
  lemma DialectPrefixKnown(code: string)
    requires code in IsoToBabel && '-' in code
    ensures Prefix(code) in Languages && Prefix(code) in IsoToBabel && '-' !in Prefix(code)
  {
    DashedIsDialect(code);
    DialectShape(code);
    DialectLanguage(code);
    DashSplit(code);
    SplitHead(code[..2], code[3..]);
  }

  lemma {:induction false} NormalizeKeepsDash(code: string)
    ensures '-' in code ==> '-' in Normalize(code)
    ensures '_' !in Normalize(code)
    ensures '_' !in code ==> Normalize(code) == code
  {
    if code != [] {
      NormalizeKeepsDash(code[1..]);
      assert code == [code[0]] + code[1..];
    }
  }

  /** `is_valid_lang(c)` holds exactly when the code with `_` read as `-` is
      a key of the table. */
  lemma ValidLangIff(code: string)
    ensures IsValidLang(code) <==> Normalize(code) in IsoToBabel
  {
    NormalizeKeepsDash(code);
    if Normalize(code) in IsoToBabel && '-' in code {
      DialectPrefixKnown(Normalize(code));
    }
  }

  /** What the constructor builds: the normalised code, whose dialect-free
      form is listed and is its own. */
  lemma MkLangShape(code: string)
    requires IsValidLang(code)
    ensures MkLang(code).value.code == Normalize(code)
    ensures var d := DialectFree(MkLang(code).value); d.code in IsoToBabel && DialectFree(d) == d
  {
  }

  /** The dialect-free form is the prefix language when the argument was
      written with `-`, and the language itself otherwise. */
  lemma MkLangBase(code: string)
    requires IsValidLang(code)
    ensures '-' in code ==> MkLang(code).value.base == Prefix(Normalize(code))
    ensures '-' !in code ==> DialectFree(MkLang(code).value) == MkLang(code).value
  {
  }

  /** A plain language is its own dialect-free form. */
  lemma MkLangPlain(code: string)
    requires code in Languages && '_' !in code
    ensures MkLang(code) == Ok(Lang(code, code))
  {
    NormalizeKeepsDash(code);
    LanguagesUndashed(code);
  }

  /** A dialect spelled with `-` has its first two letters as dialect-free
      form. */
  lemma MkLangDialect(code: string)
    requires code in Dialects && '_' !in code
    ensures MkLang(code) == Ok(Lang(code, code[..2]))
  {
    NormalizeKeepsDash(code);
    DialectShape(code);
    DialectPrefixKnown(code);
    DashSplit(code);
    SplitHead(code[..2], code[3..]);
  }

  lemma {:induction false} NormalizeAppend(a: string, b: string)
    ensures Normalize(a + b) == Normalize(a) + Normalize(b)
    decreases |a|
  {
    if a == [] {
      assert a + b == b;
    } else {
      assert (a + b)[0] == a[0] && (a + b)[1..] == a[1..] + b;
      NormalizeAppend(a[1..], b);
    }
  }

  /** A dialect spelled with `_` is its own dialect-free form. */
  lemma MkLangUnderscored(p: string, q: string)
    requires p + "-" + q in Dialects && '_' !in p && '_' !in q && '-' !in p && '-' !in q
    ensures MkLang(p + "_" + q) == Ok(Lang(p + "-" + q, p + "-" + q))
  {
    NormalizeAppend(p + "_", q);
    NormalizeAppend(p, "_");
    NormalizeKeepsDash(p);
    NormalizeKeepsDash(q);
    assert Normalize("_") == "-";
    assert '-' !in p + "_" + q by {
      assert forall c :: c in p + "_" + q ==> c in p || c == '_' || c in q;
    }
  }

  lemma EnUkListed()
    ensures "en-UK" in Dialects && '_' !in "en-UK" && "en-UK"[..2] == "en"
  {
  }

  /** `Lang('en-UK').dialect_free == Lang('en')` ... */
  lemma DialectOfDashed()
    ensures MkLang("en-UK") == Ok(Lang("en-UK", "en"))
  {
    EnUkListed();
    MkLangDialect("en-UK");
  }

  /** ... but `Lang('en_UK')` is its own dialect-free form, */
  lemma DialectOfUnderscored()
    ensures MkLang("en_UK") == Ok(Lang("en-UK", "en-UK"))
  {
    EnUkSpelled();
    MkLangUnderscored("en", "UK");
  }

  lemma EnUkSpelled()
    ensures "en_UK" == "en" + "_" + "UK" && "en-UK" == "en" + "-" + "UK" && "en" + "-" + "UK" in Dialects
    ensures '_' !in "en" && '_' !in "UK" && '-' !in "en" && '-' !in "UK"
  {
  }

  /** ... though the two compare equal. */
  lemma DialectFreeDependsOnSpelling()
    ensures MkLang("en-UK").Ok? && MkLang("en_UK").Ok?
    ensures LangEq(MkLang("en-UK").value, MkLang("en_UK").value)
    ensures DialectFree(MkLang("en-UK").value) != DialectFree(MkLang("en_UK").value)
  {
    DialectOfDashed();
    DialectOfUnderscored();
  }

  /** `Lang('en') == Lang('en') and Lang('en') != Lang('en_US')`. */
  lemma EqualityIsByCode()
    ensures MkLang("en") == Ok(Lang("en", "en"))
    ensures MkLang("en_US") == Ok(Lang("en-US", "en-US"))
  {
    EnListed();
    MkLangPlain("en");
    EnUsSpelled();
    MkLangUnderscored("en", "US");
  }

  lemma EnListed()
    ensures "en" in Languages && '_' !in "en"
  {
  }

  lemma EnUsSpelled()
    ensures "en_US" == "en" + "_" + "US" && "en-US" == "en" + "-" + "US" && "en" + "-" + "US" in Dialects
    ensures '_' !in "en" && '_' !in "US" && '-' !in "en" && '-' !in "US"
  {
  }

  /** `Lang.is_valid_lang('zh')` is false. */
  lemma NoChinese()
    ensures !IsValidLang("zh")
  {
    ZhPlain();
    ZhUnlisted();
  }

  lemma ZhPlain()
    ensures Normalize("zh") == "zh" && '-' !in "zh"
  {
    NormalizeKeepsDash("zh");
  }

  lemma ZhUnlisted()
    ensures "zh" !in IsoToBabel
  {
    ZhNoLanguage();
    ZhNoDialect();
  }

  lemma ZhNoLanguage()
    ensures "zh" !in Languages
  {
  }

  lemma ZhNoDialect()
    ensures "zh" !in Dialects
  {
  }

  /** `Lang('en').to_babel() == 'american'` ... */
  lemma ToBabelEnglish()
    ensures ToBabel(Lang("en", "en")) == "american"
  {
    assert "en" in Languages && "en" !in Dialects;
  }

  /** ... and `Lang('en-UK').to_babel() == 'british'`. */
  lemma ToBabelBritish()
    ensures ToBabel(Lang("en-UK", "en")) == "british"
  {
    assert "en-UK" in Dialects;
  }

  /** English gives back the string; any other language raises for a
      string the table lacks. */
  lemma LocalizeEnglish(l: Lang, s: string)
    ensures l.code == "en" ==> Localize(l, s) == Ok(s)
    ensures l.code != "en" && s !in Localizations ==> Localize(l, s) == Err("KeyError")
  {
  }

  /** A dialect without its own translation uses the dialect-free
      language's. */
  lemma DialectFallback(l: Lang, s: string)
    requires l.code != "en" && s in Localizations && l.code !in Localizations[s] && l.base != l.code
    ensures Localize(l, s) == Localize(DialectFree(l), s)
  {
  }

  /** The result is `s` itself or a translation for the language or its
      dialect-free form. */
  lemma LocalizeResult(l: Lang, s: string)
    requires Localize(l, s).Ok?
    ensures var r := Localize(l, s).value;
      r == s || (s in Localizations && (
        (l.code in Localizations[s] && r == Localizations[s][l.code]) ||
        (l.base in Localizations[s] && r == Localizations[s][l.base])))
  {
  }

  /** `test_localize` and the doctests of `localize`: German has a
      translation, ... */
  lemma LocalizeGerman()
    ensures Localize(Lang("de", "de"), "Table of Contents") == Ok("Inhaltsverzeichnis")
  {
  }

  /** ... Swiss German (`Lang('de-CH')`) falls back to it, ... */
  lemma LocalizeSwissGerman()
    ensures Localize(Lang("de-CH", "de"), "Table of Contents") == Ok("Inhaltsverzeichnis")
  {
    DialectFallback(Lang("de-CH", "de"), "Table of Contents");
    LocalizeGerman();
  }

  lemma SwissGerman()
    ensures MkLang("de-CH") == Ok(Lang("de-CH", "de"))
  {
    DeChListed();
    MkLangDialect("de-CH");
  }

  lemma DeChListed()
    ensures "de-CH" in Dialects && '_' !in "de-CH" && "de-CH"[..2] == "de"
  {
  }

  /** ... and Malay and British English give back the string. */
  lemma LocalizeUntranslated()
    ensures Localize(Lang("ms", "ms"), "Table of Contents") == Ok("Table of Contents")
    ensures Localize(Lang("en-UK", "en"), "Table of Contents") == Ok("Table of Contents")
  {
  }

  /** A string the table lacks makes even English dialects raise, because
      only the code `en` itself short-cuts the lookup. */
  lemma EnglishDialectUnknownString(s: string)
    requires s !in Localizations
    ensures MkLang("en-UK") == Ok(Lang("en-UK", "en")) && Localize(Lang("en-UK", "en"), s) == Err("KeyError")
  {
    DialectOfDashed();
  }
}
