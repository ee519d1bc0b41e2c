# typesetr converter core, modelled in Dafny

The typesetr converter turns a word-processor document into typeset output. It reads
a Google Docs HTML export, an OpenDocument text or a Word `.docx` file, and builds one
internal document tree. A chain of normalisation passes then cleans the tree up, its
metadata is checked against a style's schema, and a writer produces LaTeX, HTML, ODT
or DOCX.

This project models that core, the tree and the passes between the parsers and the
writers. The model is written as Dafny functions, methods and classes, with their
contracts and lemmas. Each source file of the core has one module of the same name:

- `internal.dfy`: the tree, with its attribute algebra and `mkel`.
- `ezmatch.dfy`: the structural pattern matcher.
- `preprocess.dfy`, `html_parser.dfy`, `odt_parser.dfy` and `docx_parser.dfy`: the
  per-element clean-up the parsers apply.
- `postprocess.dfy`, `postprocess_passes.dfy`, `postprocess_cites.dfy`,
  `postprocess_commands.dfy` and `postprocess_meta.dfy`: the normaliser of
  `postprocess.py`, split by pass.
- `citations.dfy`: the citation rules.
- `sectionize.dfy` and `endnotify.dfy`: section nesting and endnote promotion.
- `literal.dfy`, `lang.dfy` and `metainfo.dfy`: metadata literals, language codes and
  the schema check.
- `latex_writer.dfy`, `html_writer.dfy` and `odt_writer.dfy`: the writers' string
  helpers.
- `docxlite.dfy` and `xmltools.dfy`: the `.docx` container and namespace handling.

Three modules hold shared ground:

- `Wrappers`: `Option` and `Result`. `Err` carries the name of the Python exception
  the source raises.
- `PyStr`: the Python string operations the core uses, such as `strip`, `split`,
  `replace` and the case mappings.
- `Seqs`: generic facts about sequences.

The tree is `Node = Text(text) | Elem(tag, attrs, body)`. Its attributes map names to
a string, a class list, an ordered style dictionary or an error description.

Where the source changes state in place, the model does too:

- Gensym counters, `ListBuilder`, the footnote state, attribute dictionaries and
  child lists are classes whose methods have `modifies` clauses.
- Each such method is proved against a reference function on values.
- Each such loop is a `while` loop with its invariants.

A regular expression of the source is modelled by a hand-written recogniser that
follows the regex's own matching rules. This includes `$` also matching before one
final newline.

Foreign calls become parameters of the model:

- the date parser and the clock (`dateutil`, `datetime.today`);
- the literal parser's type table;
- the `.docx` container's extension lookup;
- the per-paragraph conversion `ListBuilder` calls.

## Model

| member | source | states |
|---|---|---|
| Citations.CleansePost | converter/converter/citations.py:28-57 | the reference definition of `cleanse_post_citation`; see CleanseText, SinglePage, CanonicalPagesShape, NonPagePost, NonPageString, CommaRemark, PostKeptOrRaises |
| Citations.CiteRexExamples | converter/converter/citations.py:18 | `CITE_REX` accepts autocite, textcite, citeyear, citetitlep and (unanchored at its first branch) autocites; it refuses cite, citeyears and parencite |
| Citations.ReSpaceRun | converter/converter/citations.py:20-23 | the `\s*` run of the page pattern: every character in it is ASCII whitespace and the one after it is not |
| Citations.DashesToEnDash | converter/converter/citations.py:51 | after the dash substitution every dash-like character left is EN DASH, and the text starts with a dash exactly when the input did |
| Citations.PageMarksToSpace | converter/converter/citations.py:50 | no `p` survives the marker substitution, and every dash in the output comes from the input |
| Citations.SqueezeSpace | converter/converter/citations.py:49 | every output character is a space or an input character, no two whitespace characters are adjacent, and a leading space is kept exactly when the input had one |
| Citations.DropLeadingComma | converter/converter/citations.py:55 | `^,?\s*` removal yields a suffix of the input that does not start with whitespace |
| Citations.CleanseText | converter/converter/citations.py:28-57 | a post made of one string comes back as one string |
| Citations.SinglePage | converter/converter/citations.py:43-46 | a page reference without further pages keeps only the page number |
| Citations.CanonicalPagesShape | converter/converter/citations.py:47-53 | a multi-page reference has no `p` left, only EN DASH as dash, and no two adjacent whitespace characters |
| Citations.NonPagePost | converter/converter/citations.py:54-55 | any other string-headed post of several items loses a leading comma and whitespace from its first item and keeps the others |
| Citations.NonPageString | converter/converter/citations.py:54-55 | a single string that is not a page reference only loses its leading comma and whitespace |
| Citations.CommaRemark | converter/converter/citations.py:37-38 | the doctest shape: `, ` followed by a remark is beheaded to the remark |
| Citations.PostKeptOrRaises | converter/converter/citations.py:43-57 | an empty post or one headed by an element is returned unchanged, except a single element, on which the page regex raises TypeError |
| DocxLite.FormatInjective | converter/converter/docxlite.py:66-72 | `pattern % i` is injective in i, so `fresh_name` never sees a name twice |
| DocxLite.FreshName | converter/converter/docxlite.py:66-72 | the name returned is not taken, and it is `pattern % i` for the least i >= 1 whose name is free |
| DocxLite.GetRelsPath | converter/converter/docxlite.py:35-37 | the format fails (TypeError) exactly when the path has no `/` |
| DocxLite.RelsPathOf | converter/converter/docxlite.py:35-37 | `d/f` with `f` free of slashes has its relationships at `d/_rels/f.rels` (split at the last slash) |
| DocxLite.ToEmu | converter/converter/docxlite.py:193-195 | the `emu` property is a length in EMUs |
| DocxLite.EmuOfEmu | converter/converter/docxlite.py:187-212 | `emu` is idempotent, and an `Emu` length converts and reads back unchanged (as `make_pic` uses it) |
| DocxLite.ParseSectPr | converter/converter/docxlite.py:214-224 | all three section lengths are twips holding the parsed values |
| DocxLite.TextWidthOfSection | converter/converter/docx_parser.py:365-367 | the writer's text width, converted length by length, equals the twips between the margins converted once, and is positive exactly when the margins leave room |
| DocxLite.Document.constructor | converter/converter/docxlite.py:96-102 | the document starts with the given zip contents and relationships |
| DocxLite.Document.AddImage | converter/converter/docxlite.py:141-158 | the image lands under `word/media/image<i>.<extn>` for the least i >= 1 whose name is free, `rId<j>` for the least free j maps to a relationship targeting that name without `word/`, and nothing else changes |
| DocxLite.MediaSlash | converter/converter/docxlite.py:150 | the first `/` of a media name is the one after `word` |
| DocxLite.MediaTarget | converter/converter/docxlite.py:150 | the relative target is `media/image<i>.<extn>` |
| Endnotify.EndnotifyAll | converter/converter/endnotify.py:15-42 | the reference definition of `endnotify`: every top-level section transformed on its own, the first failure ending the whole; see EndnotifyMaps and the method Endnotify |
| Endnotify.EndnotifySection | converter/converter/endnotify.py:21-41 | one section: its body transformed with a counter from 0, and one `endnotes` section appended when footnotes were collected; see SectionResult, SectionGrows, NoterefsPairAsides, EndnotifyOne |
| Endnotify.TransformBody | converter/converter/endnotify.py:4-12 | the reference definition of `_transform` over a body: the new body and the asides collected, or the first bad note id; see BodyCollects, BodyClean, BodySubst, NoNotesUnchanged, TransformIdempotent, NoteState.Transform |
| Endnotify.AsideHasId | converter/converter/endnotify.py:34-35 | the aside's attributes carry the note id, whatever the note's own attributes hold |
| Endnotify.RefLinksTo | converter/converter/endnotify.py:36-37 | the note reference links to `#<fid>` |
| Endnotify.NoteId | converter/converter/endnotify.py:33 | the id is the note's own `id` when it has one, else `<secid>-fn<k>`; a non-string own id is an error |
| Endnotify.NoteIdsDistinct | converter/converter/endnotify.py:31-33 | different counter values give different generated ids |
| Endnotify.RefBodySize | converter/converter/endnotify.py:32 | the reference's body is the one ordinal string |
| Endnotify.SplitNote | converter/converter/endnotify.py:27-37 | a non-footnote comes back unchanged; a footnote succeeds exactly when its id is usable and shrinks the tree |
| Endnotify.Notes | converter/converter/endnotify.py:4-12 | the footnotes `_transform` meets, in document order, are all footnote elements |
| Endnotify.NotesCons | converter/converter/endnotify.py:6-11 | the footnotes of a body are those of its first item followed by those of the rest |
| Endnotify.Asides | converter/converter/endnotify.py:34-35 | one aside per footnote |
| Endnotify.AsidesOk | converter/converter/endnotify.py:33-35 | building the asides succeeds exactly when every footnote has a usable id |
| Endnotify.AsidesAppend | converter/converter/endnotify.py:31-35 | the asides of two runs of footnotes are those of the first followed by those of the second, numbered on |
| Endnotify.AsidesNumbered | converter/converter/endnotify.py:31-35 | the j-th aside is the j-th footnote numbered k+j+1 |
| Endnotify.BodyCollects | converter/converter/endnotify.py:4-12 | the endnotes `_transform` collects are exactly the asides of the body's footnotes in document order |
| Endnotify.NodeCollects | converter/converter/endnotify.py:4-12 | the same for one element |
| Endnotify.BodyClean | converter/converter/endnotify.py:4-12 | no footnote is left in the transformed body |
| Endnotify.NodeClean | converter/converter/endnotify.py:4-12 | no footnote is left in a transformed element |
| Endnotify.PlainElem | converter/converter/endnotify.py:10-11 | an element that is not a footnote keeps its tag and attributes and has its body transformed |
| Endnotify.FootnoteCollects | converter/converter/endnotify.py:27-37 | a footnote contributes exactly its own aside, and its reference holds no footnote |
| Endnotify.RefUnchanged | converter/converter/endnotify.py:36-37 | a note reference passes through a second transform unchanged |
| Endnotify.NoNotesUnchanged | converter/converter/endnotify.py:4-12 | a body without footnotes is returned as it is, collecting nothing |
| Endnotify.NoNoteUnchanged | converter/converter/endnotify.py:4-12 | an element without footnotes is returned as it is |
| Endnotify.TransformIdempotent | converter/converter/endnotify.py:4-12 | transforming an already transformed body changes nothing |
| Endnotify.OneFootnote | converter/converter/endnotify.py:27-37 | a lone footnote becomes a link to `#<secid>-fn1` with body `1` and one aside carrying its body |
| Endnotify.FirstNoteId | converter/converter/endnotify.py:33 | the first footnote without id is `<secid>-fn1` |
| Endnotify.OneNoteNode | converter/converter/endnotify.py:27-37 | a footnote at counter 0 becomes reference 1 and its aside |
| Endnotify.SectionResult | converter/converter/endnotify.py:21-41 | a section keeps tag and attributes; its body is the transformed body followed by one endnotes section when there were footnotes; a bad id is the error |
| Endnotify.SectionGrows | converter/converter/endnotify.py:38-40 | a section body grows by exactly one item when it had footnotes, by none otherwise |
| Endnotify.Refs | converter/converter/endnotify.py:36-37 | one reference per footnote |
| Endnotify.RefAt | converter/converter/endnotify.py:31-37 | the j-th reference points at the j-th footnote's id, with ordinal k+j+1 |
| Endnotify.RefsAppend | converter/converter/endnotify.py:31-37 | references of two runs of footnotes are those of each, numbered on |
| Endnotify.Subst | converter/converter/endnotify.py:4-12 | replacing footnotes by references keeps the body's length |
| Endnotify.SubstCons | converter/converter/endnotify.py:6-11 | the replacement splits over the first item and the rest |
| Endnotify.BodySubst | converter/converter/endnotify.py:4-12 | the transformed body is the original with each footnote replaced by its reference, in order |
| Endnotify.NodeSubst | converter/converter/endnotify.py:4-12 | the same for one element |
| Endnotify.RefPaired | converter/converter/endnotify.py:31-37 | the j-th reference and the j-th aside share the id, the reference links to it, its body is the ordinal, and the aside keeps the note's body |
| Endnotify.RefsPaired | converter/converter/endnotify.py:27-38 | every reference is paired with its aside in this way |
| Endnotify.NoterefsPairAsides | converter/converter/endnotify.py:21-41 | a transformed section is its body with references substituted for footnotes plus the endnotes section, and reference i pairs with aside i |
| Endnotify.EndnotifyMaps | converter/converter/endnotify.py:15-42 | `endnotify` maps over the sections: it fails exactly when a section fails, and keeps their number and order |
| Endnotify.NoteState.constructor | converter/converter/endnotify.py:25-26 | the per-section counter starts at 0 with no endnotes |
| Endnotify.NoteState.SplitFootnote | converter/converter/endnotify.py:27-37 | `split_footnote` returns the reference or the element unchanged, bumps the counter once per footnote and appends its aside |
| Endnotify.NoteState.Transform | converter/converter/endnotify.py:4-12 | `_transform` returns the transformed body; the counter and endnotes grow by exactly the asides the specification collects |
| Endnotify.NoteState.TransformItem | converter/converter/endnotify.py:9-11 | the same for one element |
| Endnotify.Endnotify | converter/converter/endnotify.py:15-42 | the loop over sections returns the specification's result |
| Endnotify.EndnotifyOne | converter/converter/endnotify.py:22-41 | one iteration returns the specified section |
| EzMatch.Match | converter/converter/ezmatch.py:13-82 | the reference definition of `==` between a pattern and a value: `Var` and `SeqSlice` equality, and Python's tuple, list and dict equality around them, with the bindings made; see VarWithoutPredMatchesAll, SeqWithoutSliceNeedsEqualLength, SeqOpenSliceMatches, SeqStartSliceMatches, DictPatternNeedsSameKeys, LitMatchesIffEqual |
| EzMatch.MkSeqSlice | converter/converter/ezmatch.py:44-48 | construction succeeds exactly when no argument but the last is a slice; a trailing slice becomes the open tail, other arguments the prefix in order; the predicate is kept |
| EzMatch.GetItem | converter/converter/ezmatch.py:53-55 | indexing builds a fresh pattern from the arguments under the same predicate |
| EzMatch.CallSeq | converter/converter/ezmatch.py:50-51 | calling keeps the arguments and installs the new predicate |
| EzMatch.SeqNe | converter/converter/ezmatch.py:81-82 | `!=` is the negation of the match |
| EzMatch.VarWithoutPredMatchesAll | converter/converter/ezmatch.py:23-28 | a `Var` without predicate equals every value and binds it unless its name starts with `_` |
| EzMatch.SeqRejects | converter/converter/ezmatch.py:66-74 | a value `tuple()` cannot take, or one the sequence predicate rejects, never matches |
| EzMatch.MatchItemsSome | converter/converter/ezmatch.py:79 | tuple equality holds exactly when the lengths agree and every item matches its pattern |
| EzMatch.SeqWithoutSliceNeedsEqualLength | converter/converter/ezmatch.py:66-79 | `Seq[p1..pk]` matches exactly the iterables of k items accepted by the predicate whose items match item by item |
| EzMatch.SeqOpenSliceMatches | converter/converter/ezmatch.py:75-78 | `Seq[p1..pk, :]` matches exactly the accepted iterables of at least k items whose first k items match |
| EzMatch.SeqStartSliceMatches | converter/converter/ezmatch.py:75-78 | `Seq[p1..pk, start:]` additionally needs `other[k:]` to equal `start` |
| EzMatch.SeqOpenSliceIgnoresTail | converter/converter/ezmatch.py:75-78 | appending items to a list that matches an open `Seq` keeps it matching |
| EzMatch.DictPatternNeedsSameKeys | converter/converter/ezmatch.py:79 | a dict pattern only equals a dict with exactly its keys |
| EzMatch.LitMatchesIffEqual | converter/converter/ezmatch.py:79 | a pattern without variables matches exactly the equal value and binds nothing |
| EzMatch.LitItemsMatchIffEqual | converter/converter/ezmatch.py:79 | a sequence of such patterns matches exactly the equal sequence |
| EzMatch.SeqOfLitsIsTupleEquality | converter/converter/ezmatch.py:66-79 | `Seq` over plain values is `tuple(other) == args` |
| EzMatch.Var.constructor | converter/converter/ezmatch.py:14-18 | a new `Var` has its name and predicate and no match yet |
| EzMatch.Var.Call | converter/converter/ezmatch.py:20-21 | calling a `Var` gives a fresh `Var` with the same name and the new predicate |
| EzMatch.Var.Eq | converter/converter/ezmatch.py:23-28 | `==` is true exactly when the predicate accepts, records the outcome in `match`, and stores the value when the name is public |
| EzMatch.Var.Ne | converter/converter/ezmatch.py:30-31 | `!=` is the negation of `==` with the same side effects |
| Internal.AllowedTagsDistinct | converter/converter/internal.py:64-67 | `ALLOWED_TAGS` has 51 entries and none twice, which is the module-level assertion |
| Internal.CodeFontMissingComma | converter/converter/internal.py:6-13 | as written, neither `fixed` nor `GNU Unifont` is a code font, but `fixedGNU Unifont` is |
| Internal.CodeFontIntended | converter/converter/internal.py:6-13 | with the comma restored both names are code fonts, the joined name is not, and every other name is classified as before |
| Internal.MkEl | converter/converter/internal.py:77-98 | `mkel` returns the triple exactly when the tag is a string, the attrs a dict whose `style` (if any) is an OrderedDict, and the body a list whose first item is not a list |
| Internal.MkElAcceptsTree | converter/converter/internal.py:77-98 | every element of the tree is accepted by `mkel` |
| Internal.ReprQuoted | converter/converter/endnotify.py:33 | `'%s'` of a class list writes each class as Python 2's `repr`: printable text is quoted with `u'...'`, or with `u"..."` when it holds a single quote and no double one |
| Internal.ReprCharsPlain | converter/converter/endnotify.py:33 | characters `repr` writes as themselves are copied unchanged |
| Internal.MkErr | converter/converter/internal.py:100-102 | an ERR element that keeps the offending content as its body and the description in `info` |
| Internal.MkErrIsMkEl | converter/converter/internal.py:100-102 | `mkerr` builds `('ERR', {'info': [description, (), {}]}, body)` and is accepted by `mkel` |
| Internal.MkCmd | converter/converter/internal.py:104-111 | a CMD element whose single class is the name; a missing body is the empty list |
| Internal.MkLit | converter/converter/internal.py:113-114 | a LIT element whose single class is the name, with empty body |
| Internal.MkCmdWellFormed | converter/converter/internal.py:104-114 | the elements `mkcmd` and `mklit` build are accepted by `mkel`, and the class holds the name |
| Internal.AddClass | converter/converter/internal.py:171-178 | succeeds exactly when an existing class list is already sorted and duplicate-free; the result has a sorted, duplicate-free class list holding the old and new classes, and the other entries unchanged |
| Internal.StyleSet | converter/converter/internal.py:183-184 | `style[k] = v`: k now maps to v, other keys keep their values, and a new key goes to the end of the order |
| Internal.AddStyle | converter/converter/internal.py:186-189 | succeeds exactly when an existing `style` is an OrderedDict; the style is the old one updated with `zip(kvs, kvs[1:])` and the other entries stay |
| Internal.AddStyleOnePair | converter/converter/internal.py:180-189 | adding one pair sets that key and leaves the others |
| Internal.AddStylePairsOverlap | converter/converter/internal.py:183 | `zip(kvs, kvs[1:])` takes overlapping pairs: four arguments give three entries k1:v1, v1:k2, k2:v2 |
| Internal.StyleDict.Set | converter/converter/internal.py:184 | `style[k] = v` on the shared OrderedDict object |
| Internal.AttrDict.IAddStyle | converter/converter/internal.py:180-184 | `iadd_style` fails exactly when a non-OrderedDict `style` is present; otherwise the dict's new value is `add_style` of the old, an existing OrderedDict is updated in place and a missing one is created fresh |
| Internal.AttrDict.AddStyleShared | converter/converter/internal.py:186-189 | `add_style` returns a fresh copy with the added style; when the input already had a style OrderedDict the copy shares it, so the input's value changes too |
| Internal.NotIn | converter/converter/internal.py:210 | `[v for v in bw if v not in aw]` holds exactly the classes of bw missing from aw |
| Internal.MergeAttrs2 | converter/converter/internal.py:191-223 | merging keeps class lists and style OrderedDicts well typed |
| Internal.MergeAttrs | converter/converter/internal.py:225-226 | so does the fold `merge_attrs` |
| Internal.MergeClasses | converter/converter/internal.py:206-210 | the merged class list is a's classes followed by b's classes that a lacks |
| Internal.MergeStyle | converter/converter/internal.py:211-215 | the merged style is a's style updated with b's entries |
| Internal.MergeOthers | converter/converter/internal.py:219-221 | any other key is b's value when b has it, else a's |
| Internal.StyleUpdateGet | converter/converter/internal.py:211-215 | after the update a key has b's last value for it, else a's |
| Internal.StyleUpdateKeys | converter/converter/internal.py:211-215 | the updated order is a's keys followed by b's new keys in first-seen order |
| Internal.MergeWithEmpty | converter/converter/internal.py:191-204 | merging with `{}` gives an equal dict (when the style keys are distinct, as an OrderedDict's are) |
| Lang.MkLang | converter/converter/lang.py:78-83 | the reference definition of `Lang(code)`; see ValidLangIff, MkLangShape, MkLangBase, MkLangPlain, MkLangDialect, MkLangUnderscored |
| Lang.Localize | converter/converter/lang.py:117-147 | the reference definition of `Lang.localize`; see LocalizeEnglish, DialectFallback, LocalizeResult, LocalizeGerman, LocalizeSwissGerman, LocalizeUntranslated |
| Lang.ToBabel | converter/converter/lang.py:108-116 | the babel name of a known language is one of the table's values |
| Lang.SplitHead | converter/converter/lang.py:82-83 | `code.split('-')[0]` of `p-q` is p when p has no dash |
| Lang.DashedIsDialect | converter/converter/lang.py:11-58 | every dashed code in `ISO_TO_BABEL` is one of its dialects |
| Lang.DialectShape | converter/converter/lang.py:11-58 | every dialect code is two letters, a dash and a region |
| Lang.DialectLanguage | converter/converter/lang.py:11-58 | every dialect's language is itself in the table |
| Lang.DialectPrefixKnown | converter/converter/lang.py:78-83 | the `dialect_free` lookup of a dashed known code never raises: its prefix is a known dash-free language |
| Lang.NormalizeKeepsDash | converter/converter/lang.py:79 | `code.replace('_', '-')` leaves no underscore, keeps dashes and changes nothing in a code without underscores |
| Lang.ValidLangIff | converter/converter/lang.py:85-99 | `is_valid_lang` holds exactly when the normalised code is in the table |
| Lang.MkLangShape | converter/converter/lang.py:78-83 | a valid code constructs a `Lang` with the normalised code, whose `dialect_free` is known and is its own `dialect_free` |
| Lang.MkLangBase | converter/converter/lang.py:82-83 | a code spelled with a dash has the prefix as `dialect_free`; any other code is its own |
| Lang.MkLangPlain | converter/converter/lang.py:78-83 | a plain language code is its own dialect-free variant |
| Lang.MkLangDialect | converter/converter/lang.py:78-83 | a dashed dialect's dialect-free variant is its two-letter language |
| Lang.NormalizeAppend | converter/converter/lang.py:79 | the replacement distributes over concatenation |
| Lang.MkLangUnderscored | converter/converter/lang.py:78-83 | a dialect spelled with `_` normalises to the dashed code but, as `'-' in code` tests the raw spelling, is its own dialect-free variant |
| Lang.DialectOfDashed | converter/converter/lang.py:72-73 | the doctest: `Lang('en-UK').dialect_free` is `Lang('en')` |
| Lang.DialectOfUnderscored | converter/converter/lang.py:78-83 | `Lang('en_UK')` has code `en-UK` and is its own dialect-free variant |
| Lang.DialectFreeDependsOnSpelling | converter/converter/lang.py:78-83 | `Lang('en-UK')` and `Lang('en_UK')` are equal but have different dialect-free variants |
| Lang.EqualityIsByCode | converter/converter/lang.py:75-76 | the doctest values: `Lang('en')` and `Lang('en_US')` have different codes, so they differ |
| Lang.NoChinese | converter/converter/lang.py:91-94 | the doctest: `zh` is not a valid language |
| Lang.ToBabelEnglish | converter/converter/lang.py:111-112 | the doctest: `en` is `american` |
| Lang.ToBabelBritish | converter/converter/lang.py:113-114 | the doctest: `en-UK` is `british` |
| Lang.LocalizeEnglish | converter/converter/lang.py:138-141 | English returns the string itself; any other language raises KeyError on a string without localizations |
| Lang.DialectFallback | converter/converter/lang.py:141-146 | a dialect without its own translation falls back to its dialect-free variant |
| Lang.LocalizeResult | converter/converter/lang.py:117-147 | a localization is the string itself or the table's entry for the code or for the dialect-free code |
| Lang.LocalizeGerman | converter/converter/lang.py:127-128 | the doctest: `de` gives `Inhaltsverzeichnis` |
| Lang.LocalizeSwissGerman | converter/converter/lang.py:129-130 | the doctest: `de-CH` falls back to `de` |
| Lang.SwissGerman | converter/converter/lang.py:78-83 | `Lang('de-CH')` has `de` as dialect-free variant |
| Lang.LocalizeUntranslated | converter/converter/lang.py:121-124 | the doctests: `ms` and `en-UK` return the English string |
| Lang.EnglishDialectUnknownString | converter/converter/lang.py:138-146 | `en-UK` is not `EN`, so a string without localizations raises KeyError |
| Literal.ParseLiteral | converter/converter/literal.py:194-215 | the reference definition of `parse_literal`; see UntypedBoolean, UntypedLang, UntypedFails, NoIsFalse, TypedText, TypedBoolean, UnknownType |
| Literal.MkDate | converter/converter/literal.py:121-130 | the reference definition of `Date(supplied)`; see DateTodayIff, DateToday, DateTodayOtherCase, DateIntYear, DateLongYear, DateIntRoundTrip |
| Literal.MultilineFromString | converter/converter/literal.py:93-95 | the reference definition of `Multiline.from_string`; see SplitSemis, SplitJoined, MultilineRoundTrip, MultilineKeepsEscape |
| Literal.MultilineToString | converter/converter/literal.py:96-98 | the reference definition of `Multiline.to_string`; see EscapeLinesPlain, MultilineRoundTrip, MultilineEscapes |
| Literal.BackslashRun | converter/converter/literal.py:94-95 | the run of backslashes before a `;` that the split pattern `(?<!\\)(?:\\\\)*;` inspects |
| Literal.SplitSemis | converter/converter/literal.py:94-95 | `re.split` always yields at least one piece |
| Literal.SplitPlain | converter/converter/literal.py:94-95 | text without `;` or backslash is copied into the current piece |
| Literal.SplitSeparator | converter/converter/literal.py:94-95 | an unescaped `;` ends the current piece |
| Literal.SplitJoined | converter/converter/literal.py:94-98 | splitting the `; `-join of plain lines gives back one piece per line, each but the first with its leading space |
| Literal.EscapePlain | converter/converter/literal.py:97-98 | a line without `;` or backslash is not escaped |
| Literal.EscapeLinesPlain | converter/converter/literal.py:96-98 | `to_string` of plain lines is their `; `-join |
| Literal.UnescapePlain | converter/converter/literal.py:94 | stripping and unescaping a piece gives back the plain line |
| Literal.MultilineRoundTrip | converter/converter/literal.py:93-98 | `from_string(to_string(lines))` is `lines` for non-empty lists of stripped lines without `;` or backslash |
| Literal.MultilineEscapes | converter/converter/literal.py:96-98 | `to_string(['a;b'])` is `'a\\;b'` (Python notation) |
| Literal.MultilineKeepsEscape | converter/converter/literal.py:93-95 | `from_string('a\\;b')` keeps the backslash: the escape of `;` is never undone, so `a;b` does not round-trip |
| Literal.ZeroPad | converter/converter/literal.py:124 | a zero-padded number starts with a digit |
| Literal.IsoFormat | converter/converter/literal.py:124 | `isoformat()` starts with a digit |
| Literal.DateTodayIff | converter/converter/literal.py:121-138 | `to_string` is `today` exactly when the supplied text was `today` |
| Literal.DateTodayOtherCase | converter/converter/literal.py:123-124 | `Today` or `TODAY` is parsed as today's date but written back as the ISO date |
| Literal.DateToday | converter/converter/literal.py:123-124 | `today` parses to today's ISO date and writes back as `today` |
| Literal.DateIntYear | converter/converter/literal.py:125-126 | an integer literal within 64 bits is kept as its own `repr` |
| Literal.DateLongYear | converter/converter/literal.py:125-126 | an integer literal of 2^63 or more gets a `repr` with the `L` suffix, which is no longer an integer literal |
| Literal.DateIntRoundTrip | converter/converter/literal.py:121-138 | an integer year within 64 bits writes back as it was read |
| Literal.UntypedBoolean | converter/converter/literal.py:178-181 | without a type, `yes`/`no` in any case is a boolean, true exactly for `yes` |
| Literal.UntypedLang | converter/converter/literal.py:182-184 | otherwise a valid language code becomes a `Lang` with the normalised code |
| Literal.UntypedFails | converter/converter/literal.py:204-215 | an untyped literal is refused exactly when it is neither a boolean nor a known language |
| Literal.NoIsFalse | converter/converter/literal.py:178-184 | `no` is also a valid language code (Norwegian), but the boolean parser comes first, so it is false |
| Literal.TypedText | converter/converter/literal.py:199-200 | the type `text` returns the literal unchanged |
| Literal.TypedBoolean | converter/converter/literal.py:203-205 | the type `boolean` succeeds exactly for `yes`/`no` in any case |
| Literal.UnknownType | converter/converter/literal.py:203-215 | an unknown type raises KeyError in the lookup, which is caught and reported as BadLiteral |
| MetaInfo.MakeSchema | converter/converter/metainfo.py:72-97 | `MetaSchema(h, gdoc_meta)`: its own contract gives the schema's keys; see SchemaEntries, MakeSchemaAt, SchemaHasLang, SchemaTitleDefault, SchemaFailsOnBadEntry, Defaults |
| MetaInfo.Canonicalize | converter/converter/metainfo.py:115-130 | the reference definition of `_canonicalize`; see CanonicalizeFills, CanonicalizeEmpty, CanonicalizeIdempotent |
| MetaInfo.Validated | converter/converter/metainfo.py:136-238 | `validate_and_augment` with the required check corrected; see ValidatedState, MissingRequiredIsError, UnknownFieldIsError, ValidateAndAugment |
| MetaInfo.ValidatedAsWritten | converter/converter/metainfo.py:136-238 | `validate_and_augment` as written; see MissingRequiredTextDropped, MissingRequiredTextNoErrors, OnlyBlankKeyInError, ValidateAndAugment |
| MetaInfo.MetatypeToDefault | converter/converter/metainfo.py:103-113 | a default exists exactly for the eight metadata types; `no` for boolean, `today` for date, `en` for lang, empty otherwise |
| MetaInfo.CanonicalizeFills | converter/converter/metainfo.py:115-130 | a schema entry gets `required` false, the capitalised key as label, type `text` and its type's default when these are absent; it fails exactly on a non-string default or an unknown type without a default |
| MetaInfo.CanonicalizeEmpty | converter/converter/metainfo.py:117-120 | an empty or missing entry canonicalises to an optional text field labelled by the capitalised key |
| MetaInfo.CanonicalizeIdempotent | converter/converter/metainfo.py:115-130 | a complete entry is left as it is |
| MetaInfo.SchemaEntries | converter/converter/metainfo.py:82-90 | the schema's keys are the supplied keys plus `lang`; a `title` entry that is null fails |
| MetaInfo.MakeSchemaAt | converter/converter/metainfo.py:85-90 | every schema entry is the canonical form of the supplied (or built-in) entry |
| MetaInfo.SchemaHasLang | converter/converter/metainfo.py:86-90 | every schema has `lang`, the built-in one (default `en`, label `Language`) unless the style overrides it |
| MetaInfo.SchemaTitleDefault | converter/converter/metainfo.py:83-84 | a `title` without a default takes the document's title |
| MetaInfo.SchemaFailsOnBadEntry | converter/converter/metainfo.py:85-90 | one entry that cannot be canonicalised makes the schema fail |
| MetaInfo.Defaults | converter/converter/metainfo.py:92-94 | every schema field has a default |
| MetaInfo.AugmentWithDefaultsProps | converter/converter/metainfo.py:132-134 | augmenting has the keys of both; supplied values win and the rest are the defaults |
| MetaInfo.PotentialTypes | converter/converter/metainfo.py:176 | every value has at least one candidate metadata type |
| MetaInfo.ErrorEntry | converter/converter/metainfo.py:141-146 | an error entry holds the problem, the unparsed value when one was supplied, and the field's default when the field is known |
| MetaInfo.CheckField | converter/converter/metainfo.py:162-196 | one step of `check_supplied` equals the specification step `SuppliedStep` |
| MetaInfo.CheckSupplied | converter/converter/metainfo.py:148-196 | the loop over the supplied keys equals `Supplied` |
| MetaInfo.CheckRequired | converter/converter/metainfo.py:198-211 | the loop over the required keys equals `Required`: as written (`asWritten`) a missing required text field is filed under `''` with its name as the value, corrected it is reported under its own key |
| MetaInfo.ResultKeys | converter/converter/metainfo.py:216 | the output keys are the supplied keys followed by the schema keys not supplied |
| MetaInfo.ValidateAndAugment | converter/converter/metainfo.py:136-238 | with `asWritten` the result equals `ValidatedAsWritten`, the source's required check, and otherwise the corrected `Validated`; the canonical metadata has the supplied keys, each mapped to its checked value |
| MetaInfo.Render | converter/converter/metainfo.py:215-238 | the output loop equals `Output` |
| MetaInfo.OutStep | converter/converter/metainfo.py:217-237 | a field without error has its unparsed supplied value and a canonical only when it differs; an erroneous field copies the error entry; label and type are added only when they differ from the defaults |
| MetaInfo.Output | converter/converter/metainfo.py:215-238 | one output entry per key, in order |
| MetaInfo.OutKeysMembers | converter/converter/metainfo.py:216 | a key is output exactly when it was supplied or is in the schema |
| MetaInfo.OutKeysDistinct | converter/converter/metainfo.py:216 | output keys are distinct and start with the supplied keys in order |
| MetaInfo.SuppliedStepFrame | converter/converter/metainfo.py:162-196 | checking one field leaves other fields and their errors alone |
| MetaInfo.SuppliedStepValue | converter/converter/metainfo.py:163-185 | a checked field's canonical value is the supplied one, turned into plain text when it is rich text not of a rich-text field |
| MetaInfo.SuppliedMeta | converter/converter/metainfo.py:162-185 | after `check_supplied` every supplied field holds its checked value |
| MetaInfo.SuppliedUntouched | converter/converter/metainfo.py:162-196 | fields not checked keep their value and error state |
| MetaInfo.SuppliedUnknown | converter/converter/metainfo.py:164-175 | a field not in the schema is reported with the unexpected-field problem |
| MetaInfo.RequiredOutside | converter/converter/metainfo.py:198-211 | `check_required` does not touch fields that are not required |
| MetaInfo.RequiredAsWrittenOutside | converter/converter/metainfo.py:205-208 | as written, a missing required text field records its error under the empty key, not under its own |
| MetaInfo.RequiredReports | converter/converter/metainfo.py:198-211 | corrected, a missing required field other than `title` is reported under its own key, with the text or typed message |
| MetaInfo.OutKeyAt | converter/converter/metainfo.py:216 | every supplied or schema key occurs in the output |
| MetaInfo.UnknownFieldIsError | converter/converter/metainfo.py:164-175 | for an unknown field the output has the error, no canonical, and a supplied value exactly when one was given |
| MetaInfo.MissingRequiredIsError | converter/converter/metainfo.py:198-211 | corrected, a missing required field is an error in the output, so the metadata has errors |
| MetaInfo.MissingRequiredTextDropped | converter/converter/metainfo.py:205-208 | as written, a missing required text field appears in the output without an error |
| MetaInfo.OutputWithoutErrors | converter/converter/metainfo.py:66-67 | an output built without errors reports none |
| MetaInfo.OnlyBlankKeyInError | converter/converter/metainfo.py:207-208 | as written, the only error key is the empty string |
| MetaInfo.MissingRequiredTextNoErrors | converter/converter/metainfo.py:205-208 | as written, a schema with one required text field and no metadata reports no errors |
| MetaInfo.ParseArgs | converter/converter/metainfo.py:46-50 | `_parse` uses the canonical text when present, else the supplied one, with the field's type or `text`; a KeyError when neither exists |
| MetaInfo.ParseEntry | converter/converter/metainfo.py:46-50 | parsing an entry succeeds exactly when the literal parses under its type |
| MetaInfo.ParseAll | converter/converter/metainfo.py:53-61 | parsing keeps at most one value per entry |
| MetaInfo.RawEntryHasValue | converter/converter/metainfo.py:53-56 | an entry that `raw_items` selects always has a value to parse |
| MetaInfo.ParseAllOk | converter/converter/metainfo.py:53-61 | parsing all entries succeeds exactly when every selected entry parses |
| MetaInfo.ParseAllMembers | converter/converter/metainfo.py:53-61 | a pair is in the result exactly when a selected entry with that key parses to that value |
| MetaInfo.SuppliedKeyed | converter/converter/metainfo.py:141-146 | every error of a schema field has a canonical value |
| MetaInfo.RequiredKeyed | converter/converter/metainfo.py:198-211 | `check_required` keeps that invariant |
| MetaInfo.OutStepHasValue | converter/converter/metainfo.py:58-61 | every entry that `items` selects has a value to parse, and every schema field is selected |
| MetaInfo.ValidatedState | converter/converter/metainfo.py:213-238 | the validated output is the rendering of a state that keeps the invariant and lists every schema key |
| MetaInfo.ItemsCoverSchema | converter/converter/metainfo.py:58-61 | `items()` never raises KeyError and holds a value for every schema field |
| LatexWriter.Quote | converter/converter/latex_writer.py:62-64 | the reference definition of `quote`; see QuoteAppend, QuoteCharChanges, QuoteFixedIff, UnquoteQuote, QuoteInjective |
| LatexWriter.Cmd | converter/converter/latex_writer.py:82-89 | the reference definition of `cmd`; see CmdBraces, CmdNoArgs |
| LatexWriter.Env | converter/converter/latex_writer.py:96-103 | the reference definition of `env`; see EnvAround, EnvBraces |
| LatexWriter.HrefEscape | converter/converter/latex_writer.py:214-218 | the reference definition of `_href_escape`; see HrefEscapeAppend, HrefEscapeNoBraces |
| LatexWriter.LatexifyHref | converter/converter/latex_writer.py:231-246 | the reference definition of `latexify_href`; see LatexifyHrefAppend, LatexifyHrefByChar, LatexifyUnsafe, LatexifySafe, LatexifyHrefExamples |
| LatexWriter.QuoteChar | converter/converter/latex_writer.py:19-39 | every character is replaced by a non-empty text |
| LatexWriter.QuoteAppend | converter/converter/latex_writer.py:62-64 | `quote` works character by character: quoting a concatenation is concatenating the quotes |
| LatexWriter.QuoteCharChanges | converter/converter/latex_writer.py:19-39 | a character is rewritten exactly when it is one of the table's keys; others are kept |
| LatexWriter.QuoteFixedIff | converter/converter/latex_writer.py:62-64 | `quote(s) == s` exactly when `s` has no special character |
| LatexWriter.UnquoteQuoteChar | converter/converter/latex_writer.py:19-39 | each replacement can be read back to its character, whatever follows it |
| LatexWriter.UnquoteQuote | converter/converter/latex_writer.py:62-64 | `quote` has a left inverse, so no information is lost |
| LatexWriter.QuoteInjective | converter/converter/latex_writer.py:62-64 | two texts with the same quote are equal |
| LatexWriter.BracesAppend | converter/converter/latex_writer.py:82-103 | the brace balance of a concatenation is the sum of the parts' balances |
| LatexWriter.CmdBraces | converter/converter/latex_writer.py:82-89 | `cmd` adds no unbalanced brace of its own: its balance is that of its name, options and arguments |
| LatexWriter.CmdNoArgs | converter/converter/latex_writer.py:76-89 | without arguments `cmd` ends in `{}`, or in a space for `item` |
| LatexWriter.EnvAround | converter/converter/latex_writer.py:96-103 | `env` is the body between a `\begin` line with options and arguments and an `\end` line |
| LatexWriter.EnvBraces | converter/converter/latex_writer.py:96-103 | `env` adds only balanced braces around what it is given |
| LatexWriter.LStripHash | converter/converter/latex_writer.py:208 | `lstrip('#')` returns a suffix that does not start with `#` |
| LatexWriter.LabelName | converter/converter/latex_writer.py:207-208 | a label's name is read when the `name` attribute is a string, and the match fails otherwise |
| LatexWriter.Others | converter/converter/latex_writer.py:209-210 | the new body has no label anchors and is no longer than the old |
| LatexWriter.Names | converter/converter/latex_writer.py:207-208 | one label per label anchor |
| LatexWriter.ExtractLabels | converter/converter/latex_writer.py:202-211 | the loop returns exactly `Names` and `Others`, and fails exactly when `Names` does |
| LatexWriter.PrefixError | converter/converter/latex_writer.py:206-208 | a failure on a prefix of the body is a failure on the whole |
| LatexWriter.ExtractLabelsPartition | converter/converter/latex_writer.py:206-210 | every element goes either to the labels or to the new body |
| LatexWriter.ExtractLabelsNoLabels | converter/converter/latex_writer.py:202-211 | a body without anchors is returned unchanged with no labels |
| LatexWriter.ExtractLabelsIdempotent | converter/converter/latex_writer.py:202-211 | extracting again from the new body finds nothing and changes nothing |
| LatexWriter.LabelStripsHash | converter/converter/latex_writer.py:207-208 | an anchor named `#x` yields label `x` |
| LatexWriter.HexDigit | converter/converter/latex_writer.py:216 | an upper-case hexadecimal digit |
| LatexWriter.PercentCode | converter/converter/latex_writer.py:216 | `'%%%X' % ord(c)` is three characters starting with `%` for codes 16 to 255 |
| LatexWriter.HrefEscapeAppend | converter/converter/latex_writer.py:214-218 | `_href_escape` works character by character |
| LatexWriter.LatexifyHrefAppend | converter/converter/latex_writer.py:245 | so does `latexify_href` |
| LatexWriter.LatexifyUnsafe | converter/converter/latex_writer.py:218-245 | an unsafe character becomes `\%XX` |
| LatexWriter.LatexifySafe | converter/converter/latex_writer.py:245 | a safe character is kept, except that `#` and `%` get a backslash |
| LatexWriter.LatexifyHrefByChar | converter/converter/latex_writer.py:245 | `latexify_href` is the per-character map |
| LatexWriter.LatexifyHrefExamples | converter/converter/latex_writer.py:241-243 | `{` becomes `\%7B`, a backslash `\%5C` and `#` `\#`, as in the doctest |
| LatexWriter.HrefEscapeNoBraces | converter/converter/latex_writer.py:218 | `_href_escape` leaves no brace |
| LatexWriter.Roman | converter/converter/latex_writer.py:247 | `_NUM2ROMAN` maps each digit to a letter and keeps the length |
| LatexWriter.UrlHref | converter/converter/latex_writer.py:249-250 | an href with balanced braces is kept |
| LatexWriter.UrlHrefPaired | converter/converter/latex_writer.py:249-250 | the href written into `\urldef` has as many `{` as `}` |
| LatexWriter.UrlNameLetters | converter/converter/latex_writer.py:251 | the `\urldef` name is all letters, so it is a valid control sequence |
| LatexWriter.UrlNameInjective | converter/converter/latex_writer.py:251 | distinct counters give distinct names |
| LatexWriter.Writer.Urldef | converter/converter/latex_writer.py:248-253 | appends one `\urldef` line named from the new count and returns the command that uses it |
| LatexWriter.UrldefNamesDistinct | converter/converter/latex_writer.py:251 | two successive `\urldef`s have different names |
| LatexWriter.HIndex | converter/converter/latex_writer.py:296 | `H_TAGS.index` finds exactly the heading tags |
| LatexWriter.SectionOffset | converter/converter/latex_writer.py:295-297 | the offset is defined exactly for a heading tag and lies between -3 and 2 |
| LatexWriter.NewWriter | converter/converter/latex_writer.py:293-300 | a writer starts with no urldefs and that offset; an unknown tag fails |
| LatexWriter.PyIndex | converter/converter/latex_writer.py:368 | Python indexing, negative indices counting from the end |
| LatexWriter.SectionCommand | converter/converter/latex_writer.py:368 | a tag that is not a heading raises ValueError |
| LatexWriter.SectionCommandOf | converter/converter/latex_writer.py:368 | the section command is looked up at index `H_TAGS.index(h) + offset`, negative indices wrapping |
| LatexWriter.CorrespondingIsSection | converter/converter/latex_writer.py:295-296 | the heading the writer was set up with becomes `\section` |
| LatexWriter.SectionCommandWraps | converter/converter/latex_writer.py:368 | with `h4` as sections, `h1` wraps to the last command, `subsubparagraph` |
| LatexWriter.LatexifyMetavarname | converter/converter/latex_writer.py:787 | the name is refused exactly when it has a character outside `a-z` and `-` |
| LatexWriter.MetavarnameLetters | converter/converter/latex_writer.py:786-789 | the result starts with `tystr` and is all letters |
| LatexWriter.MetavarnameOnePart | converter/converter/latex_writer.py:788-792 | a name without `-` becomes `tystr` + name |
| LatexWriter.MetavarnameThreeParts | converter/converter/latex_writer.py:788-789 | parts after the first are capitalised |
| LatexWriter.MetavarnameExample | converter/converter/latex_writer.py:791 | `multi-part-name` becomes `tystrmultiPartName` |
| OdtParser.InsertIntSorted | converter/converter/odt_parser.py:415 | inserting into a sorted list keeps it sorted and adds exactly one copy of the element |
| OdtParser.SortIntsSorted | converter/converter/odt_parser.py:415 | `sorted(levels)` is sorted and a permutation of `levels` |
| OdtParser.SortedUnique | converter/converter/odt_parser.py:415 | two sorted permutations of the same list are equal, so `sorted` is determined by its specification |
| OdtParser.DepthsOf | converter/converter/odt_parser.py:416-419 | the last level always gets a depth |
| OdtParser.Visit | converter/converter/odt_parser.py:418 | each step gives the next level a depth |
| OdtParser.DepthsOfKeys | converter/converter/odt_parser.py:416-419 | the depths are given for exactly the levels in the list |
| OdtParser.RelDepths | converter/converter/odt_parser.py:411-419 | the loop computes `DepthsOf` of the sorted levels |
| OdtParser.RelDepthsStep | converter/converter/odt_parser.py:417-418 | a level's depth is one more than its predecessor's when it follows it directly, else zero |
| OdtParser.RelDepthsKeys | converter/converter/odt_parser.py:413-419 | every level gets a depth, and `{}` for no levels |
| OdtParser.RelDepthsAreRuns | converter/converter/odt_parser.py:411-419 | for distinct levels, the depth of `x` is the number of levels `x-1, x-2, ...` directly below it that are present |
| OdtParser.RelDepthsMinimumIsZero | converter/converter/odt_parser.py:416 | the smallest level has depth 0 |
| OdtParser.RelDepthsExample | converter/converter/odt_parser.py:587-588 | the module's own assertion on `[1, 2, 3, 5, 6, 7, 8, 10, 9]` |
| OdtParser.RelDepthsDuplicateRestarts | converter/converter/odt_parser.py:417-418 | a repeated level restarts at depth 0: `[2, 1, 2]` gives level 2 depth 0, the later entry overwriting the earlier |
| OdtParser.ExtractHeader | converter/converter/odt_parser.py:205-229 | a row is a header exactly when every cell is blank or holds one bold paragraph; the attributes recorded are those of each cell, and none on failure |
| OdtParser.BlankCellKeepsBackground | converter/converter/odt_parser.py:212-218 | a blank cell passes on only its background colour |
| OdtParser.BoldCellIsHeader | converter/converter/odt_parser.py:219-224 | a cell with a bold paragraph, directly or inside a span, is a header cell with the merged cell and paragraph attributes |
| OdtParser.TextCellIsNotHeader | converter/converter/odt_parser.py:225-227 | a cell with plain text is not |
| OdtParser.ColWithClasses | converter/converter/odt_parser.py:239-243 | a header cell's classes are added to its column, which keeps its tag and body; without classes the column is unchanged |
| OdtParser.HeaderRow | converter/converter/odt_parser.py:236-245 | each cell becomes a `th` with its recorded attributes and its column gets its classes; there must be a column per cell |
| OdtParser.HeadCol | converter/converter/odt_parser.py:253 | the first cell gets the `headcol` class and keeps tag and body |
| OdtParser.HeaderColumn | converter/converter/odt_parser.py:249-255 | every row's first cell is replaced by its `headcol` form, the rest of the row kept |
| OdtParser.HeadColRowIs | converter/converter/odt_parser.py:252-254 | one row of that loop |
| OdtParser.Children | converter/converter/odt_parser.py:231-232 | the filtered lists hold only elements of that tag |
| OdtParser.FirstCells | converter/converter/odt_parser.py:248 | the first cell of every row, defined exactly when no row is empty |
| OdtParser.RowPass | converter/converter/odt_parser.py:234-245 | the header-row pass changes at most the first row, and nothing when it is not a header; when every cell of the first row is a header cell, that row becomes a `tr` of `th` cells with the header attributes and the cells' bodies, the pass succeeds exactly when every such cell has a `col` at its index, and then each `col` gains the header cell's classes |
| OdtParser.HeadColCaseRows | converter/converter/odt_parser.py:247-250 | when the first cells form a header column, every row has a first cell that is an element |
| OdtParser.ColumnPass | converter/converter/odt_parser.py:247-255 | the header-column pass raises IndexError on an empty row and changes nothing when the first column is not a header; when it is, the pass succeeds exactly when every first cell takes the `headcol` class, and then each row's first cell has that class added and the other cells are kept |
| OdtParser.ParseTableBody | converter/converter/odt_parser.py:204-256 | an empty text child or a table without rows raises IndexError; otherwise a `colgroup` of the columns (with the header classes added in the header-row case) followed by one `tr` per row: the first row turned into `th` cells in the header-row case, and every row's first cell given `headcol` in the header-column case, unchanged when there is no header row or column |
| OdtParser.BumpListLevel | converter/converter/odt_parser.py:189-192 | the level goes up by one and the style is replaced only when a new one is given |
| OdtParser.BumpTwiceKeepsStyle | converter/converter/odt_parser.py:189-192 | bumping twice without a style keeps the style |
| OdtParser.CheckIn | converter/converter/odt_parser.py:355-358 | a value passes exactly when it is allowable, else TypeError |
| OdtParser.SetAttr | converter/converter/odt_parser.py:363-364 | a `Sty` attribute can never be set: TypeError |
| OdtParser.CheckInExamples | converter/converter/odt_parser.py:320-348 | `list` is a style type and `ol` is not; `start` is an alignment and `middle` is not; `page` is a paragraph break and `line` is not |
| OdtWriter.ColorSpanGroups | converter/converter/odt_writer.py:80-81 | a match of `COLOR_SPAN_REX` and its two groups; see BgGroup, GroupsShape, GroupsUnique, ColorNameGroups |
| OdtWriter.MakeColorStyleName | converter/converter/odt_writer.py:82-86 | the reference definition of `make_color_style_name`; see ColorStyleNameRoundTrip, NewlineBackground |
| OdtWriter.CreateColorStyle | converter/converter/odt_writer.py:49-53 | the reference definition of `create_color_style`; see ColorStyleFor |
| OdtWriter.StyleFor | converter/converter/odt_writer.py:188-197 | the style `ensure_minimal_styles` creates for a name; see SpanStylesCreatable, ImageStyleFails, ColorStyleFor, ColorNotMinimal |
| OdtWriter.OdtifyBasestring | converter/converter/odt_writer.py:130-133 | the reference definition of `odtify_basestring`; see OdtifyAppend, OdtifyOne, OdtifyByChar |
| OdtWriter.OdtifyNode | converter/converter/odt_writer.py:149-166 | `odtify` on one node; see NodeStylesCreatable, TextOdtified, FixedSpan, FixedSpanWithAttrs, SpanStyle |
| OdtWriter.OdtifyBody | converter/converter/odt_writer.py:156-157 | `odtify` on a list; see BodyStylesCreatable |
| OdtWriter.CleanseInternal | converter/converter/odt_writer.py:127-128 | the reference definition of `cleanse_internal`; see CleanseLeavesHandled |
| OdtWriter.BgGroup | converter/converter/odt_writer.py:80-81 | `Bg((?:[0-9a-f]{6})?)$` matches exactly `Bg` followed by an empty or six-digit colour, optionally with one final newline, and yields the colour |
| OdtWriter.GroupsShape | converter/converter/odt_writer.py:80-81 | a name the regex matches is the prefix, a colour group, `Bg` and a colour tail |
| OdtWriter.GroupsUnique | converter/converter/odt_writer.py:80-81 | the regex's split of a name into its two groups is unique |
| OdtWriter.ColorNameGroups | converter/converter/odt_writer.py:80-81 | the regex reads back the two colours a name was built from |
| OdtWriter.ColorStyleNameRoundTrip | converter/converter/odt_writer.py:82-85 | `make_color_style_name` passes its assertion exactly when both colours (without `#`) are empty or six lower-case hex digits, and then the regex reads them back |
| OdtWriter.NewlineBackground | converter/converter/odt_writer.py:80-85 | a background of `#` + newline passes the assertion, since `$` also matches before a final newline, and reads back as empty |
| OdtWriter.NameGroupsValid | converter/converter/odt_writer.py:80-81 | a matched name has valid groups |
| OdtWriter.SpanStylesCreatable | converter/converter/odt_writer.py:39-48 | every style a fixed span handler asks for is in `ODT_MINIMAL_STYLES`, so `ensure_minimal_styles` can create it |
| OdtWriter.ImageStyleFails | converter/converter/odt_writer.py:193-196 | `Image` is a minimal style, but its entry `ODT_IMAGE_STYLE_TEMPLATE` is a plain string, so `style(name)` raises TypeError |
| OdtWriter.MinimalNotColor | converter/converter/odt_writer.py:39-48 | no minimal style name looks like a colour span name |
| OdtWriter.ColorStyleFor | converter/converter/odt_writer.py:49-52 | the style made for a colour span name has the text properties of its two colours |
| OdtWriter.ColorNotMinimal | converter/converter/odt_writer.py:193 | a colour span name is not looked up among the minimal styles |
| OdtWriter.OdtifyAppend | converter/converter/odt_writer.py:130-133 | `odtify_basestring` works character by character |
| OdtWriter.OdtifyOne | converter/converter/odt_writer.py:130-133 | each character's escape: `&`, `<`, `>`, a space and a tab have their entity or tag, others are kept |
| OdtWriter.OdtifyByChar | converter/converter/odt_writer.py:130-133 | the chain of replacements is the per-character map, so later replacements never rewrite the output of earlier ones |
| OdtWriter.SpanStyle | converter/converter/odt_writer.py:89-99 | a fixed-style span with attributes fails the assertion; a plain span with a style attribute takes its colour name |
| OdtWriter.BodyStylesCreatable | converter/converter/odt_writer.py:149-160 | `odtify` only adds to the required styles, and every style it adds can be created |
| OdtWriter.NodeStylesCreatable | converter/converter/odt_writer.py:88-113 | the same for one node |
| OdtWriter.SpanNameCreatable | converter/converter/odt_writer.py:91-100 | the style a span requires can be created |
| OdtWriter.TextOdtified | converter/converter/odt_writer.py:154-155 | a text node is escaped and requires no style |
| OdtWriter.FixedSpan | converter/converter/odt_writer.py:99-121 | `b`, `i`, `s`, `u`, `sub` and `sup` become a span of their style around the converted body, which is added to the required styles |
| OdtWriter.FixedSpanWithAttrs | converter/converter/odt_writer.py:90 | such a span with attributes fails the assertion |
| OdtWriter.CleanseLeavesHandled | converter/converter/odt_writer.py:127-128 | `cleanse_internal` leaves only tags `odtify` handles, and keeps all text |
| HtmlWriter.IndentText | converter/converter/html_writer.py:183-185 | the reference definition of `_indent`; see IndentByChar, IndentExample, IndentCarriageReturn, IndentCarriageReturnNewline, IndentLoneCarriageReturn |
| HtmlWriter.SpaceKludge | converter/converter/html_writer.py:146-152 | the reference definition of `_space_kludge`; see SpaceKludgeLines, SpaceKludgeNoTrailing, SpaceKludgeStripped, SpaceKludgeIdempotent |
| HtmlWriter.MaybeCdatafy | converter/converter/html_writer.py:177-181 | the reference definition of `maybe_cdatafy`; see CdatafyUnchangedIff, CdataEscapeSafe |
| HtmlWriter.ShiftTag | converter/converter/html_writer.py:527-529 | the heading shift of `handle_fragment`; see ShiftLevel, ShiftTagHeading |
| HtmlWriter.AttrText | converter/converter/html_writer.py:135-140 | the value `encode_attr` renders for a key; see EncodeClassAndStyle, StyleNotInClass, SingleLetterKeyIsJoined |
| HtmlWriter.EncodeAttr | converter/converter/html_writer.py:127-141 | the reference definition of `encode_attr`; see EncodeAttrs, EncodeAttrsOrderFree, EncodeClassAndStyle |
| HtmlWriter.FirstBreak | converter/converter/html_writer.py:185 | the first character at which `splitlines` ends a line, or none |
| HtmlWriter.BreakLen | converter/converter/html_writer.py:185 | a break is one character, or two exactly for `\r\n` |
| HtmlWriter.SplitLinesKeep | converter/converter/html_writer.py:185 | `splitlines(True)` loses nothing: its lines concatenate back to the text |
| HtmlWriter.IndentRefLine | converter/converter/html_writer.py:183-185 | one line of `_indent` gets the indent in front of it |
| HtmlWriter.IndentByChar | converter/converter/html_writer.py:183-185 | `_indent` puts the indent before every line, except a line that is only `\n`, with `\r\n`, `\r` and the other Unicode breaks ending lines |
| HtmlWriter.IndentExample | converter/converter/html_writer.py:183-185 | empty lines are not indented, lines of spaces are |
| HtmlWriter.IndentCarriageReturn | converter/converter/html_writer.py:185 | a lone `\r` ends a line |
| HtmlWriter.IndentCarriageReturnNewline | converter/converter/html_writer.py:185 | `\r\n` ends one line, not two |
| HtmlWriter.IndentLoneCarriageReturn | converter/converter/html_writer.py:184 | a line that is only `\r` is indented, since only `\n` is exempt |
| HtmlWriter.RStripAll | converter/converter/html_writer.py:152 | every line is right-stripped |
| HtmlWriter.JoinSplit | converter/converter/html_writer.py:152 | splitting a newline-join of newline-free lines gives them back |
| HtmlWriter.SpaceKludgeLines | converter/converter/html_writer.py:146-152 | the output's lines are the right-stripped lines of the stripped input |
| HtmlWriter.SpaceKludgeNoTrailing | converter/converter/html_writer.py:147 | no output line ends in whitespace |
| HtmlWriter.SpaceKludgeStripped | converter/converter/html_writer.py:146-152 | the output has no leading or trailing whitespace |
| HtmlWriter.SpaceKludgeIdempotent | converter/converter/html_writer.py:146-152 | applying `_space_kludge` twice is applying it once |
| HtmlWriter.ReplaceNotShorter | converter/converter/html_writer.py:181 | the `]]>` escape never shortens the text |
| HtmlWriter.CdatafyUnchangedIff | converter/converter/html_writer.py:177-181 | `maybe_cdatafy` leaves the text unchanged exactly when it has neither `<` nor `&` |
| HtmlWriter.CdataEscapeSafe | converter/converter/html_writer.py:181 | the escaped text never contains `]]>`, so it cannot end the CDATA section |
| HtmlWriter.DropNonAlnum | converter/converter/html_writer.py:198-200 | skipping a run of non-alphanumerics keeps the letters and digits |
| HtmlWriter.BibliographyAnchor | converter/converter/html_writer.py:198-200 | the anchor keeps the key's ASCII letters and digits in order, and every run of other characters is one `-` |
| HtmlWriter.AnchorFixed | converter/converter/html_writer.py:198-200 | an anchor-shaped key is its own anchor |
| HtmlWriter.AnchorIdempotent | converter/converter/html_writer.py:198-200 | so `_bibliography_anchor` is idempotent |
| HtmlWriter.ShiftLevel | converter/converter/html_writer.py:527-529 | the shifted level is clamped to 1..6 and equals `n + shift` inside that range |
| HtmlWriter.HeadingTagLevel | converter/converter/html_writer.py:529 | `'h%d' % n` is a heading tag of level `n` |
| HtmlWriter.ShiftTagHeading | converter/converter/html_writer.py:527-529 | a shifted heading is a heading, shifted by `h_shift` when that stays in range, and the shift keeps the order of levels |
| HtmlWriter.DottedParts | converter/converter/html_writer.py:533-537 | a dotted tag splits at its first dot into a non-empty tag name (default `span`) without a dot and a class |
| HtmlWriter.DotTag | converter/converter/html_writer.py:533-538 | a tag without a dot is unchanged; the resulting tag never has a dot |
| HtmlWriter.DottedSplit | converter/converter/html_writer.py:536-537 | `x.c` gives tag `x`, or `span` for `.c`, and class `c` |
| HtmlWriter.DottedPagebreak | converter/converter/html_writer.py:534-535 | `.pagebreak` becomes a `div` with class `pagebreak` |
| HtmlWriter.DotTagAddsClass | converter/converter/html_writer.py:538 | the class is added and the old classes are kept |
| HtmlWriter.EmittedClasses | converter/converter/html_writer.py:566-569 | only the class attribute changes |
| HtmlWriter.EmittedClassesSorted | converter/converter/html_writer.py:566-569 | the emitted classes are sorted without duplicates, the same set as before, and emitting twice changes nothing more |
| HtmlWriter.Chars | converter/converter/html_writer.py:136 | `" ".join` of a string joins its characters |
| HtmlWriter.Keys | converter/converter/html_writer.py:136 | `" ".join` of a dict joins its keys |
| HtmlWriter.StylePairs | converter/converter/html_writer.py:138 | each style item is written `key:value` |
| HtmlWriter.EncodeAttrs | converter/converter/html_writer.py:124-144 | no attributes give the empty string; otherwise a space and the rendered attributes in sorted key order |
| HtmlWriter.EncodeAttrsOrderFree | converter/converter/html_writer.py:143-144 | the result does not depend on the dict's iteration order |
| HtmlWriter.EncodeClassAndStyle | converter/converter/html_writer.py:135-141 | `class` is written as its space-joined classes and `style` as `;`-joined `key:value` pairs, both escaped |
| HtmlWriter.StyleNotInClass | converter/converter/html_writer.py:135-137 | `style` is not a substring of `class`, so a style reaches its own branch |
| HtmlWriter.SingleLetterKeyIsJoined | converter/converter/html_writer.py:135-136 | `k in 'class'` is a substring test, so the key `s` with a string value is written with its characters space-joined |
| Postprocess.Plaintextify | converter/converter/postprocess.py:94-108 | the reference definition of `plaintextify`; see PlaintextifyIsTextOutsideFootnotes |
| Postprocess.BlankNode | converter/converter/postprocess.py:71-89 | the reference definition of `blank`; see BlankText, BlankBodyAll, BlankExamples, EmptyTextAndSpanAreBlank, NonBlankString, TextInSpanIsNotBlank |
| Postprocess.CoalesceParents | converter/converter/postprocess.py:292-301 | the last branch of `coalesce`; its own contract bounds the size, and TidyOrdinaryElement states what each element becomes |
| Postprocess.PreLoop | converter/converter/postprocess.py:173-179 | the inner `pre` loop of `_coalesce_blocks`; see PreLoopCode, PreLoopExit, PreRun |
| Postprocess.NonPreLoop | converter/converter/postprocess.py:180-193 | the inner non-`pre` loop of `_coalesce_blocks`; see NonPreLoopStep, NonPreLoopExit, NonPreRun |
| Postprocess.BlankText | converter/converter/postprocess.py:83-84 | a string is blank exactly when it is all whitespace |
| Postprocess.BlankBodyAll | converter/converter/postprocess.py:88-89 | a body is blank exactly when every element is |
| Postprocess.BlankExamples | converter/converter/postprocess.py:74-75 | the doctest: a space, a tab and a named empty link are blank |
| Postprocess.BlankLinkExample | converter/converter/postprocess.py:78-79 | the doctest: a link holding an empty string and an empty span is blank |
| Postprocess.EmptyTextAndSpanAreBlank | converter/converter/postprocess.py:85-87 | any element not in `NEVER_BLANK` holding only those is blank |
| Postprocess.NonBlankExamples | converter/converter/postprocess.py:76-77 | the doctest: `x` is not blank |
| Postprocess.NonBlankImageExample | converter/converter/postprocess.py:70-77 | the doctest: an image is never blank |
| Postprocess.NonBlankString | converter/converter/postprocess.py:83-84 | a string starting with a visible character is not blank |
| Postprocess.NonBlankLinkExample | converter/converter/postprocess.py:80-81 | the doctest: a link with text in a span is not blank |
| Postprocess.TextInSpanIsNotBlank | converter/converter/postprocess.py:85-89 | any element not in `NEVER_BLANK` with visible text inside is not blank |
| Postprocess.WhackElt | converter/converter/postprocess.py:121-133 | `whack_elt` never makes the tree bigger |
| Postprocess.Whack | converter/converter/postprocess.py:110-119 | neither does `whack` |
| Postprocess.WhackIsWhackElt | converter/converter/postprocess.py:119 | `whack` is `whack_elt` with the predicate applied to the tag |
| Postprocess.WhackKeepsTexts | converter/converter/postprocess.py:121-133 | splicing keeps every string, in order |
| Postprocess.WhackRemovesTag | converter/converter/postprocess.py:121-133 | no element with a matching tag is left, at any depth |
| Postprocess.WhackWithoutMatchIsIdentity | converter/converter/postprocess.py:121-133 | a body without matching tags is returned unchanged |
| Postprocess.WhackExamples | converter/converter/postprocess.py:113-117 | the doctest: de-bolding splices `b` elements, killing removes them with their text |
| Postprocess.WhackKeepsNoTag | converter/converter/postprocess.py:121-133 | whacking adds no tag that was not there |
| Postprocess.WhackAllLeavesText | converter/converter/postprocess.py:104 | `whack(bool, ...)` leaves only strings |
| Postprocess.PlaintextifyIsTextOutsideFootnotes | converter/converter/postprocess.py:94-108 | `plaintextify` is the concatenated text of the body without its footnotes |
| Postprocess.Run | converter/converter/postprocess.py:275 | `groupby` takes a non-empty run of elements with the same key, and the next element has another key |
| Postprocess.DropBogus | converter/converter/postprocess.py:268-283 | what is left has no bogus element: no empty non-void element, no block holding only blank text, no empty link without a name |
| Postprocess.TextNodes | converter/converter/postprocess.py:175-178 | one text node per string |
| Postprocess.StyleMerge | converter/converter/postprocess.py:195-199 | the keys are kept, `style` is added, the style is the old one updated by the new items, and other attributes are unchanged |
| Postprocess.UnwrapParentChild | converter/converter/postprocess.py:229-243 | `_coalesce_parent_child` yields one element no bigger than the parent |
| Postprocess.HeadingLeftovers | converter/converter/postprocess.py:254-257 | a heading without text yields only its elements other than anchors |
| Postprocess.Tidy | converter/converter/postprocess.py:262-305 | `tidy` never makes the tree bigger, which is what makes its recursion terminate |
| Postprocess.CoalesceGroup | converter/converter/postprocess.py:276-301 | the same for one `groupby` group |
| Postprocess.CoalesceSiblings | converter/converter/postprocess.py:139-145 | the same for `_coalesce_siblings` |
| Postprocess.CoalesceParentChild | converter/converter/postprocess.py:207-243 | the same for `_coalesce_parent_child` |
| Postprocess.TidyHeading | converter/converter/postprocess.py:245-257 | the same for `_tidy_heading` |
| Postprocess.CoalesceBlocks | converter/converter/postprocess.py:162-193 | the same for `_coalesce_blocks` |
| Postprocess.QuoteItem | converter/converter/postprocess.py:182-189 | one block item adds at most two wrapper elements |
| Postprocess.TidySplitsAtRuns | converter/converter/postprocess.py:275 | `tidy` handles a maximal run of same-key elements and then the rest |
| Postprocess.RunOfMaximalGroup | converter/converter/postprocess.py:275 | a maximal run is exactly one group |
| Postprocess.TidyOneGroup | converter/converter/postprocess.py:275-301 | `tidy` of one group is that group coalesced |
| Postprocess.TidyStrings | converter/converter/postprocess.py:276-277 | a run of strings becomes their concatenation |
| Postprocess.TidyIsNotIdempotent | converter/converter/postprocess.py:304-305 | `tidy` is not idempotent: unwrapping a span leaves two strings that only a second pass joins |
| Postprocess.TidyFirstPass | converter/converter/postprocess.py:139-145 | a string and a plain span give two strings |
| Postprocess.TidyLoneSpan | converter/converter/postprocess.py:141-143 | a plain span is unwrapped |
| Postprocess.TidySecondPass | converter/converter/postprocess.py:276-277 | two strings are joined |
| Postprocess.TidyMergesSiblings | converter/converter/postprocess.py:139-145 | adjacent inline elements (or blockquotes) with the same tag and attributes merge into one holding their tidied bodies, dropped when bogus |
| Postprocess.TidyUnwrapsSpans | converter/converter/postprocess.py:141-143 | adjacent plain spans are replaced by their tidied contents, without bogus elements |
| Postprocess.TidyKeepsCommands | converter/converter/postprocess.py:290-292 | `CMD` and `LIT` elements are kept untouched |
| Postprocess.TidyOrdinaryElement | converter/converter/postprocess.py:293-301 | any other element has its body tidied and its parent-child pattern applied, and is dropped when bogus |
| Postprocess.CommandTagsSpecial | converter/converter/postprocess.py:280-290 | `CMD` and `LIT` reach their own branch |
| Postprocess.TidyUnwrapsBogusP | converter/converter/postprocess.py:224-230 | in `li`, `dt`, `dd` and footnotes a leading plain paragraph followed by no other paragraph is unwrapped |
| Postprocess.TidyUnwrapsP | converter/converter/postprocess.py:231-234 | a plain paragraph holding only a page break or a blockquote is replaced by it |
| Postprocess.TidyLiftsColourSpan | converter/converter/postprocess.py:236-242 | a single span with only colour styles that the parent lacks is lifted into the parent's style |
| Postprocess.TidyKeepsOtherSpans | converter/converter/postprocess.py:240-243 | any other body is kept |
| Postprocess.PreLoopCode | converter/converter/postprocess.py:174-176 | each code block adds its plain text and a newline to the `pre` block |
| Postprocess.PreLoopExit | converter/converter/postprocess.py:177-179 | after the code blocks, a `pre` holding their lines is emitted when there were any |
| Postprocess.NonPreLoopStep | converter/converter/postprocess.py:181-190 | a non-code block is wrapped in `footer/cite` for a right-aligned block, in `p` when it needs wrapping, else added as it is |
| Postprocess.NonPreLoopExit | converter/converter/postprocess.py:192-193 | the collected blocks are emitted as one tidied blockquote |
| Postprocess.PreRun | converter/converter/postprocess.py:173-176 | the inner `pre` loop consumes code blocks and agrees with the specification or its error |
| Postprocess.NonPreRun | converter/converter/postprocess.py:180-190 | the inner non-`pre` loop agrees with the specification |
| Postprocess.CoalesceBlocksLoop | converter/converter/postprocess.py:162-193 | the `while` loop over the blocks computes `CoalesceBlocks` |
| PostprocessCites.ParseCites | converter/converter/postprocess.py:391-436 | the reference definition of `parse_cites`; see ParseCitesLoop, NoLinksUnchanged, UnmatchedBracket, SingleItem |
| PostprocessCites.ParseCitesNode | converter/converter/postprocess.py:398-428 | one item of the loop of `parse_cites`; see NoLinkNode, UnmatchedNode, KeyCited |
| PostprocessCites.CiteLink | converter/converter/postprocess.py:401-423 | a matched Zotero link turned into a citation or an error; see CiteLinkCites, CiteStepBare, Unmatched, ForeignItemKey, LinkToCite |
| PostprocessCites.RefKeyMatch | converter/converter/postprocess.py:376-377 | a match of `REF_KEY_REX` at the start of the text; see RefKeyGroups, RefKeyPlain, RefKeyBracketed, RefKeyOpen |
| PostprocessCites.MergeFrom | converter/converter/postprocess.py:429-435 | the merge loop of `parse_cites` from index `i` on; see MergeStrings, MergeKeepsContent, MergeSeparates, MergeThreeStrings |
| PostprocessCites.ZoteroMatch | converter/converter/postprocess.py:374-375 | a match of `ZOTERO_ITEM_URL_REX` always contains a colon, so the split at line 410 cannot fail |
| PostprocessCites.ZoteroUrlColon | converter/converter/postprocess.py:375 | an item URL contains a colon |
| PostprocessCites.AfterColon | converter/converter/postprocess.py:410 | `split(':', 1)[1]` is a proper suffix |
| PostprocessCites.AfterColonSkips | converter/converter/postprocess.py:410 | it is what follows the first colon |
| PostprocessCites.NotBibLink | converter/converter/postprocess.py:375 | a URL starting with `h` cannot take the `bib:` branch |
| PostprocessCites.HttpItemUrl | converter/converter/postprocess.py:375 | an `http` item URL matches as a whole |
| PostprocessCites.HttpsItemUrl | converter/converter/postprocess.py:375 | so does an `https` one |
| PostprocessCites.ItemIdIgnoresScheme | converter/converter/postprocess.py:410 | the item id of an `http` and an `https` URL is the same `http:` URL |
| PostprocessCites.SchemeId | converter/converter/postprocess.py:410 | the id replaces whatever comes before the first colon by `http` |
| PostprocessCites.BibLinkId | converter/converter/postprocess.py:375-410 | a `bib:` link matches only `bib:`, so its id is `http:` whatever follows |
| PostprocessCites.KeyRun | converter/converter/postprocess.py:377 | the greedy `[\w-]+` stops at the first character that is not a key character |
| PostprocessCites.KeyChars | converter/converter/postprocess.py:377 | everything it takes is a key character |
| PostprocessCites.FieldAt | converter/converter/postprocess.py:377 | `[:](author|year|title)\b` yields one of the three fields |
| PostprocessCites.PostEnd | converter/converter/postprocess.py:377 | the lazy `(.*?)` ends at the first point after which only `]` and whitespace are left, and holds no newline |
| PostprocessCites.MatchTailParts | converter/converter/postprocess.py:377 | the groups after the key put the text back together |
| PostprocessCites.KeyAndTailParts | converter/converter/postprocess.py:377 | so do the key and those groups |
| PostprocessCites.RefKeyGroups | converter/converter/postprocess.py:376-377 | the groups of a `REF_KEY_REX` match rebuild the text, with whitespace in `sp1` and `sp2`, a key of key characters and a `post` without newline |
| PostprocessCites.TailEmpty | converter/converter/postprocess.py:377 | nothing after the key gives empty groups |
| PostprocessCites.TailClose | converter/converter/postprocess.py:377 | a lone `]` is the closing bracket |
| PostprocessCites.KeyAlone | converter/converter/postprocess.py:377 | a bare key leaves nothing after it |
| PostprocessCites.KeyClosed | converter/converter/postprocess.py:377 | a key and `]` leave the closing bracket |
| PostprocessCites.RefKeyPlain | converter/converter/postprocess.py:377 | a bare key matches with no brackets, field, post text or spaces |
| PostprocessCites.RefKeyBracketed | converter/converter/postprocess.py:377 | `[key]` matches with the bracket |
| PostprocessCites.RefKeyOpen | converter/converter/postprocess.py:377 | `[key` matches too, with the opening bracket only |
| PostprocessCites.Cite | converter/converter/postprocess.py:379-387 | `cite` makes a command of the right name whose body is the key, followed by `post` only when `post` has visible text |
| PostprocessCites.CiteNameRecognised | converter/converter/postprocess.py:383-386 | every name `cite` builds is one `CITE_REX` accepts |
| PostprocessCites.CiteNameInjective | converter/converter/postprocess.py:383-386 | different field or textual flag give different names |
| PostprocessCites.CiteNameHead | converter/converter/postprocess.py:383-386 | `cite…` with a field, else `textcite` or `autocite` |
| PostprocessCites.BareCite | converter/converter/postprocess.py:382-384 | without post text or field, `[key]` is `autocite` and `key` is `textcite` |
| PostprocessCites.MatchLink | converter/converter/postprocess.py:392-400 | a matched link has a URL with a colon and link text that `REF_KEY_REX` matches; anything but `a` does not match |
| PostprocessCites.Href | converter/converter/postprocess.py:400 | `{'href': ZURL}` matches only a link whose only attribute is a string `href`; a non-string `href` is an error |
| PostprocessCites.LinkBody | converter/converter/postprocess.py:392-400 | the link matches with the URL regex's match and the plain text of its body |
| PostprocessCites.LinkMatched | converter/converter/postprocess.py:392-400 | a Zotero link whose plain text matches is matched with those parts |
| PostprocessCites.FieldOfMatch | converter/converter/postprocess.py:377-380 | the field a match yields satisfies the assertion in `cite` |
| PostprocessCites.CiteLinkCites | converter/converter/postprocess.py:401-423 | a matched link with balanced brackets whose key is unknown, or has no other Zotero id, becomes its leading space, the citation, and its trailing space, and the key is collected |
| PostprocessCites.CiteStepBare | converter/converter/postprocess.py:417-423 | without spaces, post text or field, that is just the `autocite`/`textcite` command |
| PostprocessCites.CiteStepUnspaced | converter/converter/postprocess.py:415-423 | without spaces it is the one citation with the cleansed post text |
| PostprocessCites.KeyCited | converter/converter/postprocess.py:401-423 | a bare or bracketed key link is cited with its key |
| PostprocessCites.Unmatched | converter/converter/postprocess.py:405-409 | a bracket without its partner gives an error element naming the missing bracket, and no key is collected |
| PostprocessCites.OpenNotClosed | converter/converter/postprocess.py:401-405 | `[key` does not end with `]` |
| PostprocessCites.UnmatchedNode | converter/converter/postprocess.py:405-409 | a link reading `[key` becomes an error element |
| PostprocessCites.UnmatchedBracket | converter/converter/postprocess.py:391-436 | and `parse_cites` returns that error element alone |
| PostprocessCites.ForeignItemKey | converter/converter/postprocess.py:410-425 | a key whose bibliography entry has another Zotero id gives `bad citation key`, though the key is still collected |
| PostprocessCites.LinkToCite | converter/converter/postprocess.py:391-436 | a Zotero link reading `key` or `[key]` becomes the one citation command, and the key is collected |
| PostprocessCites.StripKey | converter/converter/postprocess.py:401-405 | `[key]` ends with `]` and a bare key does not |
| PostprocessCites.MergeStrings | converter/converter/postprocess.py:429-435 | the merge loop computes `MergeFrom(ans, 1)` |
| PostprocessCites.ParseCitesLoop | converter/converter/postprocess.py:391-436 | the loop over the body computes `ParseCites`: the new body, the keys collected in order, or the first error |
| PostprocessCites.CoalescedMergeStep | converter/converter/postprocess.py:434 | merging two adjacent strings keeps the text |
| PostprocessCites.MergeKeepsContent | converter/converter/postprocess.py:429-435 | the merge loop keeps all text and elements in order |
| PostprocessCites.MergeSeparates | converter/converter/postprocess.py:429-435 | when no three strings were adjacent, no two adjacent strings are left |
| PostprocessCites.MergeThreeStrings | converter/converter/postprocess.py:430-435 | `i` is advanced after a merge, so three strings become two: `[x, y, z]` gives `[xy, z]` |
| PostprocessCites.NoLinksUnchanged | converter/converter/postprocess.py:397-428 | a body without links is returned as it is, with no keys |
| PostprocessCites.NoLinkNode | converter/converter/postprocess.py:398-428 | a node without links is kept |
| PostprocessCites.SingleItem | converter/converter/postprocess.py:391-436 | a one-element body without merging is the result for that element |
| PostprocessCommands.UnderlinesToCommands | converter/converter/postprocess.py:438-488 | the reference definition of `underlines_to_commands`; see UnderlinesLoop, BadStep, TextStep, ElemStep, NoUnderlinesUnchanged, CommandTakesRest, UnderlinedInPlace |
| PostprocessCommands.Captionize | converter/converter/postprocess.py:500-536 | the reference definition of `captionize`; see CaptionizeLoop, NoCaptionUnchanged, CaptionAttaches, CaptionUnwrapsParagraph, StrayCaptionDropped, CaptionizeShape |
| PostprocessCommands.UnwrapFigures | converter/converter/postprocess.py:538-579 | the reference definition of `unwrap_figures`; see NoFigureUnchanged, StandaloneFigureBlock, ParagraphSplit, SplitKeepsContent, SplitLayout, UnwrapSingle |
| PostprocessCommands.UnderlinesLoop | converter/converter/postprocess.py:438-488 | the loop over the body computes `UnderlinesToCommands` |
| PostprocessCommands.BadStep | converter/converter/postprocess.py:444-446 | an underline that fails its assertions or its chunk parse makes the whole call fail |
| PostprocessCommands.TextStep | converter/converter/postprocess.py:479-487 | a string is kept, left-stripped when asked and dropped when empty, and stripping stops after it |
| PostprocessCommands.ElemStep | converter/converter/postprocess.py:484-487 | any other element keeps its tag and attributes and has its body converted |
| PostprocessCommands.NoUnderlinesUnchanged | converter/converter/postprocess.py:438-488 | a body without underlines and without empty strings is unchanged |
| PostprocessCommands.CommandTakesRest | converter/converter/postprocess.py:451-455 | an underlined `name:` takes everything after it, left-stripped, as its arguments, and ends the body |
| PostprocessCommands.ClassifyBare | converter/converter/postprocess.py:450-476 | a bare underline is a command when its stripped text ends with `:`, named by the lower-cased text before it; otherwise one of the in-place items |
| PostprocessCommands.ArgsWhenColon | converter/converter/postprocess.py:451 | an underline takes arguments exactly when its stripped text ends with `:` |
| PostprocessCommands.ArgsName | converter/converter/postprocess.py:453 | the command's name is the lower-cased text before the colon |
| PostprocessCommands.CommandWithPlainArguments | converter/converter/postprocess.py:451-455 | with plain arguments, the command holds them exactly |
| PostprocessCommands.PlainArguments | converter/converter/postprocess.py:454 | plain, already stripped arguments are unchanged |
| PostprocessCommands.UnderlinedInPlace | converter/converter/postprocess.py:456-477 | any other underline is replaced by its item in place, and a literal ends left-stripping |
| PostprocessCommands.UnderlinedKinds | converter/converter/postprocess.py:456-476 | `$x$` becomes a `tex` command with `\(x\)`, `\x` a `tex` command, blank text is kept as it is, and other text a lower-cased literal |
| PostprocessCommands.UnderlineMustBeBare | converter/converter/postprocess.py:445-446 | an underline with attributes or not exactly one child fails the assertions |
| PostprocessCommands.FloatOf | converter/converter/postprocess.py:510-514 | the element before a caption is a float when it is a table or figure, or a paragraph with no class, `justify` or `left` holding only one |
| PostprocessCommands.FloatIsNoCaption | converter/converter/postprocess.py:505-514 | a float is never itself a caption |
| PostprocessCommands.CaptionizeUpTo | converter/converter/postprocess.py:503-536 | an element that is not a caption always leaves something in the answer |
| PostprocessCommands.CaptionizeLoop | converter/converter/postprocess.py:500-536 | the loop over the window computes `Captionize` |
| PostprocessCommands.NoCaptionUnchanged | converter/converter/postprocess.py:500-536 | a body without captions is unchanged |
| PostprocessCommands.CaptionAttaches | converter/converter/postprocess.py:528-531 | a caption after a table or figure becomes its first child, a `figcaption` for figures, and the float's body is captionized |
| PostprocessCommands.CaptionUnwrapsParagraph | converter/converter/postprocess.py:510-531 | a float wrapped in a plain paragraph is unwrapped when its caption attaches |
| PostprocessCommands.StrayCaptionDropped | converter/converter/postprocess.py:515-523 | a caption after anything else is dropped, with only a problem report |
| PostprocessCommands.CaptionizeShape | converter/converter/postprocess.py:500-536 | the answer has one element per non-caption element, and no caption is left at the top level |
| PostprocessCommands.FindBlockFigure | converter/converter/postprocess.py:566-568 | the first block figure of a paragraph body; or none; or the KeyError a figure without `style` or `display` raises |
| PostprocessCommands.WithoutKey | converter/converter/postprocess.py:571-572 | the attributes other than `id` |
| PostprocessCommands.NoFigureUnchanged | converter/converter/postprocess.py:538-579 | a body without figures is unchanged |
| PostprocessCommands.NoBlockFigure | converter/converter/postprocess.py:566-568 | and then no block figure is found |
| PostprocessCommands.StandaloneFigureBlock | converter/converter/postprocess.py:553-558 | a standalone figure fails with KeyError exactly when it has no style; otherwise it becomes one figure with the same body and attributes and its display set to `block` |
| PostprocessCommands.SplitKeepsContent | converter/converter/postprocess.py:566-577 | splitting a paragraph at its block figure keeps the contents in order |
| PostprocessCommands.SplitLayout | converter/converter/postprocess.py:569-577 | the figure stands alone between paragraphs; the first keeps the attributes and the second has no `id` |
| PostprocessCommands.ParagraphSplit | converter/converter/postprocess.py:566-577 | a paragraph with a block figure that is not a standalone figure is split there |
| PostprocessCommands.NotStandalone | converter/converter/postprocess.py:553 | only a plain paragraph holding one figure is standalone |
| PostprocessCommands.UnwrapSingle | converter/converter/postprocess.py:550-579 | elements outside tables and blockquotes are handled at the top level only |
| PostprocessMeta.ExtractMeta | converter/converter/postprocess.py:641-647 | the reference definition of `extract_meta`; see ExtractMetaRun, ExtractMetaSuffix, NoMetaUnchanged, TitleComesFirst |
| PostprocessMeta.PostprocessDoc | converter/converter/postprocess.py:651-672 | the reference definition of `postprocess`; see MissingBibliography, FinishBodySuffix, AsidesWithoutAsides |
| PostprocessMeta.Keys | converter/converter/postprocess.py:643 | the head's keys, one per entry, in insertion order |
| PostprocessMeta.KeysAt | converter/converter/postprocess.py:643 | the i-th key is the key of the i-th entry |
| PostprocessMeta.GetNone | converter/converter/postprocess.py:643 | a lookup misses exactly when the key is not in the head |
| PostprocessMeta.PutGet | converter/converter/postprocess.py:596 | after `head[k] = v`, looking `k` up gives `v` |
| PostprocessMeta.PutOther | converter/converter/postprocess.py:596 | `head[k] = v` leaves every other key's value unchanged |
| PostprocessMeta.PutKeys | converter/converter/postprocess.py:596 | `head[k] = v` keeps the key order when `k` is already present, and appends `k` otherwise |
| PostprocessMeta.PutExtends | converter/converter/postprocess.py:596 | the keys before `head[k] = v` are a prefix of the keys after it |
| PostprocessMeta.SpaceNormalizeChars | converter/converter/postprocess.py:594 | a space-normalised title is a list of one-character strings |
| PostprocessMeta.SpaceNormalizeCharsText | converter/converter/postprocess.py:594 | joined together, those characters are the text after `re.sub(r'[\n\r\t ]\s*', ' ', s)`: a `\n`, `\r`, tab or space and all whitespace after it become one space (and leading whitespace of any kind is dropped when the run starts stripped) |
| PostprocessMeta.FoldSwallowIsCollapse | converter/converter/postprocess.py:308-315 | on text whose whitespace is only `\n`, `\r`, tab and space, this substitution agrees with the folding of `_space_normalize1` |
| PostprocessMeta.LStripIsDropFoldSpace | converter/converter/postprocess.py:311-312 | on text whose whitespace is only `\n`, `\r`, tab and space, `lstrip()` drops exactly the leading run of those, and what is left still has no other whitespace |
| PostprocessMeta.VerticalTabAfterSpaceDropped | converter/converter/postprocess.py:594 | a vertical tab after a space is swallowed by `\s*`: `a \v b` gives the characters `a`, space, `b` |
| PostprocessMeta.VerticalTabAfterTextKept | converter/converter/postprocess.py:594 | a vertical tab after a visible character is not one of `[\n\r\t ]`, so it is kept |
| PostprocessMeta.SpaceNormalizeCharsEmpty | converter/converter/postprocess.py:594-596 | the normalised title is empty exactly when the plaintext is empty |
| PostprocessMeta.AltHeadingNeverMatches | converter/converter/postprocess.py:591-592 | the alternative pattern `(alt_h, {'class': tag}, ...)` never matches a tree, because `class` always holds a list |
| PostprocessMeta.IsGunk | converter/converter/postprocess.py:599-601 | a string is gunk exactly when it is blank, and an element other than `p` never is |
| PostprocessMeta.PopGunkDrops | converter/converter/postprocess.py:599-603 | skipping gunk leaves a suffix of the body, every dropped item is gunk, and the first item left is not |
| PostprocessMeta.PopGunkLoop | converter/converter/postprocess.py:599-603 | the `while` loop deleting `body[0]` computes the gunk-free suffix |
| PostprocessMeta.PopTitleAndSubtitle | converter/converter/postprocess.py:587-603 | the loop over `title` and `subtitle` computes the popped body and head of the reference definition |
| PostprocessMeta.PopTitleDrops | converter/converter/postprocess.py:590-597 | popping one title leaves a suffix of the body and only adds keys to the head |
| PostprocessMeta.PopTitlesDrops | converter/converter/postprocess.py:587-603 | popping title, subtitle and gunk leaves a suffix of the body and only adds keys to the head |
| PostprocessMeta.TitleStored | converter/converter/postprocess.py:591-596 | a leading `title` element with non-empty text is stored under `title` as its text after the same substitution |
| PostprocessMeta.EmptyTitleDropped | converter/converter/postprocess.py:595-597 | a leading `title` element with empty text is deleted from the body but not stored |
| PostprocessMeta.DlEntry | converter/converter/postprocess.py:612-617 | a `dt`/`dd` pair is accepted only when it is `dt` then `dd`, and its key is the single class of the `dd` |
| PostprocessMeta.PopDlMeta | converter/converter/postprocess.py:605-617 | popping the `document-properties` list computes the body and head of the reference definition |
| PostprocessMeta.DlPairsExtends | converter/converter/postprocess.py:614-617 | storing the pairs only adds keys to the head |
| PostprocessMeta.DlPairsStored | converter/converter/postprocess.py:614-617 | the key of every `dt`/`dd` pair is in the head afterwards |
| PostprocessMeta.DlBadPair | converter/converter/postprocess.py:615 | a pair other than `dt` then `dd` fails the assertion |
| PostprocessMeta.DlOddItemIgnored | converter/converter/postprocess.py:614 | `zip` drops an unpaired last item of the list |
| PostprocessMeta.DataValueStillNeedsPlaintext | converter/converter/postprocess.py:617 | a `data-value` attribute is stored as the value, but the default `plaintextify(DD_BODY)` is evaluated first, so an entry whose body cannot be plaintextified fails anyway |
| PostprocessMeta.CommandParagraph | converter/converter/postprocess.py:622-627 | a command paragraph is a `p` whose last child is a command, and yields that command's name and body |
| PostprocessMeta.PopUnderlinedMeta | converter/converter/postprocess.py:619-639 | the loop deleting command paragraphs computes the body and head of the reference definition |
| PostprocessMeta.PopUnderlinedDrops | converter/converter/postprocess.py:622-639 | popping command paragraphs leaves a suffix of the body |
| PostprocessMeta.PopUnderlinedStops | converter/converter/postprocess.py:622 | the first item left is no command paragraph |
| PostprocessMeta.PopUnderlinedExtends | converter/converter/postprocess.py:628-638 | storing the commands only adds keys to the head |
| PostprocessMeta.PopUnderlinedStored | converter/converter/postprocess.py:628-638 | the name of every popped command is in the head afterwards |
| PostprocessMeta.LiteralCommandValue | converter/converter/postprocess.py:628-629 | a command whose only value is the literal `yes` or `no` stores the parsed boolean |
| PostprocessMeta.ImageWithoutStyle | converter/converter/postprocess.py:630-636 | a figure without a `style` attribute raises KeyError at `ATTRS.val['style']` |
| PostprocessMeta.ExtractMetaRun | converter/converter/postprocess.py:641-647 | popping titles, the `dl` list and the commands, in that order, from a copy of the body computes the reference definition |
| PostprocessMeta.PopDlDrops | converter/converter/postprocess.py:605-617 | popping the `dl` list leaves a suffix of the body and only adds keys to the head |
| PostprocessMeta.ExtractMetaSuffix | converter/converter/postprocess.py:641-647 | the body returned is a suffix of the body given |
| PostprocessMeta.NoMetaUnchanged | converter/converter/postprocess.py:641-647 | a body that starts with no title, `dl` list or paragraph gives an empty head and the body unchanged |
| PostprocessMeta.TitleComesFirst | converter/converter/postprocess.py:641-647 | a non-empty title is the first key of the head |
| PostprocessMeta.SortedFirst | converter/converter/postprocess.py:671 | `sorted(citations)[0]` is a citation key that is smaller than every other key |
| PostprocessMeta.MissingBibliography | converter/converter/postprocess.py:649-671 | a missing bibliography is reported exactly when citations were found and the head has no `bibliography` key, and the key reported is the smallest one cited |
| PostprocessMeta.FinishBodySuffix | converter/converter/postprocess.py:668-672 | the body returned is a suffix of the processed body |
| PostprocessMeta.AsidesWithoutAsides | converter/converter/postprocess.py:656-657 | on a document without `aside` elements, `asides` makes no difference |
| PostprocessPasses.SpaceNormalize | converter/converter/postprocess.py:342-370 | the reference definition of `space_normalize`; see SpaceNormalizeKeepsSkeleton, SpaceNormalizeKeepsVisibleText, SpaceNormalizeFolds, LeadingTextStripped, PreBetweenWords, FootnoteKeepsSurroundingSpace |
| PostprocessPasses.SpaceNormalize1 | converter/converter/postprocess.py:308-323 | the reference definition of `_space_normalize1`, with the flag it passes on; see SpaceNormalize1Skeleton, SpaceNormalize1Visible, SpaceNormalize1Normal, LeftStripped, TextRStripped, InnerWord |
| PostprocessPasses.SpaceNormalizeFrom | converter/converter/postprocess.py:325-340 | the reference definition of `_space_normalize` from index `i` on; see FromItem, FromEnd, LeadStep, SpaceNormalizeFromSkeleton, SpaceNormalizeFromVisible, SpaceNormalizeFromNormal |
| PostprocessPasses.NextLStrip | converter/converter/postprocess.py:315 | the next item may be left-stripped exactly when this string came out empty while left-stripping, or ends in a space |
| PostprocessPasses.FoldStrip | converter/converter/postprocess.py:310-314 | folding whitespace runs and stripping keeps the visible characters, and leaves no leading (trailing) space when asked to strip that side |
| PostprocessPasses.StripIf | converter/converter/postprocess.py:311-314 | `lstrip()`/`rstrip()` on folded text keep its visible characters and remove the space on that side; `rstrip` removes a suffix |
| PostprocessPasses.FoldedLast | converter/converter/postprocess.py:315 | on folded text, `re.search('[\n\r\t ]$', s)` finds exactly a trailing space |
| PostprocessPasses.FromItem | converter/converter/postprocess.py:331-340 | one turn of the `for` loop: the item is normalised with the strip flags for its index, appended unless empty, and its flag passed on |
| PostprocessPasses.SpaceNormalize1Skeleton | converter/converter/postprocess.py:308-323 | normalising an item keeps its element structure (tags, attributes and nesting) |
| PostprocessPasses.SpaceNormalizeFromSkeleton | converter/converter/postprocess.py:325-340 | normalising a list keeps the element structure of its items |
| PostprocessPasses.SpaceNormalizeKeepsSkeleton | converter/converter/postprocess.py:342-370 | `space_normalize` changes text only: tags, attributes and nesting are kept |
| PostprocessPasses.SpaceNormalize1Visible | converter/converter/postprocess.py:308-323 | normalising an item keeps its visible (non-whitespace) characters in order |
| PostprocessPasses.SpaceNormalizeFromVisible | converter/converter/postprocess.py:325-340 | normalising a list keeps its visible characters in order |
| PostprocessPasses.SpaceNormalizeKeepsVisibleText | converter/converter/postprocess.py:342-370 | `space_normalize` only changes whitespace |
| PostprocessPasses.SpaceNormalize1Normal | converter/converter/postprocess.py:308-323 | outside `pre`, a normalised item has no whitespace run and no whitespace other than a single space |
| PostprocessPasses.SpaceNormalizeFromNormal | converter/converter/postprocess.py:325-340 | every item of a normalised list is folded outside `pre` |
| PostprocessPasses.SpaceNormalizeFolds | converter/converter/postprocess.py:342-345 | outside `pre` all space is folded |
| PostprocessPasses.LeadingTextStripped | converter/converter/postprocess.py:331-339 | when the first item is left-stripped, the first item of the result does not start with a space |
| PostprocessPasses.LeadStep | converter/converter/postprocess.py:315-339 | an item dropped as empty passes left-stripping on to the next item |
| PostprocessPasses.FromEnd | converter/converter/postprocess.py:340 | the loop over no items returns no items and the flag it was given |
| PostprocessPasses.LeftStripped | converter/converter/postprocess.py:311-315 | a left-stripped string starts with no space, and one left empty passes left-stripping on |
| PostprocessPasses.BlockFirstTextStripped | converter/converter/postprocess.py:319-323 | a block element's first text child has its leading space stripped |
| PostprocessPasses.TrailingTextStripped | converter/converter/postprocess.py:336-337 | a last text item with visible characters is right-stripped in a block or when asked to |
| PostprocessPasses.LastItemRStripped | converter/converter/postprocess.py:313-336 | the last item, when right-stripped, ends in no space and is not empty |
| PostprocessPasses.TextKept | converter/converter/postprocess.py:338 | a string with visible characters is never dropped |
| PostprocessPasses.BlockLastTextStripped | converter/converter/postprocess.py:319-323 | a block element whose last child is text ends in text without a trailing space |
| PostprocessPasses.TextBeforeBlockStripped | converter/converter/postprocess.py:336-337 | text just before a real block element is right-stripped |
| PostprocessPasses.RStripStep | converter/converter/postprocess.py:331-339 | a right-stripped item that is kept heads the result, and an empty one leaves the next element at the head |
| PostprocessPasses.TextItemRStripped | converter/converter/postprocess.py:336-337 | text followed by a real block element is normalised with `rstrip` set |
| PostprocessPasses.TextRStripped | converter/converter/postprocess.py:313-314 | a right-stripped string ends in no space |
| PostprocessPasses.HeadElemKept | converter/converter/postprocess.py:338-339 | an element is never dropped |
| PostprocessPasses.PreBetweenWords | converter/converter/postprocess.py:346-348 | the first example: `x  y  ` before a `pre` is folded and right-stripped to `x y`, the `pre` is kept whole, and ` z` after it is left-stripped to `z` |
| PostprocessPasses.FootnoteKeepsSurroundingSpace | converter/converter/postprocess.py:360-366 | the footnote example: only the footnote's inner text is stripped, and the spaces around it are kept |
| PostprocessPasses.ParagraphIsBlock | converter/converter/postprocess.py:320 | `p` is a block tag |
| PostprocessPasses.LoneBlock | converter/converter/postprocess.py:319-323 | a lone block element keeps its tag and attributes and has its body normalised as a block body |
| PostprocessPasses.FootnoteNotReal | converter/converter/postprocess.py:326-327 | a footnote is not a real block element, so the text before it is not right-stripped |
| PostprocessPasses.FootnoteElem | converter/converter/postprocess.py:319-323 | a footnote's body is normalised, and the footnote does not force the next item to be left-stripped |
| PostprocessPasses.InnerWord | converter/converter/postprocess.py:310-314 | a word between spaces, stripped on both sides, is the word itself and passes no left-stripping on |
| Preprocess.NameAnchor | converter/converter/preprocess.py:13 | the anchor is an empty `a` element whose only attribute is `name`, holding the id |
| Preprocess.AnchorizeId | converter/converter/preprocess.py:11-14 | nothing changes exactly when there is no `id` or the tag is `dl`, `ol`, `ul` or `aside`; otherwise `id` is removed from the attributes and a name anchor for it is put first in the body |
| Preprocess.AnchorizeKeepsRest | converter/converter/preprocess.py:11-14 | every other attribute is kept with its value, none is added, and the old body follows the anchor unchanged |
| Preprocess.AnchorizeIdempotent | converter/converter/preprocess.py:11-14 | a second call changes nothing |
| Preprocess.LiftUndoesAnchorize | converter/converter/preprocess.py:11-14 | lifting a leading name anchor back into an `id` (sectionize's `_lift_anchor_id`) restores the attributes and body from before anchorizing |
| Preprocess.MaybeAnchorizeId | converter/converter/preprocess.py:5-14 | destructively updating the caller's dict and list gives the attributes and body of the reference definition |
| Sectionize.Sectionize | converter/converter/sectionize.py:88-131 | the reference definition of `sectionize`: the front run wrapped in `h_less_section`, then the headings nested into sections below `h0`, with the TOC and the id count; see SectionizeRoundTrip, SectionizeRun, SectionizeTakesAll, FrontUntouched, FrontSectionFirst |
| Sectionize.Unsectionize | converter/converter/sectionize.py:134-138 | the reference definition of `unsectionize`: every section other than an `endnotes` one is spliced into its parent; see UnsectionizeIsWhackElt, UnsectionizeAppend, UnsectionizeWithoutSections, UnsectionizeKeepsEndnotes, UnsectionizeSplices, SectionizeRoundTrip |
| Sectionize.GensymIdsDistinct | converter/converter/sectionize.py:12-19 | the generator's ids are distinct for distinct call counts |
| Sectionize.Gensym.Next | converter/converter/sectionize.py:15-18 | each call hands out the id for the current count and advances the count |
| Sectionize.AnchorRef | converter/converter/sectionize.py:31-32 | an anchor reference is found only in a non-empty body |
| Sectionize.LiftAnchorId | converter/converter/sectionize.py:22-40 | the attributes returned always hold an `id` |
| Sectionize.LiftKeepsId | converter/converter/sectionize.py:33-38 | attributes that already hold an `id` and the body are returned unchanged, and no id is generated |
| Sectionize.LiftFromAnchor | converter/converter/sectionize.py:31-37 | without an `id`, a leading empty `a` with `name` or `id` supplies it, and the anchor is removed only when `kill_anchor` is set |
| Sectionize.LiftFromGensym | converter/converter/sectionize.py:38-39 | without an `id` or an anchor, the next generated id is used |
| Sectionize.LiftOnlySetsId | converter/converter/sectionize.py:22-40 | only `id` is added; every other attribute and the classes are kept |
| Sectionize.LiftKeepsBody | converter/converter/sectionize.py:36-37 | without `kill_anchor` the body is never changed |
| Sectionize.LiftAnchorIdRun | converter/converter/sectionize.py:22-40 | the step-by-step version against the generator object computes the reference definition and its id count |
| Sectionize.Ensec | converter/converter/sectionize.py:43-50 | a section with an `id` whose first child is the heading (stripped of its attributes) followed by the subsection |
| Sectionize.EnsecRun | converter/converter/sectionize.py:43-50 | against the generator object, the result and the id count of the reference definition |
| Sectionize.TocifyHeading | converter/converter/sectionize.py:53-62 | a successful TOC entry has the heading's tag |
| Sectionize.TocifyHeadingRun | converter/converter/sectionize.py:53-62 | against the generator object, the result and the id count of the reference definition |
| Sectionize.TocIdIsSectionId | converter/converter/sectionize.py:38-80 | the TOC entry's id is the id of the section, because the id generated for the TOC is written into the heading's own attribute dict |
| Sectionize.TocIdNeedsSharedAttrs | converter/converter/sectionize.py:38-80 | with a fresh copy of the attributes, the section would get a second generated id that differs from the TOC's |
| Sectionize.IsHTagIsHTags | converter/converter/internal.py:31 | a heading tag is one of `h1`…`h6` |
| Sectionize.Prepend | converter/converter/sectionize.py:66-84 | prepending to a result keeps its success, what is left and the id count |
| Sectionize.HeadingStep | converter/converter/sectionize.py:76-82 | after a heading, what is left is a suffix of what followed it |
| Sectionize.Level | converter/converter/sectionize.py:65-84 | what the level leaves for its caller is a suffix of the body |
| Sectionize.HeadingRun | converter/converter/sectionize.py:76-82 | the heading branch against the generator object computes the reference definition and its id count |
| Sectionize.LevelRun | converter/converter/sectionize.py:65-84 | the `while` loop popping from the body and pushing a heading back computes the reference definition and its id count |
| Sectionize.LevelStops | converter/converter/sectionize.py:69-75 | a level ends at the end of the body or at a heading no deeper than itself |
| Sectionize.LevelWithoutHeadings | converter/converter/sectionize.py:83-84 | a body without headings is gobbled whole, with no TOC and no id handed out |
| Sectionize.LevelPastTocUpto | converter/converter/sectionize.py:76-77 | below `toc_upto` no TOC entry is made |
| Sectionize.HeadingPastTocUpto | converter/converter/sectionize.py:76-82 | a heading below `toc_upto` adds no TOC entry, nor does its subsection |
| Sectionize.HeadingOrder | converter/converter/sectionize.py:73-76 | the string comparison `e[0] <= level` orders `h1`…`h6` by depth, and `h0` is above them all |
| Sectionize.HeadingBelowH0 | converter/converter/sectionize.py:73 | no heading ends the top level `h0` |
| Sectionize.SkippedLevelSiblings | converter/test/test_html_writer.py:72-101 | the `sec1.2` part of the badly structured example: an `h2` followed by an `h4` and an `h3` gives one `h2` section holding an `h4` section and a sibling `h3` section, and the TOC holds the `h2` entry followed by the nested list of the other two |
| Sectionize.FrontCount | converter/converter/sectionize.py:126-127 | the front run is the longest prefix of items that are neither headings nor empty strings |
| Sectionize.SectionizeTakesAll | converter/converter/sectionize.py:130-131 | `sectionize` consumes the whole body |
| Sectionize.FrontUntouched | converter/converter/sectionize.py:123-129 | without `h_less_section`, or without a front run, the body is not changed before sectionizing |
| Sectionize.FrontSectionFirst | converter/converter/sectionize.py:123-131 | with `h_less_section` and a front run, the first section is that run wrapped in a section with `h_less_section` as id |
| Sectionize.FrontRun | converter/converter/sectionize.py:123-129 | the `while` loop popping the front run into the buffer computes the reference definition |
| Sectionize.SectionizeRun | converter/converter/sectionize.py:88-131 | destructive `sectionize` against the generator object computes the reference definition's sections, TOC and id count |
| Sectionize.UnsectionizeIsWhackElt | converter/converter/sectionize.py:134-138 | `unsectionize` is `whack_elt` with the bogus-section test |
| Sectionize.SplicedFirst | converter/converter/sectionize.py:134-138 | unsectionizing a list unsectionizes its items one by one |
| Sectionize.UnsectionizeAppend | converter/converter/sectionize.py:134-138 | unsectionizing distributes over concatenation |
| Sectionize.UnsectionizeWithoutSections | converter/converter/sectionize.py:134-138 | a body without sections is unchanged |
| Sectionize.UnsectionizeKeepsEndnotes | converter/converter/sectionize.py:137 | a section with class `endnotes` is kept, with its body unsectionized |
| Sectionize.UnsectionizeSplices | converter/converter/sectionize.py:137 | any other section is replaced by its unsectionized body |
| Sectionize.StripHeadingsAppend | converter/converter/sectionize.py:50 | dropping heading attributes distributes over concatenation |
| Sectionize.TocStepClasses | converter/converter/sectionize.py:61-77 | making the TOC entry leaves the heading's classes unchanged |
| Sectionize.EnsecKeeps | converter/converter/sectionize.py:43-50 | without `kill_anchor`, a section is the heading's tag with no attributes and its body, then the subsection, and the section takes the heading's classes |
| Sectionize.UnsectionizeSection | converter/converter/sectionize.py:43-138 | unsectionizing a section from `ensec` gives back its heading followed by the unsectionized subsection |
| Sectionize.LevelRoundTrip | converter/converter/sectionize.py:65-138 | without `kill_anchors`, unsectionizing what a level gobbled gives back the body it consumed with heading attributes dropped |
| Sectionize.HeadingStepRoundTrip | converter/converter/sectionize.py:76-138 | unsectionizing a heading's section gives back the heading without attributes and what it consumed |
| Sectionize.SectionizeRoundTrip | converter/converter/sectionize.py:88-138 | without `kill_anchors`, `unsectionize(sectionize(body))` is the body with heading attributes dropped, when the body holds no sections or endnotes |
| Sectionize.StripWithoutHeadings | converter/converter/sectionize.py:50 | a body without headings is unaffected by dropping heading attributes |
| Sectionize.GobbleHeadingRun | converter/converter/sectionize.py:72-82 | a heading deeper than the level adds its section and TOC entries and keeps the loop invariant towards the reference definition, or the error reaches the whole level |
| XmlTools.Update | converter/converter/xmltools.py:67 | the `into.update(...)` of `_inverted_update`; see TargetOfExists, UpdateEntries, TargetOfPrefixed |
| XmlTools.InvertedUpdate | converter/converter/xmltools.py:63-70 | the reference definition of `_inverted_update`; see InvertedUpdateAt, InvertedUpdateSpec, NsIndex.InvertedUpdateFrom |
| XmlTools.SplitTwo | converter/converter/xmltools.py:47 | unpacking `split('}')` into two parts succeeds only when the text is the two parts around one separator, and fails without one |
| XmlTools.DeNs | converter/converter/xmltools.py:44-45 | an empty name raises IndexError, and a name not starting with `{` is returned unchanged |
| XmlTools.RPartition | converter/converter/xmltools.py:59 | `rpartition(':')` splits at the last colon, and gives an empty prefix when there is none |
| XmlTools.ReNs | converter/converter/xmltools.py:54-61 | an unprefixed attribute is returned unchanged, and every other name becomes a `{url}local` name |
| XmlTools.SplitQualified | converter/converter/xmltools.py:47 | a `{url}local` name splits back into its URL and local name |
| XmlTools.XmlNsPlain | converter/converter/xmltools.py:14 | the XML namespace URL contains no `}` but contains a colon |
| XmlTools.DeNsXml | converter/converter/xmltools.py:44-52 | the XML namespace is implicitly mapped to the prefix `xml`, whatever the map holds |
| XmlTools.DeNsDefault | converter/converter/xmltools.py:44-52 | a namespace mapped to no prefix gives the bare local name for an element, and fails the assertion for an attribute |
| XmlTools.DeNsUnknown | converter/converter/xmltools.py:48 | a namespace missing from the map raises KeyError |
| XmlTools.RPartitionOf | converter/converter/xmltools.py:59 | `rpartition` of `prefix:local` gives back the prefix and the local name |
| XmlTools.ReNsXml | converter/converter/xmltools.py:60 | the prefix `xml` maps to the XML namespace, whatever the map holds |
| XmlTools.RoundTripPrefixed | converter/converter/xmltools.py:16-61 | with a prefix mapped both ways, `re_ns(de_ns(name))` gives back the qualified name, for elements and attributes |
| XmlTools.RoundTripDefault | converter/converter/xmltools.py:16-61 | with the default namespace mapped both ways, an element name round-trips |
| XmlTools.RoundTripXml | converter/converter/xmltools.py:16-61 | names in the XML namespace always round-trip |
| XmlTools.TargetOfExists | converter/converter/xmltools.py:67 | a value is written by the `update` exactly when it is the value of some non-`None` key |
| XmlTools.UpdateEntries | converter/converter/xmltools.py:67 | `into.update(...)` adds exactly the values of the non-`None` keys, maps each to a key holding it, and leaves the other entries alone |
| XmlTools.TargetOfPrefixed | converter/converter/xmltools.py:67 | in any iteration order, the values written are those of the prefixed keys |
| XmlTools.TargetCases | converter/converter/xmltools.py:67-69 | a value gets an entry when a prefix or the default namespace maps to it |
| XmlTools.InvertedUpdateAt | converter/converter/xmltools.py:63-70 | the inverted update adds entries for exactly the values of the source, maps each prefixed value to a key holding it, never overwrites a prefix with `None`, and leaves other entries alone |
| XmlTools.InvertedUpdateSpec | converter/converter/xmltools.py:63-70 | the same, for every value at once |
| XmlTools.NsIndex.InvertedUpdateFrom | converter/converter/xmltools.py:63-70 | updating the dict in place gives the entries of the reference definition |
| DocxParser.BuildList | converter/converter/docx_parser.py:163-183 | `build_list` corrected, a sublist without an item before it becoming a `.block`; see BuildListKeepsParagraphs, BuildListOneGroup, BuildListSplits, BuildListNests, OrphanSublist |
| DocxParser.BuildListAsWritten | converter/converter/docx_parser.py:163-183 | `build_list` as written, with the ValueError of `body, = body`; see AsWrittenAgrees, OrphanSublist, OrphanSublistPlaced, ListBuilder.Flush |
| DocxParser.StyleToTag | converter/converter/docx_parser.py:87-97 | a `Heading…` style becomes `h` plus its last character, `Title` and `Subtitle` become their lower-case names, and anything else is `p` |
| DocxParser.StyleToTagShapes | converter/converter/docx_parser.py:87-97 | the tag is `h` plus one character, `title`, `subtitle` or `p`; `Heading1` gives `h1`, and the unvalidated `Heading` gives `hg` |
| DocxParser.AddBg | converter/converter/docx_parser.py:104-111 | the colour is accepted exactly when its upper-case form matches `^#[0-9A-F]{6}$`, otherwise AssertionError; white leaves the attributes alone, and any other colour is added as the `background-color` style |
| DocxParser.AddBgSetsBackground | converter/converter/docx_parser.py:111 | a non-white colour sets `background-color` and keeps every other style property and attribute |
| DocxParser.UpperIdempotent | converter/converter/docx_parser.py:107 | upper-casing twice is upper-casing once |
| DocxParser.AddBgIgnoresCase | converter/converter/docx_parser.py:105-107 | lower-case hex digits are accepted like upper-case ones |
| DocxParser.AddBgWhite | converter/converter/docx_parser.py:109-110 | white in any case leaves the attributes unchanged |
| DocxParser.AddBgTrailingNewline | converter/converter/docx_parser.py:108-111 | `$` also matches before a final newline, so `#ffffff` followed by a newline is accepted by the colour test, is not taken for white, and is stored with the newline |
| DocxParser.AddBgRejects | converter/converter/docx_parser.py:108 | a colour of the wrong length, without `#`, or with a non-hex digit fails the assertion |
| DocxParser.ListType | converter/converter/docx_parser.py:143-160 | bullets give `ul`, anything else `ol`; a class is set exactly when the format differs from the default for the level (modulo 3) and has a CSS name, and it is that name |
| DocxParser.ListTypeDefaults | converter/converter/docx_parser.py:145-159 | the defaults cycle with the level: `lowerLetter` is the default at level 1 but gets `lower-alpha` at level 0, and `■` likewise; an unknown format gets no class |
| DocxParser.ExtendLast | converter/converter/docx_parser.py:176-178 | `this_body[-1][2].extend(item)` appends to the body of the last `li` and keeps its tag and attributes |
| DocxParser.GroupEnd | converter/converter/docx_parser.py:167-169 | a group runs over items with the same tag and attributes and over nested lists, and ends at the next item that differs |
| DocxParser.Lis | converter/converter/docx_parser.py:175-181 | the `li` elements built for a group end in a non-empty `li` |
| DocxParser.LisAsWritten | converter/converter/docx_parser.py:170-182 | as written, a group that succeeds yields only elements |
| DocxParser.ItemsConcat | converter/converter/docx_parser.py:163-183 | the paragraphs of a concatenated tree are the paragraphs of the parts |
| DocxParser.ExtendLastParas | converter/converter/docx_parser.py:176-178 | extending the last `li` adds exactly the paragraphs of what was added |
| DocxParser.BuildListKeepsParagraphs | converter/converter/docx_parser.py:163-183 | building the list keeps every list paragraph, once and in order |
| DocxParser.BuildFromParas | converter/converter/docx_parser.py:166-183 | from any position, the built lists hold the paragraphs of the rest of the tree in order |
| DocxParser.LisParas | converter/converter/docx_parser.py:175-181 | the `li` elements of a group hold its paragraphs in order |
| DocxParser.AsWrittenAgrees | converter/converter/docx_parser.py:163-183 | the code as written agrees with the corrected definition exactly on trees where no nested list is grouped on its own, and otherwise raises ValueError |
| DocxParser.FromAgrees | converter/converter/docx_parser.py:166-183 | the same, from any position of the tree |
| DocxParser.LisAgrees | converter/converter/docx_parser.py:175-181 | the same, for one group |
| DocxParser.BuildListOneGroup | converter/converter/docx_parser.py:167-182 | two items with the same tag and attributes share one list |
| DocxParser.BuildListSplits | converter/converter/docx_parser.py:167-182 | items with different tags or attributes go into separate lists |
| DocxParser.BuildListNests | converter/converter/docx_parser.py:176-178 | a nested list after an item goes into that item's `li` |
| DocxParser.OrphanSublist | converter/converter/docx_parser.py:171-173 | a nested list before any item becomes a `.block` in the corrected definition, but as written `body, = body` raises ValueError because the group key `(_, _)` also matches the item after it |
| DocxParser.Points | converter/converter/docx_parser.py:185-208 | `append_points` holds the top-level list and, for each level, the trailing nested list of the one above |
| DocxParser.ItemsAppendAt | converter/converter/docx_parser.py:211-213 | appending at the current level adds the entry's paragraphs after all others |
| DocxParser.PlacedItems | converter/converter/docx_parser.py:205-213 | placing an entry at a level adds its paragraphs after all others |
| DocxParser.PlacedAtPoint | converter/converter/docx_parser.py:205-213 | the entry becomes the last entry of the append point at its level, which is new when the level went deeper |
| DocxParser.PlacedAfterPushes | converter/converter/docx_parser.py:205-213 | going deeper pushes empty nested lists, and the entry lands in the last of them |
| DocxParser.PushStep | converter/converter/docx_parser.py:206-208 | each turn of the loop that goes deeper adds one empty nested list at the current point |
| DocxParser.ListBuilder.constructor | converter/converter/docx_parser.py:133-141 | a new builder has no lists, is at level 0 and has seen no list paragraph |
| DocxParser.ListBuilder.Reset | converter/converter/docx_parser.py:137-141 | `reset` empties the lists and returns to level 0 outside a list |
| DocxParser.ListBuilder.Flush | converter/converter/docx_parser.py:189-195 | after a list paragraph the result is the as-written `build_list` of the collected lists, which is the corrected one when the lists can be built and ValueError otherwise, and the builder is reset; otherwise nothing is returned or changed |
| DocxParser.OrphanSublistPlaced | converter/converter/docx_parser.py:197-214 | a paragraph at level 1 with no item before it, then one at level 0, leave the stack that `build_list` cannot take, so the flush of such a list raises ValueError |
| DocxParser.ListBuilder.Process | converter/converter/docx_parser.py:197-214 | a paragraph without `numId` flushes and is handled out of a list, and the ValueError of the flush propagates; a list paragraph is placed at its level, in the list type of its numbering, and nothing is returned; a negative level raises IndexError |
| DocxParser.ListBuilder.ProcessNumbered | converter/converter/docx_parser.py:203-214 | the `while` loop moves the level to the paragraph's, then the paragraph is appended there and all earlier paragraphs are kept |
| DocxParser.ListBuilder.Push | converter/converter/docx_parser.py:207-208 | one level deeper, with an empty nested list appended at the current point |
| DocxParser.ListBuilder.Pop | converter/converter/docx_parser.py:210 | one level up, the lists unchanged |
| DocxParser.ListBuilder.Append | converter/converter/docx_parser.py:211-213 | the entry is appended at the current point |
| DocxParser.RunProp | converter/converter/docx_parser.py:232-237 | each style tag gives an empty run property whose only attribute is `w:val`, `single` for underline |
| DocxParser.ApplyHtmlStyle | converter/converter/docx_parser.py:217-246 | an unknown tag raises KeyError and an empty run IndexError; a run with a `w:rPr` carrying attributes fails the assertion; otherwise the property is appended to the run's properties (created if missing) and the content is kept |
| DocxParser.ApplyHtmlStyleTwice | converter/converter/docx_parser.py:239-245 | applying two styles accumulates both properties in order and keeps the content |
| DocxParser.ApplyHtmlStyleExample | converter/converter/docx_parser.py:218-230 | the doctest: `b` and then `i` on `('w:r', {}, ['...'])` |
| DocxParser.LiftCode | converter/converter/docx_parser.py:249-265 | a `p` without attributes whose children are all `code` becomes one `code` joining their bodies (attributes of the `code`s dropped); anything else is unchanged |
| DocxParser.LiftCodeIdempotent | converter/converter/docx_parser.py:249-265 | lifting twice is lifting once |
| DocxParser.LiftCodeJoins | converter/converter/docx_parser.py:257-263 | two adjacent `code` children are coalesced |
| DocxParser.LiftCodeEdges | converter/converter/docx_parser.py:253-254 | an empty `p` counts as all code, a `p` with text does not, and a `p` with attributes never matches |
| DocxParser.HackyFlattenBlock | converter/converter/docx_parser.py:268-279 | a `.block` holding exactly one `p` becomes a `.block` with the paragraph's body; anything else is unchanged |
| DocxParser.HackyFlattenBlockAttrs | converter/converter/docx_parser.py:274-277 | the attributes are merged with `merge_attrs`: classes of the block then the new ones of the paragraph, styles updated by the paragraph's, and other attributes taken from the paragraph first |
| HtmlParser.SpaceNormalize | converter/converter/html_parser.py:97-102 | the empty string stays empty, and otherwise every run of HTML space characters becomes one space while the other characters are kept in order |
| HtmlParser.SpaceNormalizeIdempotent | converter/converter/html_parser.py:97-102 | normalising twice is normalising once |
| HtmlParser.CollapseSolidPrefix | converter/converter/html_parser.py:102 | text without space characters before the first run is kept as it is |
| HtmlParser.CollapseRun | converter/converter/html_parser.py:102 | a run of space characters followed by text without them becomes one space |
| HtmlParser.SpaceNormalizeJoinsWords | converter/converter/html_parser.py:100-102 | two words separated by any run of `\n`, `\r`, `\t` and spaces are joined by one space |
| HtmlParser.PromoteIn | converter/converter/html_parser.py:156-163 | a class is promoted exactly when the table lists it for the tag, and it becomes the promoted tag |
| HtmlParser.PromotionTable | converter/converter/html_parser.py:156-163 | `title` promotes `h1`, `subtitle` promotes `h2`, `footnote` promotes `span`, `div` and `aside`, `pagebreak` promotes `span` and `div`, `tex2jax_process` promotes `span`; only `title` and `subtitle` have no leading dot |
| HtmlParser.PromotedTagIsFinal | converter/converter/html_parser.py:162-164 | the tag a class is promoted to is never promoted again |
| HtmlParser.KeptMembers | converter/converter/html_parser.py:165-169 | a class is kept exactly when it is not an alignment on a table cell |
| HtmlParser.FirstPromotion | converter/converter/html_parser.py:155-164 | the first promoting class is one that promotes the tag |
| HtmlParser.FirstPromotionIsFirst | converter/converter/html_parser.py:155-164 | no class before it promotes the tag |
| HtmlParser.CleanClassesFinal | converter/converter/html_parser.py:155-169 | once the tag can no longer be promoted, and is no table cell, every class is kept and the tag stays |
| HtmlParser.CleanClassesAt | converter/converter/html_parser.py:155-169 | one turn of the loop: a promoting class changes the tag and is dropped, any other is kept unless it is an alignment on a table cell |
| HtmlParser.PromotedHead | converter/converter/html_parser.py:162-164 | a first class that promotes the tag is dropped and gives the promoted tag |
| HtmlParser.CleanClassesSpec | converter/converter/html_parser.py:153-174 | without a promoting class the tag stays and every non-dropped class is kept; otherwise the tag is the first promotion's, the classes before it are filtered and those after it all kept |
| HtmlParser.CleanupClassesKeys | converter/converter/html_parser.py:170-173 | `class` is deleted when no class is left and set to the list left otherwise, and no other attribute changes |
| HtmlParser.CleanupClassesTitle | converter/converter/html_parser.py:157-163 | `h1` with classes `title` and another becomes `title` with the other class |
| HtmlParser.SplitOneClass | converter/converter/html_parser.py:155 | a class string without spaces splits into itself |
| HtmlParser.CleanupClassesCell | converter/converter/html_parser.py:166-171 | a `td` of class `center` loses its `class` attribute |
| HtmlParser.RawAttrs.CleanupClassesInPlace | converter/converter/html_parser.py:153-174 | the loop over split classes, updating the dict, computes the tag and attributes of the reference definition; a missing `class` raises KeyError and leaves the dict alone |
| HtmlParser.RawAttrs.CleanupAttrsInPlace | converter/converter/html_parser.py:176-186 | deleting the attributes off the allow-list one key at a time gives the attributes of the reference definition, whatever the key order |
| HtmlParser.PartialStep | converter/converter/html_parser.py:177-186 | one turn of the loop keeps, moves or deletes one key |
| HtmlParser.PartialAll | converter/converter/html_parser.py:177 | once every key is visited, the result is the cleaned attributes |
| HtmlParser.CleanAttrsKeys | converter/converter/html_parser.py:178-186 | a key is kept exactly when it is `style`, `class`, `id`, `data-…`, `name`/`href` on `a`, `src` on `img` or `start` on a list; a `col`'s `width` is moved into `style` and replaces it |
| HtmlParser.CleanAttrsIdempotent | converter/converter/html_parser.py:176-186 | cleaning twice is cleaning once |
| HtmlParser.TrimFig | converter/converter/html_parser.py:139-140 | at most a final blank string is removed, and what is left is a prefix |
| HtmlParser.CaptionFirst | converter/converter/html_parser.py:141-142 | swapping the caption to the front keeps the length |
| HtmlParser.CleanupFig | converter/converter/html_parser.py:137-151 | a body that is only a blank string raises IndexError at `body[-1]`, and an empty body is left alone |
| HtmlParser.CleanupFigCaption | converter/converter/html_parser.py:141-142 | a trailing `figcaption` is swapped with the first item, and the items between stay where they are |
| HtmlParser.CleanupFigWidth | converter/converter/html_parser.py:143-151 | a figure without width whose last item is an `img` takes the image's width or `100%`, gets a `display`, and the image loses its style; other figure attributes stay |
| HtmlParser.WidthStyleGets | converter/converter/html_parser.py:147-150 | the figure's style then has the width and a `display` |
| HtmlParser.CleanupFigKeepsAttrs | converter/converter/html_parser.py:143-145 | a figure with a width, or without a trailing `img`, keeps its attributes |
| HtmlParser.CleanupFigInPlace | converter/converter/html_parser.py:137-151 | updating the caller's dict and list in place gives the attributes and body of the reference definition, and an all-blank body is emptied before IndexError is raised |
| HtmlParser.AdjustWidth | converter/converter/html_parser.py:143-151 | the width adjustment in place gives the attributes and body of the reference definition |
| HtmlParser.FootnoteState.constructor | converter/converter/html_parser.py:201-227 | a new footnote state has no pending references |
| HtmlParser.FootnoteState.MaybeHandleFootnote | converter/converter/html_parser.py:201-227 | a `#id` reference saves its own body list under `id` and yields a `.footnote` holding that same list object; any other `href` yields nothing; an endnote pops its id and overwrites the saved list with its body; a missing `href` or `id` raises KeyError; any other element gives `None`; no other list changes |
| HtmlParser.NoteThenBody | converter/converter/html_parser.py:208-225 | after a reference and then its endnote, the `.footnote` the reference yielded holds the endnote's body, since it refers to the reference's body list, and the id is no longer pending |

## Left out

- Format input and output: the `lxml`, `html5lib`, zip and XML plumbing of the parsers and writers is not modelled, because it lives in foreign libraries. This covers:
  - `odt_parser.parse_body`/`preparse`/`read_in_styles`/`rewrite_input`/`Sty.from_odt_style`;
  - the `docx_parser.Docx` class, `meta_to_runs` and `intdigest`;
  - the zip reads of `docxlite.Document`;
  - `xmltools.etree2tup`/`tup2etree`/`to_etree`;
  - `epub_writer.py`, `lxmlutil.py`, `xml_namespaces.py` and `xmldebug.py`.
- The command line, processes and files (`gdoc_converter.py`, `stytempl.py`, `orderedyaml.py`, `pickle_writer.py`, `markdown_parser.py`) are not modelled. They are I/O and subprocess plumbing.
- Floating point is not modelled: `utils.py`, `odt_parser.in_cm`/`in_indents`, the width transform of `Sty`, `latex_writer.figure`/`metaimage`/`textwidth_percent` and `odt_writer.odt_image`. DOCX lengths are converted to EMUs in exact integer arithmetic instead.
- Hashing and randomness: `sectionize.make_stable_gensym` seeds Python's Mersenne Twister and base32-encodes random bits. The model's `Sectionize.Gensym` is a counter class handing out `"G."` followed by the count, as `G.` is the prefix at sectionize.py:18. What the model keeps is that the ids are distinct.
- Not modelled, because each is hashing or image I/O: `digest.py`, `literal.doc_uuid`/`Uuid`, `transclusions.py`, `literal.Image` and `MetaInfo.hexdigest`.
- Foreign libraries:
  - not modelled: `highlight.py` (pygments), `spellsuggest.py` (the "did you mean" suggestion of an unexpected field's message is left out of `MetaInfo.UnknownProblem`), `dublin.py`, `mimetype.py`, `unparse.py` and the `_literal.py` dispatch;
  - parameters: `dateutil` and `datetime.today` behind `literal.Date`;
  - a parameter of `MetaInfo.Literals`: the HTML re-parse of `Bibliography`.
- html_parser's parsing entry points and `_parse_body` are not modelled; they drive lxml and html5lib. `style_normalize`/`color_normalize` (cssutils), `_cleanup_style` and `_de_data_url` are not modelled either: they are thin wrappers over cssutils, base64 and the transclusion store.
- The full emitters are not modelled: `LatexWriter.latexify`, `handle_emphasis`, `section` and `xmp_meta`, the remaining branches of `html_writer.handle_fragment`, `highlight`, `write` and `_append_bibliography`. They depend on transclusions, pygments, urlparse and docproblem side effects. Only their string helpers are modelled.
- odt_writer: the text of `ODT_IMAGE_STYLE_TEMPLATE` is not kept, because `ensure_minimal_styles` raises TypeError for `Image` before it could be used (`OdtWriter.ImageStyleFails`). The lxml lookups of `ensure_minimal_styles` and `meta_to_odt_xml` are not modelled.
- Error reporting: `docproblem`, `log.*` and the `print attrs, body` at html_parser.py:216 are no-ops, because they only write to logs and a global counter (`docerror.py`, `exit_code.py`).
- Unicode normalisation: `nfc` (postprocess.py:259-260) is the identity in the coalescing of text runs. The model has no Unicode tables.
- Internal.MkErr: keeps the description only. The `info` tuple is always `[description, (), {}]`, and `mkerr`'s `*args`/`**kwargs` are not modelled, because they are read only when an error message is rendered.
- PyStr.Lower, PyStr.Upper and PyStr.Capitalize map ASCII letters only. Python's unicode `.lower()`/`.upper()`/`.capitalize()` also map other letters (`u'É'.lower() == u'é'`). `Internal.IsCodeFont`, the `today` test of `Literal` and `LatexWriter.LatexifyMetavarname` inherit this.
- Postprocess.StyleMerge: returns the merged attributes as a new value. `_style_merge` (postprocess.py:195-199) copies `attrs` shallowly and `update`s the shared style OrderedDict in place, so the original attributes see the merge too. The model does not capture that aliasing.
- MetaInfo.MakeSchema: when an entry both misses a key (KeyError) and fails an assertion (AssertionError), the model reports the KeyError. Python reports whichever error its dict iteration order reaches first.
- MetaInfo.Literals: its `types` field is total, so the KeyError the source raises for a Python type missing from `PY_TYPE_TO_TYPESETR_TYPES`, or a type missing from `TYPE_EXAMPLES`, is not modelled.
- EzMatch.AsTuple: treats a dict as a value `tuple()` cannot take, so a `Seq` pattern never matches a dict. In Python `tuple(d)` gives the dict's keys in hash order, which the model does not fix, so a `Seq` could match a dict by its keys.
- MetaInfo.ValidateAndAugment: returns the validated values. It does not write the parsed values back into the caller's `meta[k]` (metainfo.py:185).
- PostprocessCites.LinkToCite: states the final citation only for the plain link bodies `key` and `[key]`. The general case, any balanced-bracket body, is stated by `PostprocessCites.CiteLinkCites` as a match of the parsed parts.
- The merge loop of `parse_cites` advances even after a merge, so three strings in a row merge only the first two (`PostprocessCites.MergeThreeStrings`). This is modelled as written.
- PostprocessPasses.BlockLastTextStripped: requires the block's last string to have a visible character. A blank last string is dropped, and the string before it keeps its space.
- DocxParser.ListBuilder: the XML lookups of `process` and `list_type` (`numPr`, `ilvl`, `get_num_style`) and the paragraph conversion are parameters of its methods. `flatmap` is not modelled: only the `Docx` class, left out above, calls it.
- HtmlParser.RawAttrs.CleanupAttrsInPlace: requires a `col`'s `width` to be a string, which the HTML parser always supplies. It leaves out the `TypeError` a non-string would raise.
- html_parser: the footnote bodies `_maybe_handle_footnote` shares between a reference and its note are modelled by `Preprocess.BodyList` objects, which alias the same way: the `.footnote` a reference yields refers to the object, and its nodes are read through it. The attributes of `img` are replaced rather than mutated, because no other reference to them is live at that point.
- The Python built-ins the model relies on are restated in `PyStr`, for the argument ranges the core uses: `str.strip`/`lstrip`/`rstrip`, `split`, `replace`, `join`, the case mappings, `cgi.escape` and the decimal `repr` of an integer.
- Browser JavaScript in the styles is not modelled; it is UI code.

## Findings

| source | as written | input that shows it | evidently intended | confidence | as-written member | corrected member |
|---|---|---|---|---|---|---|
| converter/converter/metainfo.py:208 | a missing required text field is reported by `error('This field is required', '', k)`, which files the error under the key `''` with the field's name as the supplied value | a schema whose only fields are `lang` and one required text field, and a document without that field | the error is filed under the field's own key, as for the other types at metainfo.py:210-211 | not executed | MetaInfo.MissingRequiredTextNoErrors | MetaInfo.MissingRequiredIsError |
| converter/converter/internal.py:9-10 | `'fixed' 'GNU Unifont'` lacks a comma, so the two names concatenate into one entry `'fixedGNU Unifont'` | `is_code_font('fixed')` is false | `fixed` and `GNU Unifont` are code fonts each | not executed | Internal.CodeFontMissingComma | Internal.CodeFontIntended |
| converter/converter/docx_parser.py:171-173 | the group key of a sublist equals every key, so a sublist followed by anything raises `ValueError` in `body, = body` | a list whose first entry is a nested sublist followed by an item | a sublist without an item before it becomes a `.block` of its own, and the items after it keep their own list | not executed | DocxParser.OrphanSublist | DocxParser.BuildListKeepsParagraphs |
