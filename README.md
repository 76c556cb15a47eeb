# A verified model of the Cambridge dictionary extractor

`cambridge_parser.py` fetches the Cambridge Dictionary page of a word and turns it into a
nested dictionary. The nesting is word → part of speech → fourteen parallel lists. Each
definition unit ("sense") on the page adds one slot to every list:

- definition, level, image link;
- UK and US transcriptions, UK and US audio links;
- examples, alternative terms, irregular forms;
- grammar labels and codes, regions, usages, domains.

This project models that extraction over abstract inputs. It proves what each step promises.

The model is built from these modules:

- `Markup` holds the parser's query results as records, in document order: header blocks, tag
  spans with their grandparent's class attribute, audio spans with their parent's class
  attribute, definition units, phrase blocks and superentries. The model starts from these
  records, not from HTML.
- `Text` holds Python's `str.strip`, `strip(chars)`, `lower` (ASCII), `sep.join`, a split used
  as the join's inverse, and substring search.
- `Folds` holds a left fold whose step may fail. It has the shape of a Python `for` loop whose
  body can raise.
- `Tags` models `get_tags` (with `find_tag` and `find_all_tags`) and `concatenate_tags`.
- `Phonetics` models `get_phonetics`.
- `Forms` models `get_alt_terms` and `get_irregular_forms`.
- `Records` models `update_word_dict`. The class `WordDict` holds the nested dictionary as a
  `map` and appends in place through its method `Update`.
- `Parser` models `define`. Entry blocks are visited in order: entries, then phrasal-verb
  blocks, then idiom blocks. Each block's header facts are gathered once, and each definition
  unit is assembled and recorded.

Each looping operation of the source is a `method` with the source's loop. Each method is
proved equal to a specification function: `FindAllTags`, `GetTags`, `ConcatenateTags`,
`GetPhonetics`, `GetAltTerms`, `CollectPartTexts`, `GetIrregularForms`, `StripAll`,
`GatherEntryFacts`, `AssembleSense`, `DefineSense`, `DefineEntity`, `DefineBlocks` and `Define`. The specification functions
are then related by lemmas to independent reference definitions and to the properties the
source promises.

Python exceptions on unexpected markup are modelled as an `Err` result (`Markup.Fault`):

- `MissingClassAttribute`: iterating a class attribute that is `None` raises `TypeError`. This
  happens for a tag span's grandparent (cambridge_parser.py:67-69, 83-85) and for an audio
  span's parent (cambridge_parser.py:113).
- `MissingPhraseTitle`: `.text` of a phrase title that is absent raises `AttributeError`
  (cambridge_parser.py:356-357).

Apart from these two cases, a missing sub-region degrades to "" or []. Three more behaviours
of the code:

- An out-of-range variant returns {} (cambridge_parser.py:265-266).
- `strip(": ")` removes every ':' and ' ' at both ends of a definition
  (cambridge_parser.py:325).
- Nothing after a "phrasal verb" label is skipped: every part-of-speech span goes into the
  key (cambridge_parser.py:284-285).

## Model

| member | source | states |
|---|---|---|
| Records.WordDict.Update | cambridge_parser.py:162-214 | the new dictionary is the old one with one slot appended at (word, pos); a missing key is created first with empty lists; equal list lengths stay equal |
| Records.WordDict.constructor | cambridge_parser.py:259 | the result dictionary starts empty, and so trivially aligned |
| Records.Inserted | cambridge_parser.py:183-214 | the keys after an update are the old keys plus the call's key; the touched entry is the old entry (or all empty lists) with one slot appended; every other entry is unchanged |
| Records.AppendGrowsEveryList | cambridge_parser.py:201-214 | each of the fourteen `.append` calls makes its list exactly one longer, so aligned lists stay aligned |
| Records.AppendOnlyAppends | cambridge_parser.py:201-214 | earlier slots are untouched and the new last slot is the appended one |
| Records.InsertedKeepsAligned | cambridge_parser.py:183-214 | an update keeps all fourteen lists under every key the same length |
| Records.InsertedOnlyAppends | cambridge_parser.py:183-214 | the touched entry gains exactly one slot after its old ones; a new key ends with exactly one slot; every other (word, pos) entry is unchanged |
| Records.Filled | cambridge_parser.py:201-214 | a given argument is stored as given; an absent definition, level or image link is stored as ""; an absent list is stored as [] |
| Records.NoneStoredAsEmpty | cambridge_parser.py:180-181 | an absent word or part of speech files the slot under the key ""; the last slot under the key is the filled-in slot |
| Tags.FindAllTags | cambridge_parser.py:74-89 | the loop over matching spans equals the fold specification, including raising on a classless grandparent |
| Tags.TagTextsMeaning | cambridge_parser.py:81-89 | `find_all_tags` raises exactly when some span's grandparent has no class attribute; otherwise it returns the stripped, non-empty texts of the spans outside variant and group markup, in order |
| Tags.KeptTextsSound | cambridge_parser.py:85-88 | every kept tag is non-empty and is the stripped text of a span whose grandparent has no class token containing "var" or "group" |
| Tags.DroppedSpanAddsNothing | cambridge_parser.py:85-88 | a span inside variant or group markup, or a blank one, contributes nothing wherever it stands |
| Tags.InVariantOrGroupAt | cambridge_parser.py:69 | the exclusion test holds exactly when some class token contains "var" or "group" |
| Tags.LevelFromFirstSpan | cambridge_parser.py:63-72 | the level depends only on the first matching span; a first span inside variant or group markup yields "" |
| Tags.BundleHoldsOnlyKeptSpans | cambridge_parser.py:91-96 | the four list categories of a resolved region are exactly the kept texts of their own queries |
| Tags.GetTags | cambridge_parser.py:53-96 | the resolution equals its specification: all empty for an absent region, otherwise level by the first span and lists by the filtered loops |
| Tags.MergeKeepsOrder | cambridge_parser.py:154-158 | the block level wins when non-empty, else the global one; every list is the global list followed by the block list, with nothing dropped or deduplicated |
| Tags.MergeMonoid | cambridge_parser.py:154-158 | merging is associative, and the empty bundle is a unit on both sides |
| Tags.ConcatenatedAbsentRegion | cambridge_parser.py:152-159 | an absent tag section leaves the global tags unchanged |
| Tags.ConcatenateTags | cambridge_parser.py:146-159 | `concatenate_tags` resolves the section and merges it onto the global bundle, raising when the resolution raises |
| Phonetics.Tokens | cambridge_parser.py:113 | the parent's class tokens are each stripped and lower-cased, one per attribute value |
| Phonetics.HasTokenMeaning | cambridge_parser.py:122-124 | the membership test on tokens is exact token equality after stripping and lower-casing |
| Phonetics.AudioLinksMeaning | cambridge_parser.py:111-125 | the audio loop raises exactly when some audio span's parent has no class attribute; otherwise UK links come from the "uk"-marked playable spans and US links from those marked "us" but not "uk", in order |
| Phonetics.LinksWellFormed | cambridge_parser.py:114-125 | every link is `LINK_PREFIX + "/" + src` for the non-empty source of a marked span; "uk" wins over "us"; spans with neither token give no link |
| Phonetics.EnglishIpaSound | cambridge_parser.py:127-137 | in the general dictionary each UK transcription comes from a span whose parent has "uk", and each US one from a span whose parent has "us" and not "uk"; spans without a class attribute are skipped; there are never more transcriptions than spans |
| Phonetics.EnglishIpaMeaning | cambridge_parser.py:127-137 | in the general dictionary the UK and US lists are exactly the per-span contributions in page order: a span whose parent has "uk" adds its stripped text to the UK list, one whose parent has "us" and not "uk" adds it to the US list, and every other span, including one whose parent has no class attribute, adds nothing |
| Phonetics.NonEnglishIpa | cambridge_parser.py:138-142 | outside the general dictionary the UK list is empty and the US list holds at most the first transcription |
| Phonetics.PhoneticsLinks | cambridge_parser.py:111-125 | the returned audio lists equal the reference definitions, and every link has a non-empty source after the prefix |
| Phonetics.GetPhonetics | cambridge_parser.py:98-143 | `get_phonetics` equals its specification: nothing for an absent header, audio links then transcriptions |
| Forms.AltTermsOf | cambridge_parser.py:236-245 | variant texts come first, then spelling-variant texts, each stripped, none dropped; nothing for an absent region |
| Forms.GetAltTerms | cambridge_parser.py:236-245 | the loop equals the specification |
| Forms.IrregularFormsSound | cambridge_parser.py:225-232 | there are no more forms than inflection entries, and each form is the non-empty space-joined text of one entry |
| Forms.SkippedPartAddsNothing | cambridge_parser.py:227-230 | a child without a class attribute, or one with a "dpron" class, adds nothing to an entry's text at whatever position it stands |
| Forms.CollectPartTexts | cambridge_parser.py:226-230 | the inner loop collects exactly the reference texts of an entry |
| Forms.GetIrregularForms | cambridge_parser.py:216-233 | `get_irregular_forms` equals its specification: nothing without a region or an inflection span, else the non-empty joined entries |
| Text.StripCharsShape | cambridge_parser.py:325 | the result is a contiguous piece of the input with no stripped character at either end, and only stripped characters were removed |
| Text.StripCharsIdempotent | cambridge_parser.py:325 | stripping twice is stripping once |
| Text.ContainsAt | cambridge_parser.py:69 | the recursive substring test holds exactly when the pattern occurs at some position |
| Text.SplitJoin | cambridge_parser.py:285 | splitting a ","-join of comma-free parts gives the parts back |
| Text.StripAll | cambridge_parser.py:316-319 | the example loop strips each text in order |
| Parser.HeaderWord | cambridge_parser.py:279-282 | the block's word is the stripped h2 headword; failing that, the stripped headword span of the header; failing that, "" |
| Parser.PosLabelSplits | cambridge_parser.py:284-285 | when no stripped part-of-speech text holds a comma, splitting the key at "," gives exactly the stripped texts back |
| Parser.PosLabelIdiom | cambridge_parser.py:285 | the key is "idiom" exactly when there are no part-of-speech spans, or the only one reads "idiom" |
| Parser.DefinitionText | cambridge_parser.py:324-325 | the definition has no leading or trailing ':' or ' ', is a contiguous piece of the element's text, and is "" without the element |
| Parser.ImageLink | cambridge_parser.py:304-309 | the image link is the site origin glued to `src` with no separator, or "" without an image |
| Parser.ArgsOf | cambridge_parser.py:359-375 | the update call names the unit's key and part of speech, and fills exactly the unit's slot |
| Parser.GatherEntryFacts | cambridge_parser.py:273-290 | header facts in the source's order: alternative terms, irregular forms, word, part of speech, then phonetics and tags, which may raise |
| Parser.AssembleSense | cambridge_parser.py:293-357 | the definition-unit body equals its specification, including both raising paths |
| Parser.SenseListOrder | cambridge_parser.py:363-364 | stored alternative terms are header first, then the unit's; stored irregular forms are the unit's first, then the header's |
| Parser.SenseKey | cambridge_parser.py:302-357 | inside a phrase block the unit is keyed by the stripped phrase title, which must exist; otherwise by the header word |
| Parser.HeaderWordStripped | cambridge_parser.py:279-282 | the block's word, from whichever fallback, has no whitespace at either end |
| Parser.SenseWordStripped | cambridge_parser.py:279-357 | every unit the source files is keyed by a word with no whitespace at either end, whether the stripped phrase title or the block's word |
| Parser.MissingTitleRaises | cambridge_parser.py:356-357 | a phrase block without a title makes the extraction raise |
| Parser.SenseWithoutHead | cambridge_parser.py:293-375 | a unit without a definition head stores "" as its definition and no tags at all (the header's level and tag lists are dropped too), the header's alternative terms and irregular forms, and stripped examples |
| Parser.SenseOutsidePhrase | cambridge_parser.py:328-330 | outside a phrase block the header word is kept, the header's tags are a prefix of each tag list, and an empty level means the header had none; without a tag section the header's tags pass through unchanged |
| Parser.SenseDefinitionStripped | cambridge_parser.py:293-325 | every stored definition is free of boundary ':' and ' ', and "" when the unit has no definition head |
| Parser.RecordSenseAppends | cambridge_parser.py:359-375 | recording a unit appends exactly its slot under its word and the block's part of speech, and leaves all other entries alone |
| Parser.DefineSense | cambridge_parser.py:292-375 | one pass of the definition-unit loop equals filing that unit, or raises its fault; the dictionary's lists stay aligned |
| Parser.DefineEntity | cambridge_parser.py:272-375 | one pass of the entry-block loop equals the fold over its definition units, or raises the first fault; the dictionary's lists stay aligned |
| Parser.DefineBlocks | cambridge_parser.py:268-376 | the entry-block loop, started from an empty dictionary, equals the fold over the blocks, or raises the first fault; a returned dictionary has its lists aligned under every key |
| Parser.Define | cambridge_parser.py:264-376 | `define` on a parsed page equals its specification: the guard, then every entry, phrasal-verb and idiom block in order; a returned dictionary has its lists aligned under every key |
| Parser.DefineInBlockOrder | cambridge_parser.py:268-272 | the blocks are recorded in three runs, every entry block, then every phrasal-verb block, then every idiom block, each from the dictionary the previous run left; a fault in an earlier run ends `define` before the later runs |
| Parser.DefineAligned | cambridge_parser.py:265-266 | an out-of-range variant gives the empty dictionary, and every returned dictionary keeps its fourteen lists aligned under every key |
| Parser.RecordEntityAligned | cambridge_parser.py:292-375 | processing one entry block keeps every entry's lists aligned |
| Folds.FoldFailurePersists | cambridge_parser.py:272 | once a loop iteration raises, the whole loop raises that error |
| Folds.FoldPreserves | cambridge_parser.py:272 | a property every successful iteration keeps holds of the loop's result |

## Left out

- The HTTP fetch (`requests.get`, the request headers and the timeout) is not modelled. It is
  network I/O; `Define` starts from the parsed page.
- BeautifulSoup parsing and tree queries (`find`, `find_all`, `find_parent`, `.text`, `.get`)
  are not modelled. They are a foreign library. Their results are the `Markup` records, each
  list in document order, and the class filters of the queries belong to the parser.
- `get_irregular_forms` iterates over all children of the inflection span. A text node among
  them joins to "" and is skipped, so `Markup.FormsRegion` lists only element children, each by its tag
  children.
- The `__main__` demo that pretty-prints one lookup is not modelled.
- Text.Lower: lower-cases ASCII letters only. Python's `str.lower` also maps non-ASCII letters
  (for example 'K' U+212A), which the class tokens of this site do not use.
- Python dictionary insertion order is not modelled: the result is a `map`, so only its
  contents are stated.
- The header's four phonetic lists (`uk_ipa`, `us_ipa`, `uk_audio_links`, `us_audio_links`) are
  the same list objects in every slot of a block in the source; every tag list a slot stores is
  a fresh list. The model uses values, so this sharing is not modelled; the source never
  mutates those four lists afterwards.
- `DictionaryVariation` is a closed enumeration with the values 0, 1 and 2, as in Python's
  `IntEnum`. A raw out-of-range integer index is not modelled.
