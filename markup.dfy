/** What the HTML parser hands the extractor. Each record holds the results of the tree queries
    (`find`, `find_all`, `find_parent`, `.text`, `.get("class")`) that cambridge_parser.py runs on
    one node, in document order; the class filters of those queries are the parser's business. */
module Markup {
  import opened Wrappers

  /** The site origin every audio and image link is built from. */
  const LinkPrefix: string := "https://dictionary.cambridge.org"

  /** The three same-page dictionaries, numbered as in Python's `IntEnum`. */
  datatype Variation = English | American | Business {
    function Index(): nat {
      match this
      case English => 0
      case American => 1
      case Business => 2
    }
  }

  /** The Python exceptions the extraction can raise on unexpected markup. */
  datatype Fault =
    | MissingClassAttribute  // iterating `node.get("class")` when it is None: TypeError
    | MissingPhraseTitle     // `.text` of a phrase title that is not there: AttributeError

  /** A tag span: its text and the class attribute of its grandparent (None when absent). */
  datatype TagSpan = TagSpan(text: string, grandparentClass: Option<seq<string>>)

  /** A tag-bearing region: the spans of the level, grammar, region, usage and domain queries. */
  datatype TagRegion = TagRegion(
    levels: seq<TagSpan>,    // span.epp-xref
    grams: seq<TagSpan>,     // span.gram dgram
    regions: seq<TagSpan>,   // span.region dregion
    usages: seq<TagSpan>,    // span.usage dusage
    domains: seq<TagSpan>)   // span.domain ddomain

  /** A tag child of one irregular-form entry: its text and class attribute. */
  datatype FormPart = FormPart(text: string, classes: Option<seq<string>>)

  /** The spelling and inflection markup of a region. */
  datatype FormsRegion = FormsRegion(
    vars: seq<string>,                   // texts of span.var dvar
    spellVars: seq<string>,              // texts of span.spellvar dspellvar
    irregular: Option<seq<seq<FormPart>>>) // children of the first span.irreg-infls dinfls,
                                           // each given by its own tag children

  /** An audio span (span.daud): its parent's class attribute and the `src` of its first
      `<source>` (None when there is no `<source>` or it has no `src`). */
  datatype Audio = Audio(parentClass: Option<seq<string>>, src: Option<string>)

  /** A transcription span (span.pron dpron): its text and its parent's class attribute. */
  datatype Pron = Pron(text: string, parentClass: Option<seq<string>>)

  /** The header of an entry block (span.di-info or div.pos-header dpos-h). */
  datatype Header = Header(
    headword: Option<string>,  // text of span.hw dhw
    posTexts: seq<string>,     // texts of span.pos dpos
    audios: seq<Audio>,
    prons: seq<Pron>,
    tags: TagRegion,
    forms: FormsRegion)

  /** The tag region of a phrase block (span.phrase-info dphrase-info). */
  datatype PhraseInfo = PhraseInfo(tags: TagRegion, forms: FormsRegion)

  /** A phrase block: the text of its title span (span.phrase-title) and its tag region. */
  datatype PhraseBlock = PhraseBlock(title: Option<string>, info: Option<PhraseInfo>)

  /** The head of a definition unit (div.ddef_h). */
  datatype DefHead = DefHead(
    definition: Option<string>,    // text of div.def ddef_d db
    tags: Option<TagRegion>,       // span.def-info ddef-info
    forms: FormsRegion,
    phrase: Option<PhraseBlock>,   // nearest ancestor div.pr phrase-block dphrase-block
    phraseLmb: Option<PhraseBlock>) // nearest ancestor div.pr phrase-block dphrase-block lmb-25

  /** A definition unit (div.def-block ddef_block). */
  datatype DefBlock = DefBlock(
    imageSrc: Option<string>,   // `src` of the amp-img in div.dimg ("" when the attribute is
                                // missing); None when there is no such image element
    examples: seq<string>,      // texts of div.examp dexamp in div.def-body ddef_b
    head: Option<DefHead>)

  /** An entry block: a part-of-speech entry, a phrasal-verb block or an idiom block. */
  datatype Entity = Entity(
    headword: Option<string>,  // text of h2.headword
    diInfo: Option<Header>,    // span.di-info
    posHeader: Option<Header>, // div.pos-header dpos-h
    defBlocks: seq<DefBlock>)

  /** One dictionary's region of the page (div.pr di superentry). */
  datatype Superentry = Superentry(
    entries: seq<Entity>,       // div.pr entry-body__el
    phrasalVerbs: seq<Entity>,  // div.pv-block
    idioms: seq<Entity>)        // div.pr idiom-block

  /** A parsed page: its superentries in document order. */
  datatype Page = Page(superentries: seq<Superentry>)
}
