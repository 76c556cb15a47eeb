/** The extractor `define`: for the chosen dictionary's superentry, every entry block yields its
    header facts once, and every definition unit in it yields one slot of the result
    dictionary. */
module Parser {
  import opened Wrappers
  import opened Folds
  import opened Text
  import opened Markup
  import opened Tags
  import opened Phonetics
  import opened Forms
  import opened Records

  /** What an entry block's header contributes to every unit of the block. */
  datatype EntryFacts = EntryFacts(
    word: string,
    pos: string,
    phonetics: Phonetics,
    tags: TagBundle,
    altTerms: seq<string>,
    irregularForms: seq<string>)

  /** The values a definition unit has gathered before they are combined with the header's. */
  datatype Local = Local(
    word: string,
    definition: string,
    tags: TagBundle,
    altTerms: seq<string>,
    irregularForms: seq<string>)

  /** One definition unit: the key word it is filed under and its slot. */
  datatype Sense = Sense(word: string, slot: Slot)

  /** The header block: span.di-info when present, else div.pos-header. */
  function HeaderOf(e: Entity): Option<Header> {
    if e.diInfo.Some? then e.diInfo else e.posHeader
  }

  function HeaderTags(header: Option<Header>): Option<TagRegion> {
    match header
    case None => None
    case Some(h) => Some(h.tags)
  }

  function HeaderForms(header: Option<Header>): Option<FormsRegion> {
    match header
    case None => None
    case Some(h) => Some(h.forms)
  }

  /** The block's word: the stripped h2 headword, else the stripped headword span of the
      header, else "". */
  function HeaderWord(e: Entity): (w: string)
    ensures e.headword.Some? ==> w == Strip(e.headword.value)
    ensures e.headword.None? && HeaderOf(e).Some? && HeaderOf(e).value.headword.Some? ==>
              w == Strip(HeaderOf(e).value.headword.value)
    ensures e.headword.None? && (HeaderOf(e).None? || HeaderOf(e).value.headword.None?) ==> w == ""
  {
    if e.headword.Some? then Strip(e.headword.value)
    else
      match HeaderOf(e)
      case None => ""
      case Some(h) => if h.headword.Some? then Strip(h.headword.value) else ""
  }

  /** The part-of-speech key: "idiom" without part-of-speech spans, else their stripped texts
      joined with ",". */
  function PosLabel(header: Option<Header>): string {
    if header.None? || header.value.posTexts == [] then "idiom"
    else Join(",", StripEach(header.value.posTexts))
  }

  /** The key lists every part of speech of the header: splitting it at "," gives the stripped
      part-of-speech texts back whenever none of them holds a comma; without part-of-speech
      spans the key is "idiom". */
  lemma PosLabelSplits(header: Option<Header>)
    requires header.Some? && header.value.posTexts != []
    requires forall k :: 0 <= k < |header.value.posTexts| ==> ',' !in Strip(header.value.posTexts[k])
    ensures Split(PosLabel(header), ',') == StripEach(header.value.posTexts)
  {
    var parts := StripEach(header.value.posTexts);
    assert forall k :: 0 <= k < |parts| ==> ',' !in parts[k];
    SplitJoin(parts, ',');
  }

  /** The key is "idiom" exactly when the header has no part-of-speech span, or its only one
      reads "idiom": a key joined from two or more texts holds a comma. */
  lemma {:induction false} PosLabelIdiom(header: Option<Header>)
    ensures PosLabel(header) == "idiom" <==>
              header.None? || header.value.posTexts == [] || StripEach(header.value.posTexts) == ["idiom"]
  {
    if header.Some? && |header.value.posTexts| >= 2 {
      var parts := StripEach(header.value.posTexts);
      var key := PosLabel(header);
      assert key == parts[0] + "," + Join(",", parts[1..]);
      assert key[|parts[0]|] == ',';
      assert ',' !in "idiom";
    }
  }

  /** `text.strip(": ")` of the definition element, or "" when there is none. */
  function DefinitionText(definition: Option<string>): (r: string)
    ensures definition.None? ==> r == ""
    ensures r != [] ==> r[0] != ':' && r[0] != ' ' && r[|r| - 1] != ':' && r[|r| - 1] != ' '
    ensures definition.Some? ==> exists i :: CutFrom(definition.value, {':', ' '}, i, r)
  {
    match definition
    case None => ""
    case Some(text) =>
      StripCharsShape(text, {':', ' '});
      StripChars(text, {':', ' '})
  }

  /** The image link: the site origin glued to `src` with no separator, or "" without an image. */
  function ImageLink(imageSrc: Option<string>): (r: string)
    ensures imageSrc.None? ==> r == ""
    ensures imageSrc.Some? ==> LinkPrefix <= r && r[|LinkPrefix|..] == imageSrc.value
  {
    match imageSrc
    case None => ""
    case Some(src) => LinkPrefix + src
  }

  /** The nearest enclosing phrase block, looked up under its two class spellings in turn. */
  function PhraseOf(head: DefHead): Option<PhraseBlock> {
    if head.phrase.Some? then head.phrase else head.phraseLmb
  }

  /** The header facts of an entry block, in the order the source gathers them; phonetics and
      tags are the steps that can raise. */
  function EntryFactsOf(e: Entity, v: Variation): Result<EntryFacts, Fault> {
    var header := HeaderOf(e);
    var phonetics :- PhoneticsOf(header, v);
    var tags :- TagsIn(HeaderTags(header));
    Ok(EntryFacts(
      HeaderWord(e), PosLabel(header), phonetics, tags,
      AltTermsOf(HeaderForms(header)), IrregularFormsOf(HeaderForms(header))))
  }

  /** Inside a phrase block: the phrase region's alternative terms and irregular forms are
      appended and its tags merged on top; the unit is then keyed by the stripped phrase
      title, whose absence raises. */
  function InPhrase(p: PhraseBlock, local: Local): Result<Local, Fault> {
    var merged :- match p.info
                  case None => Ok(local)
                  case Some(info) => PhraseInfoMerged(info, local);
    if p.title.None? then Err(MissingPhraseTitle)
    else Ok(merged.(word := Strip(p.title.value)))
  }

  function PhraseInfoMerged(info: PhraseInfo, local: Local): Result<Local, Fault> {
    var tags :- Concatenated(Some(info.tags), local.tags);
    Ok(local.(
      tags := tags,
      altTerms := local.altTerms + AltTermsOf(Some(info.forms)),
      irregularForms := local.irregularForms + IrregularFormsOf(Some(info.forms))))
  }

  /** The unit's own values: nothing but the header word without a definition head; otherwise
      the stripped definition, the head's tags merged onto the header's, and the head's
      alternative terms and irregular forms, refined inside a phrase block. */
  function LocalOf(head: Option<DefHead>, facts: EntryFacts): Result<Local, Fault> {
    match head
    case None => Ok(Local(facts.word, "", NoTags, [], []))
    case Some(h) =>
      var tags :- Concatenated(h.tags, facts.tags);
      var local := Local(
        facts.word, DefinitionText(h.definition), tags,
        AltTermsOf(Some(h.forms)), IrregularFormsOf(Some(h.forms)));
      match PhraseOf(h)
      case None => Ok(local)
      case Some(p) => InPhrase(p, local)
  }

  /** The slot of the `update_word_dict` call: header alternative terms before the unit's,
      the unit's irregular forms before the header's, the header's phonetics throughout. */
  function SlotOf(local: Local, imageLink: string, examples: seq<string>, facts: EntryFacts): Slot {
    Slot(
      local.definition, local.tags.level, imageLink,
      facts.phonetics.ukIpa, facts.phonetics.usIpa,
      facts.phonetics.ukAudioLinks, facts.phonetics.usAudioLinks,
      examples,
      facts.altTerms + local.altTerms,
      local.irregularForms + facts.irregularForms,
      local.tags.labelsAndCodes, local.tags.regions, local.tags.usages, local.tags.domains)
  }

  /** One definition unit of an entry block. */
  function SenseOf(b: DefBlock, facts: EntryFacts): Result<Sense, Fault> {
    var local :- LocalOf(b.head, facts);
    Ok(Sense(local.word, SlotOf(local, ImageLink(b.imageSrc), StripEach(b.examples), facts)))
  }

  /** Filing one unit under its word and the block's part of speech. */
  function RecordSense(d: Dict, b: DefBlock, facts: EntryFacts): Result<Dict, Fault> {
    var sense :- SenseOf(b, facts);
    Ok(Inserted(d, sense.word, facts.pos, sense.slot))
  }

  function SenseStep(facts: EntryFacts): (Dict, DefBlock) -> Result<Dict, Fault> {
    (d: Dict, b: DefBlock) => RecordSense(d, b, facts)
  }

  /** One entry block: its header facts, then each of its definition units in order. */
  function RecordEntity(d: Dict, e: Entity, v: Variation): Result<Dict, Fault> {
    var facts :- EntryFactsOf(e, v);
    Fold(SenseStep(facts), d, e.defBlocks)
  }

  function EntityStep(v: Variation): (Dict, Entity) -> Result<Dict, Fault> {
    (d: Dict, e: Entity) => RecordEntity(d, e, v)
  }

  /** The blocks of a superentry in the order the source visits them: entries, then
      phrasal-verb blocks, then idiom blocks. */
  function Blocks(s: Superentry): seq<Entity> {
    s.entries + s.phrasalVerbs + s.idioms
  }

  /** `define` on a parsed page: the empty dictionary when the page has no superentry for the
      variant, otherwise every block of that superentry recorded from an empty dictionary. */
  function DefineOf(page: Page, v: Variation): Result<Dict, Fault> {
    if |page.superentries| <= v.Index() then Ok(map[])
    else Fold(EntityStep(v), map[], Blocks(page.superentries[v.Index()]))
  }

  /** The update call for a unit, every keyword argument given. */
  function ArgsOf(sense: Sense, pos: string): (args: UpdateArgs)
    ensures WordKey(args) == sense.word && PosKey(args) == pos && Filled(args) == sense.slot
  {
    var s := sense.slot;
    UpdateArgs(
      Some(sense.word), Some(pos), Some(s.definition), Some(s.altTerms), Some(s.irregularForms),
      Some(s.examples), Some(s.level), Some(s.labelsAndCodes), Some(s.regions), Some(s.usages),
      Some(s.domains), Some(s.imageLink), Some(s.ukIpa), Some(s.usIpa), Some(s.ukAudioLinks),
      Some(s.usAudioLinks))
  }

  // ---------------------------------------------------------------------------------------
  // Properties

  /** A variant the page has no superentry for gives the empty dictionary, and every
      dictionary `define` returns keeps its fourteen lists per key the same length. */
  lemma DefineAligned(page: Page, v: Variation)
    ensures |page.superentries| <= v.Index() ==> DefineOf(page, v) == Ok(map[])
    ensures DefineOf(page, v).Ok? ==> AllAligned(DefineOf(page, v).value)
  {
    if |page.superentries| > v.Index() {
      var p := (d: Dict) => AllAligned(d);
      forall d: Dict, e: Entity | p(d) && EntityStep(v)(d, e).Ok?
        ensures p(EntityStep(v)(d, e).value)
      {
        RecordEntityAligned(d, e, v);
      }
      FoldPreserves(EntityStep(v), map[], Blocks(page.superentries[v.Index()]), p);
    }
  }

  /** The blocks are recorded in three runs: every entry block, then every phrasal-verb
      block, then every idiom block, each run starting from the dictionary the previous one
      left; the first run that fails ends `define` with its error. */
  lemma DefineInBlockOrder(page: Page, v: Variation)
    requires |page.superentries| > v.Index()
    ensures var s := page.superentries[v.Index()];
            DefineOf(page, v) ==
              match Fold(EntityStep(v), map[], s.entries)
              case Err(e) => Err(e)
              case Ok(afterEntries) =>
                match Fold(EntityStep(v), afterEntries, s.phrasalVerbs)
                case Err(e) => Err(e)
                case Ok(afterPhrasalVerbs) => Fold(EntityStep(v), afterPhrasalVerbs, s.idioms)
  {
    var s := page.superentries[v.Index()];
    FoldAppend(EntityStep(v), map[], s.entries + s.phrasalVerbs, s.idioms);
    FoldAppend(EntityStep(v), map[], s.entries, s.phrasalVerbs);
  }

  lemma RecordEntityAligned(d: Dict, e: Entity, v: Variation)
    requires AllAligned(d)
    ensures RecordEntity(d, e, v).Ok? ==> AllAligned(RecordEntity(d, e, v).value)
  {
    if EntryFactsOf(e, v).Ok? {
      var facts := EntryFactsOf(e, v).value;
      var p := (d: Dict) => AllAligned(d);
      forall d: Dict, b: DefBlock | p(d) && SenseStep(facts)(d, b).Ok?
        ensures p(SenseStep(facts)(d, b).value)
      {
        var sense := SenseOf(b, facts).value;
        InsertedKeepsAligned(d, sense.word, facts.pos, sense.slot);
      }
      FoldPreserves(SenseStep(facts), d, e.defBlocks, p);
    }
  }

  /** Recording a unit appends exactly one slot, its own, under its word and the block's part of
      speech, and leaves every other entry as it was. */
  lemma RecordSenseAppends(d: Dict, b: DefBlock, facts: EntryFacts)
    requires AllAligned(d)
    requires SenseOf(b, facts).Ok?
    ensures var sense := SenseOf(b, facts).value;
            var r := RecordSense(d, b, facts).value;
            var before := Lookup(d, sense.word, facts.pos);
            && RecordSense(d, b, facts).Ok?
            && Aligned(r[sense.word][facts.pos])
            && Count(r[sense.word][facts.pos]) == Count(before) + 1
            && SlotAt(r[sense.word][facts.pos], Count(before)) == sense.slot
            && (forall w, p :: w in d && p in d[w] && (w, p) != (sense.word, facts.pos) ==>
                  w in r && p in r[w] && r[w][p] == d[w][p])
  {
    var sense := SenseOf(b, facts).value;
    InsertedOnlyAppends(d, sense.word, facts.pos, sense.slot);
  }

  /** Alternative terms are the header's followed by the unit's; irregular forms are the unit's
      followed by the header's. */
  lemma SenseListOrder(b: DefBlock, facts: EntryFacts)
    requires SenseOf(b, facts).Ok?
    ensures var s := SenseOf(b, facts).value.slot;
            var local := LocalOf(b.head, facts).value;
            && s.altTerms == facts.altTerms + local.altTerms
            && s.irregularForms == local.irregularForms + facts.irregularForms
            && s.altTerms[..|facts.altTerms|] == facts.altTerms
            && s.irregularForms[|s.irregularForms| - |facts.irregularForms|..] == facts.irregularForms
  {
  }

  /** A unit without a definition head carries no definition and no tags at all, the header
      word, the header's lists of alternative terms and irregular forms, and stripped examples. */
  lemma SenseWithoutHead(b: DefBlock, facts: EntryFacts)
    requires b.head.None?
    ensures SenseOf(b, facts).Ok?
    ensures var sense := SenseOf(b, facts).value;
            && sense.word == facts.word
            && sense.slot.definition == "" && sense.slot.level == ""
            && sense.slot.labelsAndCodes == [] && sense.slot.regions == []
            && sense.slot.usages == [] && sense.slot.domains == []
            && sense.slot.altTerms == facts.altTerms
            && sense.slot.irregularForms == facts.irregularForms
            && sense.slot.examples == StripEach(b.examples)
  {
    assert facts.altTerms + [] == facts.altTerms;
    assert [] + facts.irregularForms == facts.irregularForms;
  }

  /** Outside a phrase block the unit keeps the header word, and its tags are the header's
      with the head's own merged on top; with no tag region of its own it inherits the header's
      tags unchanged and cannot fail. */
  lemma SenseOutsidePhrase(b: DefBlock, facts: EntryFacts)
    requires b.head.Some? && PhraseOf(b.head.value).None?
    ensures SenseOf(b, facts).Ok? ==>
              var sense := SenseOf(b, facts).value;
              && sense.word == facts.word
              && sense.slot.regions[..|facts.tags.regions|] == facts.tags.regions
              && sense.slot.usages[..|facts.tags.usages|] == facts.tags.usages
              && sense.slot.domains[..|facts.tags.domains|] == facts.tags.domains
              && sense.slot.labelsAndCodes[..|facts.tags.labelsAndCodes|] == facts.tags.labelsAndCodes
              && (sense.slot.level == "" ==> facts.tags.level == "")
    ensures b.head.value.tags.None? ==>
              && SenseOf(b, facts).Ok?
              && var s := SenseOf(b, facts).value.slot;
              && s.level == facts.tags.level
              && s.labelsAndCodes == facts.tags.labelsAndCodes && s.regions == facts.tags.regions
              && s.usages == facts.tags.usages && s.domains == facts.tags.domains
  {
    ConcatenatedAbsentRegion(facts.tags);
    var head := b.head.value;
    if SenseOf(b, facts).Ok? {
      var block := TagsIn(head.tags).value;
      MergeKeepsOrder(facts.tags, block);
    }
  }

  /** Inside a phrase block the unit is filed under the stripped phrase title, which must be
      present; outside one it is filed under the header word. */
  lemma SenseKey(b: DefBlock, facts: EntryFacts)
    requires SenseOf(b, facts).Ok?
    ensures var word := SenseOf(b, facts).value.word;
            if b.head.Some? && PhraseOf(b.head.value).Some? then
              var p := PhraseOf(b.head.value).value;
              p.title.Some? && word == Strip(p.title.value)
            else word == facts.word
  {
  }

  /** The block's word has no whitespace at either end, whichever fallback supplies it. */
  lemma HeaderWordStripped(e: Entity)
    ensures IsStripped(HeaderWord(e))
  {
    if e.headword.Some? {
      StripIsStripped(e.headword.value);
    } else if HeaderOf(e).Some? && HeaderOf(e).value.headword.Some? {
      StripIsStripped(HeaderOf(e).value.headword.value);
    }
  }

  /** Every unit `define` files is keyed by a word with no whitespace at either end: the
      stripped phrase title or the block's stripped word. */
  lemma SenseWordStripped(e: Entity, v: Variation, b: DefBlock)
    requires EntryFactsOf(e, v).Ok? && SenseOf(b, EntryFactsOf(e, v).value).Ok?
    ensures IsStripped(SenseOf(b, EntryFactsOf(e, v).value).value.word)
  {
    var facts := EntryFactsOf(e, v).value;
    SenseKey(b, facts);
    if b.head.Some? && PhraseOf(b.head.value).Some? {
      StripIsStripped(PhraseOf(b.head.value).value.title.value);
    } else {
      HeaderWordStripped(e);
    }
  }

  /** A phrase block without a title makes `define` raise once its unit is reached. */
  lemma MissingTitleRaises(b: DefBlock, facts: EntryFacts)
    requires b.head.Some? && PhraseOf(b.head.value).Some? && PhraseOf(b.head.value).value.title.None?
    ensures SenseOf(b, facts).Err?
  {
  }

  /** The definition of every unit is free of leading and trailing ':' and ' ', and is "" for
      a unit without a definition head. */
  lemma SenseDefinitionStripped(b: DefBlock, facts: EntryFacts)
    requires SenseOf(b, facts).Ok?
    ensures var d := SenseOf(b, facts).value.slot.definition;
            && (d != [] ==> d[0] !in {':', ' '} && d[|d| - 1] !in {':', ' '})
            && (b.head.None? ==> d == "")
  {
    var local := LocalOf(b.head, facts).value;
    assert SenseOf(b, facts).value.slot.definition == local.definition;
    if b.head.Some? {
      var h := b.head.value;
      var tags := Concatenated(h.tags, facts.tags).value;
      var start := Local(
        facts.word, DefinitionText(h.definition), tags,
        AltTermsOf(Some(h.forms)), IrregularFormsOf(Some(h.forms)));
      if PhraseOf(h).Some? {
        var p := PhraseOf(h).value;
        assert InPhrase(p, start) == Ok(local);
        if p.info.Some? {
          assert PhraseInfoMerged(p.info.value, start).value.definition == start.definition;
        }
      }
      assert local.definition == DefinitionText(h.definition);
    }
  }

  // ---------------------------------------------------------------------------------------
  // The extractor as the source runs it

  /** The header facts of an entry block, gathered in the source's order. */
  method GatherEntryFacts(e: Entity, v: Variation) returns (r: Result<EntryFacts, Fault>)
    ensures r == EntryFactsOf(e, v)
  {
    var header := HeaderOf(e);
    var altTerms := GetAltTerms(HeaderForms(header));
    var irregularForms := GetIrregularForms(HeaderForms(header));
    var word := HeaderWord(e);
    var pos := PosLabel(header);
    var phonetics := GetPhonetics(header, v);
    if phonetics.Err? {
      return Err(phonetics.error);
    }
    var tags := GetTags(HeaderTags(header));
    if tags.Err? {
      return Err(tags.error);
    }
    return Ok(EntryFacts(word, pos, phonetics.value, tags.value, altTerms, irregularForms));
  }

  /** The body of the definition-unit loop, up to the `update_word_dict` call. */
  method AssembleSense(b: DefBlock, facts: EntryFacts) returns (r: Result<Sense, Fault>)
    ensures r == SenseOf(b, facts)
  {
    var definition := "";
    var altTerms: seq<string> := [];
    var irregularForms: seq<string> := [];
    var tags := NoTags;
    var word := facts.word;
    var imageLink := ImageLink(b.imageSrc);
    var examples := StripAll(b.examples);
    if b.head.Some? {
      var head := b.head.value;
      definition := DefinitionText(head.definition);
      var merged := ConcatenateTags(head.tags, facts.tags);
      if merged.Err? {
        return Err(merged.error);
      }
      tags := merged.value;
      altTerms := GetAltTerms(Some(head.forms));
      irregularForms := GetIrregularForms(Some(head.forms));
      ghost var local := Local(word, definition, tags, altTerms, irregularForms);
      var phrase := PhraseOf(head);
      if phrase.Some? {
        if phrase.value.info.Some? {
          var info := phrase.value.info.value;
          var moreTerms := GetAltTerms(Some(info.forms));
          altTerms := altTerms + moreTerms;
          var moreForms := GetIrregularForms(Some(info.forms));
          irregularForms := irregularForms + moreForms;
          merged := ConcatenateTags(Some(info.tags), tags);
          if merged.Err? {
            return Err(merged.error);
          }
          tags := merged.value;
          assert PhraseInfoMerged(info, local) == Ok(Local(word, definition, tags, altTerms, irregularForms));
        }
        if phrase.value.title.None? {
          return Err(MissingPhraseTitle);
        }
        word := Strip(phrase.value.title.value);
      }
    }
    var local := Local(word, definition, tags, altTerms, irregularForms);
    assert LocalOf(b.head, facts) == Ok(local);
    return Ok(Sense(word, SlotOf(local, imageLink, examples, facts)));
  }

  /** One pass of the definition-unit loop: assemble the unit, then one `update_word_dict`
      call. `fault` is the error the source raises, if any. */
  method DefineSense(info: WordDict, b: DefBlock, facts: EntryFacts) returns (fault: Option<Fault>)
    requires info.Valid()
    modifies info
    ensures SenseStep(facts)(old(info.entries), b) ==
            (if fault.Some? then Err(fault.value) else Ok(info.entries))
    ensures info.Valid()
  {
    var sense := AssembleSense(b, facts);
    if sense.Err? {
      return Some(sense.error);
    }
    info.Update(ArgsOf(sense.value, facts.pos));
    return None;
  }

  /** One pass of the entry-block loop: header facts, then one `update_word_dict` call per
      definition unit. `fault` is the error the source raises, if any. */
  method DefineEntity(info: WordDict, e: Entity, v: Variation) returns (fault: Option<Fault>)
    requires info.Valid()
    modifies info
    ensures RecordEntity(old(info.entries), e, v) ==
            (if fault.Some? then Err(fault.value) else Ok(info.entries))
    ensures info.Valid()
  {
    var facts := GatherEntryFacts(e, v);
    if facts.Err? {
      return Some(facts.error);
    }
    ghost var start := info.entries;
    var j := 0;
    while j < |e.defBlocks|
      invariant 0 <= j <= |e.defBlocks|
      invariant Fold(SenseStep(facts.value), start, e.defBlocks[..j]) == Ok(info.entries)
      invariant info.Valid()
    {
      FoldStep(SenseStep(facts.value), start, e.defBlocks, j);
      fault := DefineSense(info, e.defBlocks[j], facts.value);
      if fault.Some? {
        FoldFailurePersists(SenseStep(facts.value), start, e.defBlocks, j + 1, fault.value);
        return;
      }
      j := j + 1;
    }
    assert e.defBlocks[..j] == e.defBlocks;
    return None;
  }

  /** The entry-block loop of `define`, from an empty dictionary. */
  method DefineBlocks(blocks: seq<Entity>, v: Variation) returns (r: Result<Dict, Fault>)
    ensures r == Fold(EntityStep(v), map[], blocks)
    ensures r.Ok? ==> AllAligned(r.value)
  {
    var info := new WordDict();
    var i := 0;
    while i < |blocks|
      invariant 0 <= i <= |blocks|
      invariant Fold(EntityStep(v), map[], blocks[..i]) == Ok(info.entries)
      invariant info.Valid()
    {
      FoldStep(EntityStep(v), map[], blocks, i);
      ghost var before := info.entries;
      assert EntityStep(v)(before, blocks[i]) == RecordEntity(before, blocks[i], v);
      var fault := DefineEntity(info, blocks[i], v);
      if fault.Some? {
        FoldFailurePersists(EntityStep(v), map[], blocks, i + 1, fault.value);
        return Err(fault.value);
      }
      i := i + 1;
    }
    assert blocks[..i] == blocks;
    return Ok(info.entries);
  }

  /** `define` on a parsed page: the variant guard, then the entry-block loop. */
  method Define(page: Page, v: Variation) returns (r: Result<Dict, Fault>)
    ensures r == DefineOf(page, v)
    ensures r.Ok? ==> AllAligned(r.value)
  {
    if |page.superentries| <= v.Index() {
      return Ok(map[]);
    }
    r := DefineBlocks(Blocks(page.superentries[v.Index()]), v);
  }
}
