/** The record accumulator (`update_word_dict`): a nested dictionary word -> part of speech ->
    fourteen parallel lists, one slot per definition unit. */
module Records {
  import opened Wrappers

  /** The values of one definition unit, one for each list of `PosData`. */
  datatype Slot = Slot(
    definition: string,
    level: string,
    imageLink: string,
    ukIpa: seq<string>,
    usIpa: seq<string>,
    ukAudioLinks: seq<string>,
    usAudioLinks: seq<string>,
    examples: seq<string>,
    altTerms: seq<string>,
    irregularForms: seq<string>,
    labelsAndCodes: seq<string>,
    regions: seq<string>,
    usages: seq<string>,
    domains: seq<string>)

  /** The fourteen parallel lists kept for one (word, part of speech) key. */
  datatype PosData = PosData(
    definitions: seq<string>,
    levels: seq<string>,
    imageLinks: seq<string>,
    ukIpa: seq<seq<string>>,
    usIpa: seq<seq<string>>,
    ukAudioLinks: seq<seq<string>>,
    usAudioLinks: seq<seq<string>>,
    examples: seq<seq<string>>,
    altTerms: seq<seq<string>>,
    irregularForms: seq<seq<string>>,
    labelsAndCodes: seq<seq<string>>,
    regions: seq<seq<string>>,
    usages: seq<seq<string>>,
    domains: seq<seq<string>>)

  const EmptyPosData: PosData := PosData([], [], [], [], [], [], [], [], [], [], [], [], [], [])

  /** word -> part of speech -> lists. */
  type Dict = map<string, map<string, PosData>>

  /** The number of slots, read off the definitions list. */
  function Count(d: PosData): nat {
    |d.definitions|
  }

  /** All fourteen lists have the same length. */
  predicate Aligned(d: PosData) {
    var n := |d.definitions|;
    && |d.levels| == n && |d.imageLinks| == n
    && |d.ukIpa| == n && |d.usIpa| == n && |d.ukAudioLinks| == n && |d.usAudioLinks| == n
    && |d.examples| == n && |d.altTerms| == n && |d.irregularForms| == n
    && |d.labelsAndCodes| == n && |d.regions| == n && |d.usages| == n && |d.domains| == n
  }

  /** Every entry of the dictionary is aligned. */
  predicate AllAligned(dict: Dict) {
    forall w, p :: w in dict && p in dict[w] ==> Aligned(dict[w][p])
  }

  /** The fourteen `.append` calls: one new slot at the end of every list. */
  function Append(d: PosData, s: Slot): PosData {
    PosData(
      d.definitions + [s.definition],
      d.levels + [s.level],
      d.imageLinks + [s.imageLink],
      d.ukIpa + [s.ukIpa],
      d.usIpa + [s.usIpa],
      d.ukAudioLinks + [s.ukAudioLinks],
      d.usAudioLinks + [s.usAudioLinks],
      d.examples + [s.examples],
      d.altTerms + [s.altTerms],
      d.irregularForms + [s.irregularForms],
      d.labelsAndCodes + [s.labelsAndCodes],
      d.regions + [s.regions],
      d.usages + [s.usages],
      d.domains + [s.domains])
  }

  /** Slot `i`, read across the fourteen lists. */
  function SlotAt(d: PosData, i: nat): Slot
    requires Aligned(d) && i < Count(d)
  {
    Slot(
      d.definitions[i], d.levels[i], d.imageLinks[i],
      d.ukIpa[i], d.usIpa[i], d.ukAudioLinks[i], d.usAudioLinks[i],
      d.examples[i], d.altTerms[i], d.irregularForms[i],
      d.labelsAndCodes[i], d.regions[i], d.usages[i], d.domains[i])
  }

  /** Appending makes every list exactly one longer, so equal lengths stay equal. */
  lemma AppendGrowsEveryList(d: PosData, s: Slot)
    ensures var a := Append(d, s);
            && |a.definitions| == |d.definitions| + 1 && |a.levels| == |d.levels| + 1
            && |a.imageLinks| == |d.imageLinks| + 1 && |a.ukIpa| == |d.ukIpa| + 1
            && |a.usIpa| == |d.usIpa| + 1 && |a.ukAudioLinks| == |d.ukAudioLinks| + 1
            && |a.usAudioLinks| == |d.usAudioLinks| + 1 && |a.examples| == |d.examples| + 1
            && |a.altTerms| == |d.altTerms| + 1 && |a.irregularForms| == |d.irregularForms| + 1
            && |a.labelsAndCodes| == |d.labelsAndCodes| + 1 && |a.regions| == |d.regions| + 1
            && |a.usages| == |d.usages| + 1 && |a.domains| == |d.domains| + 1
    ensures Aligned(d) ==> Aligned(Append(d, s))
  {
  }

  /** Appending only appends: earlier slots are untouched and the new last slot is `s`. */
  lemma AppendOnlyAppends(d: PosData, s: Slot)
    requires Aligned(d)
    ensures Aligned(Append(d, s)) && Count(Append(d, s)) == Count(d) + 1
    ensures SlotAt(Append(d, s), Count(d)) == s
    ensures forall i :: 0 <= i < Count(d) ==> SlotAt(Append(d, s), i) == SlotAt(d, i)
  {
  }

  /** The entry under (word, pos), or all empty lists when there is none. */
  function Lookup(dict: Dict, word: string, pos: string): PosData {
    if word in dict && pos in dict[word] then dict[word][pos] else EmptyPosData
  }

  /** The dictionary after one slot is appended under (word, pos); a missing key is created
      first, with all lists empty. */
  function Inserted(dict: Dict, word: string, pos: string, slot: Slot): (r: Dict)
    ensures r.Keys == dict.Keys + {word}
    ensures r[word].Keys == (if word in dict then dict[word].Keys else {}) + {pos}
    ensures r[word][pos] == Append(Lookup(dict, word, pos), slot)
    ensures forall w :: w in dict && w != word ==> r[w] == dict[w]
    ensures forall p :: word in dict && p in dict[word] && p != pos ==> r[word][p] == dict[word][p]
  {
    var entry := if word in dict then dict[word] else map[];
    dict[word := entry[pos := Append(Lookup(dict, word, pos), slot)]]
  }

  /** Inserting keeps every entry aligned. */
  lemma InsertedKeepsAligned(dict: Dict, word: string, pos: string, slot: Slot)
    requires AllAligned(dict)
    ensures AllAligned(Inserted(dict, word, pos, slot))
  {
    var r := Inserted(dict, word, pos, slot);
    assert Aligned(Lookup(dict, word, pos));
    forall w, p | w in r && p in r[w]
      ensures Aligned(r[w][p])
    {
      if w == word && p == pos {
        AppendGrowsEveryList(Lookup(dict, word, pos), slot);
      } else {
        assert r[w][p] == dict[w][p];
      }
    }
  }

  /** Inserting one slot adds exactly one slot to the touched entry, keeps its earlier slots,
      starts a new key from empty lists, and changes no other entry. */
  lemma InsertedOnlyAppends(dict: Dict, word: string, pos: string, slot: Slot)
    requires AllAligned(dict)
    ensures var r := Inserted(dict, word, pos, slot);
            var before := Lookup(dict, word, pos);
            && Aligned(r[word][pos])
            && Count(r[word][pos]) == Count(before) + 1
            && SlotAt(r[word][pos], Count(before)) == slot
            && (forall i :: 0 <= i < Count(before) ==> SlotAt(r[word][pos], i) == SlotAt(before, i))
            && (!(word in dict && pos in dict[word]) ==> Count(r[word][pos]) == 1)
            && (forall w, p :: w in dict && p in dict[w] && (w, p) != (word, pos) ==>
                  w in r && p in r[w] && r[w][p] == dict[w][p])
  {
    var before := Lookup(dict, word, pos);
    assert Aligned(before);
    AppendOnlyAppends(before, slot);
  }

  /** The keyword arguments of `update_word_dict`; `None` is an omitted or `None` argument. */
  datatype UpdateArgs = UpdateArgs(
    word: Option<string>,
    pos: Option<string>,
    definition: Option<string>,
    altTerms: Option<seq<string>>,
    irregularForms: Option<seq<string>>,
    examples: Option<seq<string>>,
    level: Option<string>,
    labelsAndCodes: Option<seq<string>>,
    regions: Option<seq<string>>,
    usages: Option<seq<string>>,
    domains: Option<seq<string>>,
    imageLink: Option<string>,
    ukIpa: Option<seq<string>>,
    usIpa: Option<seq<string>>,
    ukAudioLinks: Option<seq<string>>,
    usAudioLinks: Option<seq<string>>)

  /** The key a call files its slot under: a `None` word or part of speech becomes "". */
  function WordKey(args: UpdateArgs): string {
    args.word.GetOr("")
  }

  function PosKey(args: UpdateArgs): string {
    args.pos.GetOr("")
  }

  /** The slot a call appends: each given argument as it is, "" for an absent definition, level
      or image link, and [] for every absent list. */
  function Filled(args: UpdateArgs): (r: Slot)
    ensures (args.definition.None? ==> r.definition == "") && (args.definition.Some? ==> r.definition == args.definition.value)
    ensures (args.level.None? ==> r.level == "") && (args.level.Some? ==> r.level == args.level.value)
    ensures (args.imageLink.None? ==> r.imageLink == "") && (args.imageLink.Some? ==> r.imageLink == args.imageLink.value)
    ensures (args.altTerms.None? ==> r.altTerms == []) && (args.altTerms.Some? ==> r.altTerms == args.altTerms.value)
    ensures (args.irregularForms.None? ==> r.irregularForms == []) && (args.irregularForms.Some? ==> r.irregularForms == args.irregularForms.value)
    ensures (args.examples.None? ==> r.examples == []) && (args.examples.Some? ==> r.examples == args.examples.value)
    ensures (args.labelsAndCodes.None? ==> r.labelsAndCodes == []) && (args.labelsAndCodes.Some? ==> r.labelsAndCodes == args.labelsAndCodes.value)
    ensures (args.regions.None? ==> r.regions == []) && (args.regions.Some? ==> r.regions == args.regions.value)
    ensures (args.usages.None? ==> r.usages == []) && (args.usages.Some? ==> r.usages == args.usages.value)
    ensures (args.domains.None? ==> r.domains == []) && (args.domains.Some? ==> r.domains == args.domains.value)
    ensures (args.ukIpa.None? ==> r.ukIpa == []) && (args.ukIpa.Some? ==> r.ukIpa == args.ukIpa.value)
    ensures (args.usIpa.None? ==> r.usIpa == []) && (args.usIpa.Some? ==> r.usIpa == args.usIpa.value)
    ensures (args.ukAudioLinks.None? ==> r.ukAudioLinks == []) && (args.ukAudioLinks.Some? ==> r.ukAudioLinks == args.ukAudioLinks.value)
    ensures (args.usAudioLinks.None? ==> r.usAudioLinks == []) && (args.usAudioLinks.Some? ==> r.usAudioLinks == args.usAudioLinks.value)
  {
    Slot(
      args.definition.GetOr(""), args.level.GetOr(""), args.imageLink.GetOr(""),
      args.ukIpa.GetOr([]), args.usIpa.GetOr([]), args.ukAudioLinks.GetOr([]), args.usAudioLinks.GetOr([]),
      args.examples.GetOr([]), args.altTerms.GetOr([]), args.irregularForms.GetOr([]),
      args.labelsAndCodes.GetOr([]), args.regions.GetOr([]), args.usages.GetOr([]), args.domains.GetOr([]))
  }

  /** After an update, the keys "" stand in for an absent word or part of speech, and the last
      slot under the call's key is the filled-in slot. */
  lemma NoneStoredAsEmpty(dict: Dict, args: UpdateArgs)
    requires AllAligned(dict)
    ensures var r := Inserted(dict, WordKey(args), PosKey(args), Filled(args));
            var d := r[WordKey(args)][PosKey(args)];
            && (args.word.None? ==> "" in r) && (args.pos.None? ==> "" in r[WordKey(args)])
            && (args.word.Some? ==> args.word.value in r)
            && (args.pos.Some? ==> args.pos.value in r[WordKey(args)])
            && Aligned(d) && Count(d) > 0
            && SlotAt(d, Count(d) - 1) == Filled(args)
  {
    InsertedOnlyAppends(dict, WordKey(args), PosKey(args), Filled(args));
  }

  /** The dictionary `update_word_dict` mutates in place. */
  class WordDict {
    var entries: Dict

    ghost predicate Valid()
      reads this
    {
      AllAligned(entries)
    }

    constructor ()
      ensures Valid() && entries == map[]
    {
      entries := map[];
    }

    /** `update_word_dict`: create the key if missing, then append one slot to each list. */
    method Update(args: UpdateArgs)
      modifies this
      ensures entries == Inserted(old(entries), WordKey(args), PosKey(args), Filled(args))
      ensures old(Valid()) ==> Valid()
    {
      ghost var before := entries;
      var word := args.word.GetOr("");
      var pos := args.pos.GetOr("");
      if word !in entries {
        entries := entries[word := map[]];
      }
      if pos !in entries[word] {
        entries := entries[word := entries[word][pos := EmptyPosData]];
      }
      var d := entries[word][pos];
      assert d == Lookup(before, word, pos);
      var slot := Slot(
        args.definition.GetOr(""),
        args.level.GetOr(""),
        args.imageLink.GetOr(""),
        args.ukIpa.GetOr([]),
        args.usIpa.GetOr([]),
        args.ukAudioLinks.GetOr([]),
        args.usAudioLinks.GetOr([]),
        args.examples.GetOr([]),
        args.altTerms.GetOr([]),
        args.irregularForms.GetOr([]),
        args.labelsAndCodes.GetOr([]),
        args.regions.GetOr([]),
        args.usages.GetOr([]),
        args.domains.GetOr([]));
      assert slot == Filled(args);
      d := Append(d, slot);
      assert d == Append(Lookup(before, word, pos), Filled(args));
      ghost var entry := if word in before then before[word] else map[];
      assert entries[word][pos := d] == entry[pos := d];
      entries := entries[word := entries[word][pos := d]];
      assert entries == before[word := entry[pos := d]];
      if AllAligned(before) {
        InsertedKeepsAligned(before, word, pos, Filled(args));
      }
    }
  }
}
