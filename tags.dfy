/** Tag resolution (`get_tags`, its helpers `find_tag` and `find_all_tags`) and the merge of two
    tag bundles (`concatenate_tags`). */
module Tags {
  import opened Wrappers
  import opened Folds
  import opened Text
  import opened Markup

  /** A class token that contains "var" or "group", as `var dvar` and `inf-group dinfg` do. */
  predicate MarksVariantOrGroup(token: string) {
    Contains(token, "var") || Contains(token, "group")
  }

  /** Some class token of the grandparent marks variant-spelling or inflection-group markup
      (Python's `any("var" in x or "group" in x for x in classes)`). */
  predicate InVariantOrGroup(classes: seq<string>)
    decreases |classes|
  {
    classes != [] && (MarksVariantOrGroup(classes[0]) || InVariantOrGroup(classes[1..]))
  }

  /** `InVariantOrGroup` holds exactly when some token marks variant or inflection markup. */
  lemma {:induction false} InVariantOrGroupAt(classes: seq<string>)
    ensures InVariantOrGroup(classes) <==>
            exists i :: 0 <= i < |classes| && MarksVariantOrGroup(classes[i])
    decreases |classes|
  {
    if classes != [] {
      InVariantOrGroupAt(classes[1..]);
      if InVariantOrGroup(classes[1..]) {
        var i :| 0 <= i < |classes[1..]| && MarksVariantOrGroup(classes[1..][i]);
        assert classes[i + 1] == classes[1..][i];
      }
      forall i | 0 < i < |classes| && MarksVariantOrGroup(classes[i])
        ensures InVariantOrGroup(classes[1..])
      {
        assert classes[1..][i - 1] == classes[i];
      }
    }
  }

  /** Level, grammar labels and codes, regions, usages and domains of one sense. */
  datatype TagBundle = TagBundle(
    level: string,
    labelsAndCodes: seq<string>,
    regions: seq<string>,
    usages: seq<string>,
    domains: seq<string>)

  const NoTags: TagBundle := TagBundle("", [], [], [], [])

  /** `find_tag`: only the first matching span is looked at; its stripped text, or "" when there
      is no span or the first one sits inside variant or inflection markup. */
  function FirstTagText(spans: seq<TagSpan>): Result<string, Fault> {
    if spans == [] then Ok("")
    else
      match spans[0].grandparentClass
      case None => Err(MissingClassAttribute)
      case Some(classes) =>
        if InVariantOrGroup(classes) then Ok("") else Ok(Strip(spans[0].text))
  }

  /** One iteration of the loop in `find_all_tags`. */
  function KeepStep(tags: seq<string>, span: TagSpan): Result<seq<string>, Fault> {
    match span.grandparentClass
    case None => Err(MissingClassAttribute)
    case Some(classes) =>
      if InVariantOrGroup(classes) then Ok(tags)
      else
        var text := Strip(span.text);
        if text != "" then Ok(tags + [text]) else Ok(tags)
  }

  /** What `find_all_tags` returns for the matching spans `spans`. */
  function TagTexts(spans: seq<TagSpan>): Result<seq<string>, Fault> {
    Fold(KeepStep, [], spans)
  }

  /** A span whose text ends up in a tag list. */
  predicate Kept(span: TagSpan) {
    && span.grandparentClass.Some?
    && !InVariantOrGroup(span.grandparentClass.value)
    && Strip(span.text) != ""
  }

  /** Some span has a grandparent without a class attribute. */
  predicate HasClassless(spans: seq<TagSpan>) {
    exists i :: 0 <= i < |spans| && spans[i].grandparentClass.None?
  }

  /** What one span adds to its tag list. */
  function KeptText(span: TagSpan): seq<string> {
    if Kept(span) then [Strip(span.text)] else []
  }

  /** Reference definition: the stripped texts of the kept spans, in document order. */
  function KeptTexts(spans: seq<TagSpan>): seq<string>
    decreases |spans|
  {
    if spans == [] then [] else KeptText(spans[0]) + KeptTexts(spans[1..])
  }

  /** The kept texts of two runs of spans are those of each run, one after the other. */
  lemma {:induction false} KeptTextsAppend(a: seq<TagSpan>, b: seq<TagSpan>)
    ensures KeptTexts(a + b) == KeptTexts(a) + KeptTexts(b)
    decreases |a|
  {
    if a == [] {
      assert a + b == b;
    } else {
      assert (a + b)[0] == a[0];
      assert (a + b)[1..] == a[1..] + b;
      KeptTextsAppend(a[1..], b);
      assert KeptTexts(a + b) == KeptText(a[0]) + KeptTexts(a[1..] + b);
    }
  }

  /** One iteration raises on a classless grandparent and otherwise appends what the span adds. */
  lemma KeepStepMeaning(tags: seq<string>, span: TagSpan)
    ensures KeepStep(tags, span) ==
            if span.grandparentClass.None? then Err(MissingClassAttribute) else Ok(tags + KeptText(span))
  {
    if span.grandparentClass.Some? && !Kept(span) && !InVariantOrGroup(span.grandparentClass.value) {
      assert tags + [] == tags;
    }
    if span.grandparentClass.Some? && InVariantOrGroup(span.grandparentClass.value) {
      assert tags + [] == tags;
    }
  }

  lemma HasClasslessSnoc(init: seq<TagSpan>, last: TagSpan)
    ensures HasClassless(init + [last]) <==> HasClassless(init) || last.grandparentClass.None?
  {
    var spans := init + [last];
    if HasClassless(spans) && !last.grandparentClass.None? {
      var i :| 0 <= i < |spans| && spans[i].grandparentClass.None?;
      assert init[i] == spans[i];
    }
    if HasClassless(init) {
      var i :| 0 <= i < |init| && init[i].grandparentClass.None?;
      assert spans[i] == init[i];
    }
    if last.grandparentClass.None? {
      assert spans[|init|] == last;
    }
  }

  /** `find_all_tags` raises exactly when some span's grandparent has no class attribute, and
      otherwise returns the stripped texts of the kept spans, in order and without
      deduplication. */
  lemma {:induction false} TagTextsMeaning(spans: seq<TagSpan>)
    ensures TagTexts(spans) ==
            if HasClassless(spans) then Err(MissingClassAttribute) else Ok(KeptTexts(spans))
    decreases |spans|
  {
    if spans != [] {
      var n := |spans| - 1;
      var init := spans[..n];
      var last := spans[n];
      assert spans == init + [last];
      TagTextsMeaning(init);
      HasClasslessSnoc(init, last);
      KeptTextsAppend(init, [last]);
      assert KeptTexts([last]) == KeptText(last) + KeptTexts([]);
      FoldStep(KeepStep, [], spans, n);
      assert spans[..n + 1] == spans;
      assert KeptText(last) + [] == KeptText(last);
      if !HasClassless(init) {
        KeepStepMeaning(KeptTexts(init), last);
      }
    }
  }

  /** Every kept text is the non-empty stripped text of a span outside variant and inflection
      markup. */
  lemma {:induction false} KeptTextsSound(spans: seq<TagSpan>)
    ensures forall t :: t in KeptTexts(spans) ==>
              t != "" && exists i :: 0 <= i < |spans| && Kept(spans[i]) && Strip(spans[i].text) == t
    decreases |spans|
  {
    if spans != [] {
      KeptTextsSound(spans[1..]);
      forall t | t in KeptTexts(spans)
        ensures t != "" && exists i :: 0 <= i < |spans| && Kept(spans[i]) && Strip(spans[i].text) == t
      {
        if t !in KeptTexts(spans[1..]) {
          assert Kept(spans[0]) && t == Strip(spans[0].text);
        } else {
          var i :| 0 <= i < |spans[1..]| && Kept(spans[1..][i]) && Strip(spans[1..][i].text) == t;
          assert spans[i + 1] == spans[1..][i];
        }
      }
    }
  }

  /** A span that is not kept (inside variant or inflection markup, or blank) adds nothing,
      wherever it stands. */
  lemma DroppedSpanAddsNothing(a: seq<TagSpan>, span: TagSpan, b: seq<TagSpan>)
    requires !Kept(span)
    ensures KeptTexts(a + [span] + b) == KeptTexts(a + b)
  {
    assert KeptText(span) == [];
    assert KeptTexts([span]) == KeptText(span) + KeptTexts([span][1..]);
    assert [span][1..] == [];
    assert KeptTexts([span]) == [];
    KeptTextsAppend(a + [span], b);
    KeptTextsAppend(a, [span]);
    KeptTextsAppend(a, b);
    assert KeptTexts(a + [span]) == KeptTexts(a) + [];
    assert KeptTexts(a) + [] == KeptTexts(a);
  }

  /** `get_tags`: the tag bundle of a region; all empty when the region is absent. */
  function TagsIn(region: Option<TagRegion>): Result<TagBundle, Fault> {
    match region
    case None => Ok(NoTags)
    case Some(r) =>
      var level :- FirstTagText(r.levels);
      var labelsAndCodes :- TagTexts(r.grams);
      var regions :- TagTexts(r.regions);
      var usages :- TagTexts(r.usages);
      var domains :- TagTexts(r.domains);
      Ok(TagBundle(level, labelsAndCodes, regions, usages, domains))
  }

  /** The level comes from the first level span alone: later spans never change it, and a first
      span inside variant or inflection markup yields "". */
  lemma LevelFromFirstSpan(first: TagSpan, later: seq<TagSpan>)
    ensures FirstTagText([first] + later) == FirstTagText([first])
    ensures first.grandparentClass.Some? && InVariantOrGroup(first.grandparentClass.value)
            ==> FirstTagText([first] + later) == Ok("")
  {
  }

  /** No list of a resolved bundle holds anything but the stripped text of a kept span of the
      matching query. */
  lemma BundleHoldsOnlyKeptSpans(r: TagRegion, b: TagBundle)
    requires TagsIn(Some(r)) == Ok(b)
    ensures b.labelsAndCodes == KeptTexts(r.grams)
    ensures b.regions == KeptTexts(r.regions)
    ensures b.usages == KeptTexts(r.usages)
    ensures b.domains == KeptTexts(r.domains)
    ensures forall t :: t in b.regions ==>
              exists i :: 0 <= i < |r.regions| && Kept(r.regions[i]) && Strip(r.regions[i].text) == t
    ensures forall t :: t in b.usages ==>
              exists i :: 0 <= i < |r.usages| && Kept(r.usages[i]) && Strip(r.usages[i].text) == t
    ensures forall t :: t in b.domains ==>
              exists i :: 0 <= i < |r.domains| && Kept(r.domains[i]) && Strip(r.domains[i].text) == t
    ensures forall t :: t in b.labelsAndCodes ==>
              exists i :: 0 <= i < |r.grams| && Kept(r.grams[i]) && Strip(r.grams[i].text) == t
  {
    TagTextsMeaning(r.grams);
    TagTextsMeaning(r.regions);
    TagTextsMeaning(r.usages);
    TagTextsMeaning(r.domains);
    KeptTextsSound(r.grams);
    KeptTextsSound(r.regions);
    KeptTextsSound(r.usages);
    KeptTextsSound(r.domains);
  }

  /** The merge rule of `concatenate_tags`: the block level wins when non-empty; every list is
      the global list followed by the block list. */
  function Merge(global: TagBundle, block: TagBundle): TagBundle {
    TagBundle(
      if block.level != "" then block.level else global.level,
      global.labelsAndCodes + block.labelsAndCodes,
      global.regions + block.regions,
      global.usages + block.usages,
      global.domains + block.domains)
  }

  /** Merging is associative and the empty bundle is its unit on both sides. */
  lemma MergeMonoid(a: TagBundle, b: TagBundle, c: TagBundle)
    ensures Merge(Merge(a, b), c) == Merge(a, Merge(b, c))
    ensures Merge(NoTags, a) == a && Merge(a, NoTags) == a
  {
    assert a.labelsAndCodes + [] == a.labelsAndCodes;
    assert a.regions + [] == a.regions;
    assert a.usages + [] == a.usages;
    assert a.domains + [] == a.domains;
  }

  /** Merging keeps every tag of both bundles, global ones first, with no deduplication. */
  lemma MergeKeepsOrder(global: TagBundle, block: TagBundle)
    ensures var m := Merge(global, block);
            && |m.regions| == |global.regions| + |block.regions|
            && m.regions[..|global.regions|] == global.regions
            && m.regions[|global.regions|..] == block.regions
            && |m.labelsAndCodes| == |global.labelsAndCodes| + |block.labelsAndCodes|
            && m.labelsAndCodes[..|global.labelsAndCodes|] == global.labelsAndCodes
            && m.labelsAndCodes[|global.labelsAndCodes|..] == block.labelsAndCodes
            && m.usages[..|global.usages|] == global.usages
            && m.usages[|global.usages|..] == block.usages
            && m.domains[..|global.domains|] == global.domains
            && m.domains[|global.domains|..] == block.domains
            && m.level == (if block.level != "" then block.level else global.level)
  {
  }

  /** `concatenate_tags`: resolve the region's tags and merge them onto `global`. */
  function Concatenated(region: Option<TagRegion>, global: TagBundle): Result<TagBundle, Fault> {
    var block :- TagsIn(region);
    Ok(Merge(global, block))
  }

  /** An absent tag region leaves the global bundle as it is. */
  lemma ConcatenatedAbsentRegion(global: TagBundle)
    ensures Concatenated(None, global) == Ok(global)
  {
    MergeMonoid(global, NoTags, NoTags);
  }

  /** `find_all_tags`, as the loop the source runs. */
  method FindAllTags(spans: seq<TagSpan>) returns (r: Result<seq<string>, Fault>)
    ensures r == TagTexts(spans)
  {
    var tags: seq<string> := [];
    var i := 0;
    while i < |spans|
      invariant 0 <= i <= |spans|
      invariant TagTexts(spans[..i]) == Ok(tags)
    {
      FoldStep(KeepStep, [], spans, i);
      var span := spans[i];
      if span.grandparentClass.None? {
        FoldFailurePersists(KeepStep, [], spans, i + 1, MissingClassAttribute);
        return Err(MissingClassAttribute);
      }
      if !InVariantOrGroup(span.grandparentClass.value) {
        var text := Strip(span.text);
        if text != "" {
          tags := tags + [text];
        }
      }
      i := i + 1;
    }
    assert spans[..i] == spans;
    return Ok(tags);
  }

  /** `get_tags`. */
  method GetTags(region: Option<TagRegion>) returns (r: Result<TagBundle, Fault>)
    ensures r == TagsIn(region)
  {
    if region.None? {
      return Ok(NoTags);
    }
    var section := region.value;
    var level :- FirstTagText(section.levels);
    var labelsAndCodes :- FindAllTags(section.grams);
    var regions :- FindAllTags(section.regions);
    var usages :- FindAllTags(section.usages);
    var domains :- FindAllTags(section.domains);
    return Ok(TagBundle(level, labelsAndCodes, regions, usages, domains));
  }

  /** `concatenate_tags`. */
  method ConcatenateTags(region: Option<TagRegion>, global: TagBundle) returns (r: Result<TagBundle, Fault>)
    ensures r == Concatenated(region, global)
  {
    var block :- GetTags(region);
    return Ok(Merge(global, block));
  }
}
