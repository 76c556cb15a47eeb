/** Alternative spellings (`get_alt_terms`) and irregular inflections (`get_irregular_forms`) of a
    header, definition head or phrase region. */
module Forms {
  import opened Wrappers
  import opened Text
  import opened Markup

  /** `get_alt_terms`: the stripped texts of the variant spans, then of the spelling-variant
      spans; nothing is dropped, not even an empty text. */
  function AltTermsOf(region: Option<FormsRegion>): (r: seq<string>)
    ensures region.None? ==> r == []
    ensures region.Some? ==>
              var f := region.value;
              && |r| == |f.vars| + |f.spellVars|
              && (forall k :: 0 <= k < |f.vars| ==> r[k] == Strip(f.vars[k]))
              && (forall k :: 0 <= k < |f.spellVars| ==> r[|f.vars| + k] == Strip(f.spellVars[k]))
  {
    match region
    case None => []
    case Some(f) =>
      var all := f.vars + f.spellVars;
      assert forall k :: 0 <= k < |f.spellVars| ==> all[|f.vars| + k] == f.spellVars[k];
      StripEach(all)
  }

  /** `get_alt_terms`: the `var dvar` spans are extended with the `spellvar dspellvar` ones and
      every text is stripped, in a loop. */
  method GetAltTerms(region: Option<FormsRegion>) returns (altTerms: seq<string>)
    ensures altTerms == AltTermsOf(region)
  {
    if region.None? {
      return [];
    }
    var varBlock := region.value.vars;
    varBlock := varBlock + region.value.spellVars;
    altTerms := StripAll(varBlock);
  }

  /** A class token that contains "dpron": the pronunciation inside an inflection entry. */
  predicate IsPronunciation(classes: seq<string>)
    decreases |classes|
  {
    classes != [] && (Contains(classes[0], "dpron") || IsPronunciation(classes[1..]))
  }

  /** What one tag child of an inflection entry adds to the entry's text: its stripped text,
      unless it has no class attribute or is a pronunciation. */
  function PartText(part: FormPart): seq<string> {
    if part.classes.Some? && !IsPronunciation(part.classes.value) then [Strip(part.text)] else []
  }

  /** The texts the inner loop of `get_irregular_forms` collects for one entry. */
  function PartTexts(parts: seq<FormPart>): seq<string>
    decreases |parts|
  {
    if parts == [] then [] else PartTexts(parts[..|parts| - 1]) + PartText(parts[|parts| - 1])
  }

  /** One inflection entry: its collected texts joined with single spaces. */
  function FormText(parts: seq<FormPart>): string {
    Join(" ", PartTexts(parts))
  }

  /** The outer loop of `get_irregular_forms`: the non-empty joined texts of the entries. */
  function IrregularForms(entries: seq<seq<FormPart>>): seq<string>
    decreases |entries|
  {
    if entries == [] then []
    else
      var text := FormText(entries[|entries| - 1]);
      IrregularForms(entries[..|entries| - 1]) + (if text != "" then [text] else [])
  }

  /** `get_irregular_forms`: nothing without a region or without an inflection span. */
  function IrregularFormsOf(region: Option<FormsRegion>): seq<string> {
    match region
    case None => []
    case Some(f) =>
      match f.irregular
      case None => []
      case Some(entries) => IrregularForms(entries)
  }

  /** Every irregular form is the non-empty joined text of one inflection entry, and there are
      no more forms than entries. */
  lemma {:induction false} IrregularFormsSound(entries: seq<seq<FormPart>>)
    ensures |IrregularForms(entries)| <= |entries|
    ensures forall form :: form in IrregularForms(entries) ==>
              form != "" && exists i :: 0 <= i < |entries| && form == FormText(entries[i])
    decreases |entries|
  {
    if entries != [] {
      var n := |entries| - 1;
      var init := entries[..n];
      IrregularFormsSound(init);
      forall form | form in IrregularForms(entries)
        ensures form != "" && exists i :: 0 <= i < |entries| && form == FormText(entries[i])
      {
        if form in IrregularForms(init) {
          var i :| 0 <= i < |init| && form == FormText(init[i]);
          assert entries[i] == init[i];
        } else {
          assert form == FormText(entries[n]);
        }
      }
    }
  }

  lemma {:induction false} PartTextsAppend(a: seq<FormPart>, b: seq<FormPart>)
    ensures PartTexts(a + b) == PartTexts(a) + PartTexts(b)
    decreases |b|
  {
    if b == [] {
      assert a + b == a;
    } else {
      var b' := b[..|b| - 1];
      assert (a + b)[..|a + b| - 1] == a + b';
      assert (a + b)[|a + b| - 1] == b[|b| - 1];
      PartTextsAppend(a, b');
    }
  }

  /** A pronunciation child, or a child without a class attribute, leaves an entry's text as it
      is, wherever it stands among the entry's children. */
  lemma SkippedPartAddsNothing(before: seq<FormPart>, part: FormPart, after: seq<FormPart>)
    requires part.classes.None? || IsPronunciation(part.classes.value)
    ensures FormText(before + [part] + after) == FormText(before + after)
  {
    SkippedPartTexts(before, part, after);
  }

  lemma SkippedPartTexts(before: seq<FormPart>, part: FormPart, after: seq<FormPart>)
    requires part.classes.None? || IsPronunciation(part.classes.value)
    ensures PartTexts(before + [part] + after) == PartTexts(before + after)
  {
    var withPart := before + [part];
    PartTextsAppend(withPart, after);
    PartTextsAppend(before, after);
    assert withPart[..|before|] == before;
    assert PartTexts(withPart) == PartTexts(before) + PartText(part);
    assert PartText(part) == [];
  }

  lemma IrregularFormsStep(entries: seq<seq<FormPart>>, i: nat)
    requires i < |entries|
    ensures var text := FormText(entries[i]);
            IrregularForms(entries[..i + 1]) == IrregularForms(entries[..i]) + (if text != "" then [text] else [])
  {
    assert entries[..i + 1][..i] == entries[..i];
  }

  /** The inner loop of `get_irregular_forms` over the tag children of one entry. */
  method CollectPartTexts(parts: seq<FormPart>) returns (text: seq<string>)
    ensures text == PartTexts(parts)
  {
    text := [];
    var j := 0;
    while j < |parts|
      invariant 0 <= j <= |parts|
      invariant text == PartTexts(parts[..j])
    {
      assert parts[..j + 1][..j] == parts[..j];
      var part := parts[j];
      if part.classes.Some? && !IsPronunciation(part.classes.value) {
        text := text + [Strip(part.text)];
      }
      j := j + 1;
    }
    assert parts[..j] == parts;
  }

  /** `get_irregular_forms`, with the two loops the source runs. */
  method GetIrregularForms(region: Option<FormsRegion>) returns (forms: seq<string>)
    ensures forms == IrregularFormsOf(region)
  {
    forms := [];
    if region.None? {
      return;
    }
    var allIrregFormsBlock := region.value.irregular;
    if allIrregFormsBlock.None? {
      return;
    }
    var entries := allIrregFormsBlock.value;
    var i := 0;
    while i < |entries|
      invariant 0 <= i <= |entries|
      invariant forms == IrregularForms(entries[..i])
    {
      var text := CollectPartTexts(entries[i]);
      var joinedText := Join(" ", text);
      IrregularFormsStep(entries, i);
      if joinedText != "" {
        forms := forms + [joinedText];
      }
      i := i + 1;
    }
    assert entries[..i] == entries;
  }
}
