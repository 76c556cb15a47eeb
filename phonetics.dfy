/** Phonetics of an entry header (`get_phonetics`): audio links sorted into UK and US by their
    parent's class tokens, and IPA transcriptions chosen by dictionary variant. */
module Phonetics {
  import opened Wrappers
  import opened Folds
  import opened Text
  import opened Markup

  datatype Phonetics = Phonetics(
    ukIpa: seq<string>,
    usIpa: seq<string>,
    ukAudioLinks: seq<string>,
    usAudioLinks: seq<string>)

  datatype AudioLinks = AudioLinks(uk: seq<string>, us: seq<string>)

  datatype Ipa = Ipa(uk: seq<string>, us: seq<string>)

  /** The absolute link of an audio source. */
  function Link(src: string): string {
    LinkPrefix + "/" + src
  }

  /** The parent's class tokens, each stripped and lower-cased. */
  function Tokens(classes: seq<string>): (r: seq<string>)
    ensures |r| == |classes|
    ensures forall k :: 0 <= k < |classes| ==> r[k] == Lower(Strip(classes[k]))
  {
    seq(|classes|, k requires 0 <= k < |classes| => Lower(Strip(classes[k])))
  }

  /** One iteration of the audio loop. */
  function AudioStep(links: AudioLinks, audio: Audio): Result<AudioLinks, Fault> {
    match audio.parentClass
    case None => Err(MissingClassAttribute)
    case Some(classes) =>
      var tokens := Tokens(classes);
      if audio.src.None? || audio.src.value == "" then Ok(links)
      else if "uk" in tokens then Ok(links.(uk := links.uk + [Link(audio.src.value)]))
      else if "us" in tokens then Ok(links.(us := links.us + [Link(audio.src.value)]))
      else Ok(links)
  }

  /** The audio links the loop over the header's audio spans collects. */
  function AudioLinksIn(audios: seq<Audio>): Result<AudioLinks, Fault> {
    Fold(AudioStep, AudioLinks([], []), audios)
  }

  /** Some class token, stripped and lower-cased, equals `token`. */
  predicate HasToken(classes: seq<string>, token: string)
    decreases |classes|
  {
    classes != [] && (Lower(Strip(classes[0])) == token || HasToken(classes[1..], token))
  }

  /** `HasToken` is membership in the normalised token list. */
  lemma {:induction false} HasTokenMeaning(classes: seq<string>, token: string)
    ensures HasToken(classes, token) <==> token in Tokens(classes)
    decreases |classes|
  {
    if classes != [] {
      HasTokenMeaning(classes[1..], token);
      var rest := Tokens(classes[1..]);
      assert Tokens(classes) == [Lower(Strip(classes[0]))] + rest;
    }
  }

  /** An audio span with a parent class attribute and a non-empty source. */
  predicate Playable(audio: Audio) {
    audio.parentClass.Some? && audio.src.Some? && audio.src.value != ""
  }

  /** A playable span whose parent carries the token "uk". */
  predicate MarkedUk(audio: Audio) {
    Playable(audio) && HasToken(audio.parentClass.value, "uk")
  }

  /** A playable span whose parent carries "us" and not "uk". */
  predicate MarkedUs(audio: Audio) {
    Playable(audio) && !HasToken(audio.parentClass.value, "uk") && HasToken(audio.parentClass.value, "us")
  }

  function UkLink(audio: Audio): seq<string> {
    if MarkedUk(audio) then [Link(audio.src.value)] else []
  }

  function UsLink(audio: Audio): seq<string> {
    if MarkedUs(audio) then [Link(audio.src.value)] else []
  }

  /** Reference definition: the links of the UK-marked spans, in document order. */
  function UkLinks(audios: seq<Audio>): seq<string>
    decreases |audios|
  {
    if audios == [] then [] else UkLink(audios[0]) + UkLinks(audios[1..])
  }

  /** Reference definition: the links of the US-marked spans, in document order. */
  function UsLinks(audios: seq<Audio>): seq<string>
    decreases |audios|
  {
    if audios == [] then [] else UsLink(audios[0]) + UsLinks(audios[1..])
  }

  /** Some audio span's parent has no class attribute. */
  predicate HasClasslessParent(audios: seq<Audio>) {
    exists i :: 0 <= i < |audios| && audios[i].parentClass.None?
  }

  lemma {:induction false} UkLinksAppend(a: seq<Audio>, b: seq<Audio>)
    ensures UkLinks(a + b) == UkLinks(a) + UkLinks(b)
    decreases |a|
  {
    if a == [] {
      assert a + b == b;
    } else {
      assert (a + b)[0] == a[0];
      assert (a + b)[1..] == a[1..] + b;
      UkLinksAppend(a[1..], b);
      assert UkLinks(a + b) == UkLink(a[0]) + UkLinks(a[1..] + b);
    }
  }

  lemma {:induction false} UsLinksAppend(a: seq<Audio>, b: seq<Audio>)
    ensures UsLinks(a + b) == UsLinks(a) + UsLinks(b)
    decreases |a|
  {
    if a == [] {
      assert a + b == b;
    } else {
      assert (a + b)[0] == a[0];
      assert (a + b)[1..] == a[1..] + b;
      UsLinksAppend(a[1..], b);
      assert UsLinks(a + b) == UsLink(a[0]) + UsLinks(a[1..] + b);
    }
  }

  lemma AudioStepMeaning(links: AudioLinks, audio: Audio)
    ensures AudioStep(links, audio) ==
            if audio.parentClass.None? then Err(MissingClassAttribute)
            else Ok(AudioLinks(links.uk + UkLink(audio), links.us + UsLink(audio)))
  {
    assert links.uk + [] == links.uk;
    assert links.us + [] == links.us;
    if audio.parentClass.Some? {
      HasTokenMeaning(audio.parentClass.value, "uk");
      HasTokenMeaning(audio.parentClass.value, "us");
    }
  }

  lemma HasClasslessParentSnoc(init: seq<Audio>, last: Audio)
    ensures HasClasslessParent(init + [last]) <==> HasClasslessParent(init) || last.parentClass.None?
  {
    var audios := init + [last];
    if HasClasslessParent(audios) && !last.parentClass.None? {
      var i :| 0 <= i < |audios| && audios[i].parentClass.None?;
      assert init[i] == audios[i];
    }
    if HasClasslessParent(init) {
      var i :| 0 <= i < |init| && init[i].parentClass.None?;
      assert audios[i] == init[i];
    }
    if last.parentClass.None? {
      assert audios[|init|] == last;
    }
  }

  /** The reference links of a single span. */
  lemma SingleAudioLinks(audio: Audio)
    ensures UkLinks([audio]) == UkLink(audio)
    ensures UsLinks([audio]) == UsLink(audio)
  {
    assert [audio][1..] == [];
    assert UkLink(audio) + [] == UkLink(audio);
    assert UsLink(audio) + [] == UsLink(audio);
  }

  /** The audio loop raises exactly when some audio span's parent has no class attribute;
      otherwise UK links are those of the UK-marked spans and US links those of the spans marked
      "us" but not "uk", each in document order. */
  lemma {:induction false} AudioLinksMeaning(audios: seq<Audio>)
    ensures AudioLinksIn(audios) ==
            if HasClasslessParent(audios) then Err(MissingClassAttribute)
            else Ok(AudioLinks(UkLinks(audios), UsLinks(audios)))
    decreases |audios|
  {
    if audios != [] {
      var n := |audios| - 1;
      var init := audios[..n];
      var last := audios[n];
      assert audios == init + [last];
      AudioLinksMeaning(init);
      HasClasslessParentSnoc(init, last);
      FoldStep(AudioStep, AudioLinks([], []), audios, n);
      assert audios[..n + 1] == audios;
      if !HasClasslessParent(init) {
        UkLinksAppend(init, [last]);
        UsLinksAppend(init, [last]);
        SingleAudioLinks(last);
        AudioStepMeaning(AudioLinks(UkLinks(init), UsLinks(init)), last);
      }
    }
  }

  /** Every UK link is `LinkPrefix + "/" + src` for the non-empty source of a UK-marked span, and
      every US link the same for a span marked "us" and not "uk": "uk" wins, and a span with
      neither token gives no link. */
  lemma LinksWellFormed(audios: seq<Audio>)
    ensures forall link :: link in UkLinks(audios) ==>
              exists i :: 0 <= i < |audios| && MarkedUk(audios[i]) && link == Link(audios[i].src.value)
    ensures forall link :: link in UsLinks(audios) ==>
              exists i :: 0 <= i < |audios| && MarkedUs(audios[i]) && link == Link(audios[i].src.value)
  {
    UkLinksWellFormed(audios);
    UsLinksWellFormed(audios);
  }

  lemma {:induction false} UkLinksWellFormed(audios: seq<Audio>)
    ensures forall link :: link in UkLinks(audios) ==>
              exists i :: 0 <= i < |audios| && MarkedUk(audios[i]) && link == Link(audios[i].src.value)
    decreases |audios|
  {
    if audios != [] {
      var rest := audios[1..];
      UkLinksWellFormed(rest);
      assert UkLinks(audios) == UkLink(audios[0]) + UkLinks(rest);
      forall link | link in UkLinks(audios)
        ensures exists i :: 0 <= i < |audios| && MarkedUk(audios[i]) && link == Link(audios[i].src.value)
      {
        if link in UkLink(audios[0]) {
          assert MarkedUk(audios[0]) && link == Link(audios[0].src.value);
        } else {
          var i :| 0 <= i < |rest| && MarkedUk(rest[i]) && link == Link(rest[i].src.value);
          assert audios[i + 1] == rest[i];
        }
      }
    }
  }

  lemma {:induction false} UsLinksWellFormed(audios: seq<Audio>)
    ensures forall link :: link in UsLinks(audios) ==>
              exists i :: 0 <= i < |audios| && MarkedUs(audios[i]) && link == Link(audios[i].src.value)
    decreases |audios|
  {
    if audios != [] {
      var rest := audios[1..];
      UsLinksWellFormed(rest);
      assert UsLinks(audios) == UsLink(audios[0]) + UsLinks(rest);
      forall link | link in UsLinks(audios)
        ensures exists i :: 0 <= i < |audios| && MarkedUs(audios[i]) && link == Link(audios[i].src.value)
      {
        if link in UsLink(audios[0]) {
          assert MarkedUs(audios[0]) && link == Link(audios[0].src.value);
        } else {
          var i :| 0 <= i < |rest| && MarkedUs(rest[i]) && link == Link(rest[i].src.value);
          assert audios[i + 1] == rest[i];
        }
      }
    }
  }

  /** The loop over the transcription spans of the general dictionary: each one goes to UK or US
      by the exact tokens of its parent's class attribute ("uk" first); a parent without a class
      attribute is skipped. */
  function EnglishIpa(prons: seq<Pron>): Ipa
    decreases |prons|
  {
    if prons == [] then Ipa([], [])
    else
      var ipa := EnglishIpa(prons[..|prons| - 1]);
      var last := prons[|prons| - 1];
      match last.parentClass
      case None => ipa
      case Some(classes) =>
        if "uk" in classes then ipa.(uk := ipa.uk + [Strip(last.text)])
        else if "us" in classes then ipa.(us := ipa.us + [Strip(last.text)])
        else ipa
  }

  /** Every UK transcription is the stripped text of a span whose parent carries "uk", every US
      one that of a span whose parent carries "us" and not "uk"; there are never more
      transcriptions than spans. */
  lemma {:induction false} EnglishIpaSound(prons: seq<Pron>)
    ensures var ipa := EnglishIpa(prons);
            && |ipa.uk| + |ipa.us| <= |prons|
            && (forall t :: t in ipa.uk ==>
                  exists i :: 0 <= i < |prons| && prons[i].parentClass.Some?
                              && "uk" in prons[i].parentClass.value && t == Strip(prons[i].text))
            && (forall t :: t in ipa.us ==>
                  exists i :: 0 <= i < |prons| && prons[i].parentClass.Some?
                              && "uk" !in prons[i].parentClass.value && "us" in prons[i].parentClass.value
                              && t == Strip(prons[i].text))
    decreases |prons|
  {
    if prons != [] {
      var n := |prons| - 1;
      var init := prons[..n];
      EnglishIpaSound(init);
      var before := EnglishIpa(init);
      forall t | t in before.uk
        ensures exists i :: 0 <= i < |prons| && prons[i].parentClass.Some?
                            && "uk" in prons[i].parentClass.value && t == Strip(prons[i].text)
      {
        var i :| 0 <= i < |init| && init[i].parentClass.Some? && "uk" in init[i].parentClass.value
                 && t == Strip(init[i].text);
        assert prons[i] == init[i];
      }
      forall t | t in before.us
        ensures exists i :: 0 <= i < |prons| && prons[i].parentClass.Some?
                            && "uk" !in prons[i].parentClass.value && "us" in prons[i].parentClass.value
                            && t == Strip(prons[i].text)
      {
        var i :| 0 <= i < |init| && init[i].parentClass.Some? && "uk" !in init[i].parentClass.value
                 && "us" in init[i].parentClass.value && t == Strip(init[i].text);
        assert prons[i] == init[i];
      }
    }
  }

  /** What one transcription span contributes to the UK list: its stripped text when its
      parent's classes include "uk", nothing otherwise. */
  function UkTranscription(p: Pron): seq<string> {
    if p.parentClass.Some? && "uk" in p.parentClass.value then [Strip(p.text)] else []
  }

  /** What one transcription span contributes to the US list: its stripped text when its
      parent's classes include "us" but not "uk", nothing otherwise. */
  function UsTranscription(p: Pron): seq<string> {
    if p.parentClass.Some? && "uk" !in p.parentClass.value && "us" in p.parentClass.value
    then [Strip(p.text)] else []
  }

  /** Reference definitions of the two lists, span by span from the front. */
  function UkIpa(prons: seq<Pron>): seq<string> {
    if prons == [] then [] else UkTranscription(prons[0]) + UkIpa(prons[1..])
  }

  function UsIpa(prons: seq<Pron>): seq<string> {
    if prons == [] then [] else UsTranscription(prons[0]) + UsIpa(prons[1..])
  }

  lemma {:induction false} UkIpaAppend(a: seq<Pron>, b: seq<Pron>)
    ensures UkIpa(a + b) == UkIpa(a) + UkIpa(b)
    decreases |a|
  {
    if a == [] {
      assert a + b == b;
    } else {
      assert (a + b)[0] == a[0];
      assert (a + b)[1..] == a[1..] + b;
      UkIpaAppend(a[1..], b);
      assert UkIpa(a + b) == UkTranscription(a[0]) + UkIpa(a[1..] + b);
    }
  }

  lemma {:induction false} UsIpaAppend(a: seq<Pron>, b: seq<Pron>)
    ensures UsIpa(a + b) == UsIpa(a) + UsIpa(b)
    decreases |a|
  {
    if a == [] {
      assert a + b == b;
    } else {
      assert (a + b)[0] == a[0];
      assert (a + b)[1..] == a[1..] + b;
      UsIpaAppend(a[1..], b);
      assert UsIpa(a + b) == UsTranscription(a[0]) + UsIpa(a[1..] + b);
    }
  }

  /** The general dictionary's transcriptions are exactly the per-span contributions, in page
      order: each span whose parent has a class attribute is filed once, as UK when the classes
      include "uk", as US when they include "us" and not "uk", and is otherwise dropped, as is
      every span whose parent has no class attribute. */
  lemma {:induction false} EnglishIpaMeaning(prons: seq<Pron>)
    ensures EnglishIpa(prons) == Ipa(UkIpa(prons), UsIpa(prons))
    decreases |prons|
  {
    if prons != [] {
      var n := |prons| - 1;
      var init, last := prons[..n], prons[n];
      assert prons == init + [last];
      EnglishIpaMeaning(init);
      UkIpaAppend(init, [last]);
      UsIpaAppend(init, [last]);
      assert UkIpa([last]) == UkTranscription(last) + UkIpa([]);
      assert UsIpa([last]) == UsTranscription(last) + UsIpa([]);
    }
  }

  /** Transcriptions by dictionary variant: per-span classification in the general dictionary;
      in the American and Business ones the UK list is empty and the US list holds the first
      transcription span, if any. */
  function IpaOf(prons: seq<Pron>, variation: Variation): Ipa {
    if variation == English then EnglishIpa(prons)
    else Ipa([], if prons == [] then [] else [Strip(prons[0].text)])
  }

  /** `get_phonetics`: nothing for an absent header; otherwise the audio links, then the
      transcriptions. */
  function PhoneticsOf(header: Option<Header>, variation: Variation): Result<Phonetics, Fault> {
    match header
    case None => Ok(Phonetics([], [], [], []))
    case Some(h) =>
      var links :- AudioLinksIn(h.audios);
      var ipa := IpaOf(h.prons, variation);
      Ok(Phonetics(ipa.uk, ipa.us, links.uk, links.us))
  }

  /** Outside the general dictionary the UK transcription list is empty and the US one holds at
      most the first transcription. */
  lemma NonEnglishIpa(h: Header, variation: Variation)
    requires variation != English
    requires PhoneticsOf(Some(h), variation).Ok?
    ensures var p := PhoneticsOf(Some(h), variation).value;
            && p.ukIpa == []
            && |p.usIpa| <= 1
            && (h.prons != [] ==> p.usIpa == [Strip(h.prons[0].text)])
  {
  }

  /** Every link `get_phonetics` returns has the form `LinkPrefix + "/" + src` with a non-empty
      `src`, and the two lists are exactly those of the reference definitions. */
  lemma PhoneticsLinks(h: Header, variation: Variation)
    requires PhoneticsOf(Some(h), variation).Ok?
    ensures var p := PhoneticsOf(Some(h), variation).value;
            && p.ukAudioLinks == UkLinks(h.audios)
            && p.usAudioLinks == UsLinks(h.audios)
            && (forall link :: link in p.ukAudioLinks ==> exists src :: src != "" && link == Link(src))
            && (forall link :: link in p.usAudioLinks ==> exists src :: src != "" && link == Link(src))
  {
    AudioLinksMeaning(h.audios);
    LinksWellFormed(h.audios);
    var p := PhoneticsOf(Some(h), variation).value;
    assert !HasClasslessParent(h.audios);
    assert p.ukAudioLinks == UkLinks(h.audios) && p.usAudioLinks == UsLinks(h.audios);
    forall link | link in p.ukAudioLinks
      ensures exists src :: src != "" && link == Link(src)
    {
      var i :| 0 <= i < |h.audios| && MarkedUk(h.audios[i]) && link == Link(h.audios[i].src.value);
      var src := h.audios[i].src.value;
      assert src != "" && link == Link(src);
    }
    forall link | link in p.usAudioLinks
      ensures exists src :: src != "" && link == Link(src)
    {
      var i :| 0 <= i < |h.audios| && MarkedUs(h.audios[i]) && link == Link(h.audios[i].src.value);
      var src := h.audios[i].src.value;
      assert src != "" && link == Link(src);
    }
  }

  /** `get_phonetics`, with the loops the source runs. */
  method GetPhonetics(header: Option<Header>, variation: Variation) returns (r: Result<Phonetics, Fault>)
    ensures r == PhoneticsOf(header, variation)
  {
    if header.None? {
      return Ok(Phonetics([], [], [], []));
    }
    var h := header.value;
    var ukAudioLinks: seq<string> := [];
    var usAudioLinks: seq<string> := [];
    var i := 0;
    while i < |h.audios|
      invariant 0 <= i <= |h.audios|
      invariant AudioLinksIn(h.audios[..i]) == Ok(AudioLinks(ukAudioLinks, usAudioLinks))
    {
      FoldStep(AudioStep, AudioLinks([], []), h.audios, i);
      var audio := h.audios[i];
      if audio.parentClass.None? {
        FoldFailurePersists(AudioStep, AudioLinks([], []), h.audios, i + 1, MissingClassAttribute);
        return Err(MissingClassAttribute);
      }
      var parentClass := Tokens(audio.parentClass.value);
      if audio.src.Some? && audio.src.value != "" {
        var link := Link(audio.src.value);
        if "uk" in parentClass {
          ukAudioLinks := ukAudioLinks + [link];
        } else if "us" in parentClass {
          usAudioLinks := usAudioLinks + [link];
        }
      }
      i := i + 1;
    }
    assert h.audios[..i] == h.audios;

    var ukIpa: seq<string> := [];
    var usIpa: seq<string> := [];
    if variation == English {
      var j := 0;
      while j < |h.prons|
        invariant 0 <= j <= |h.prons|
        invariant EnglishIpa(h.prons[..j]) == Ipa(ukIpa, usIpa)
      {
        var pron := h.prons[j];
        assert h.prons[..j + 1][..j] == h.prons[..j];
        if pron.parentClass.Some? {
          if "uk" in pron.parentClass.value {
            ukIpa := ukIpa + [Strip(pron.text)];
          } else if "us" in pron.parentClass.value {
            usIpa := usIpa + [Strip(pron.text)];
          }
        }
        j := j + 1;
      }
      assert h.prons[..j] == h.prons;
    } else {
      ukIpa := [];
      usIpa := if h.prons != [] then [Strip(h.prons[0].text)] else [];
    }
    return Ok(Phonetics(ukIpa, usIpa, ukAudioLinks, usAudioLinks));
  }
}
