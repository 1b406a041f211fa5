/** extract_sections of PDF_summarizer/core/pdf_processor.py. Each of the four
    section patterns is KEYWORD(.+?)STOP, searched with DOTALL and IGNORECASE:
    re.search tries the start positions from the left, and at each start the
    lazy group takes the fewest characters (at least one) after which one of
    the stops matches. The value is the group, stripped. Letters are folded
    over ASCII only. */
module PdfSections {
  import opened Text
  import opened Py

  datatype Section = Abstract | Methods | Results | Conclusions

  /** The key of the section in the returned dict. */
  function Name(s: Section): string {
    match s
    case Abstract => "abstract"
    case Methods => "methods"
    case Results => "results"
    case Conclusions => "conclusions"
  }

  /** What may end the group: a word, or `$` without MULTILINE, which
      matches at the end of the text and just before a newline that ends
      it. */
  datatype Stop = Word(w: string) | End

  function Keyword(s: Section): (kw: string)
    ensures |kw| > 0
  {
    match s
    case Abstract => "ABSTRACT"
    case Methods => "METHODS"
    case Results => "RESULTS"
    case Conclusions => "CONCLUSION"
  }

  function Stops(s: Section): seq<Stop> {
    match s
    case Abstract => [Word("INTRODUCTION"), End]
    case Methods => [Word("RESULTS")]
    case Results => [Word("DISCUSSION")]
    case Conclusions => [Word("REFERENCES"), End]
  }

  predicate StopsAt(text: string, stop: Stop, e: nat) {
    match stop
    case Word(w) => OccursAtIgnoreCase(text, w, e)
    case End => e == |text| || (e + 1 == |text| && text[e] == '\n')
  }

  /** One of the alternatives after the group matches at e. */
  predicate AnyStopAt(text: string, stops: seq<Stop>, e: nat) {
    exists k :: 0 <= k < |stops| && StopsAt(text, stops[k], e)
  }

  // ---------------------------------------------------------------------
  // The search, as the regex engine runs it

  /** The end of the lazy group: the first position from `from` on where a
      stop matches. */
  function GroupEnd(text: string, stops: seq<Stop>, from: nat): (r: Option<nat>)
    ensures r.Some? ==> from <= r.value <= |text| && AnyStopAt(text, stops, r.value)
    ensures r.Some? ==> forall e :: from <= e < r.value ==> !AnyStopAt(text, stops, e)
    ensures r.None? ==> forall e :: from <= e <= |text| ==> !AnyStopAt(text, stops, e)
    decreases |text| + 1 - from
  {
    if from > |text| then None
    else if AnyStopAt(text, stops, from) then Some(from)
    else GroupEnd(text, stops, from + 1)
  }

  /** re.search from start position i on: the group's bounds at the first
      start where the keyword occurs and the group can end. */
  function SearchFrom(text: string, kw: string, stops: seq<Stop>, i: nat): (r: Option<(nat, nat)>)
    ensures r.Some? ==> i + |kw| <= r.value.0 < r.value.1 <= |text|
    decreases |text| + 1 - i
  {
    if i > |text| then None
    else if OccursAtIgnoreCase(text, kw, i) && GroupEnd(text, stops, i + |kw| + 1).Some? then
      Some((i + |kw|, GroupEnd(text, stops, i + |kw| + 1).value))
    else SearchFrom(text, kw, stops, i + 1)
  }

  /** re.search(pattern, text, re.DOTALL | re.IGNORECASE), as the bounds of
      group 1. */
  function Search(text: string, s: Section): Option<(nat, nat)> {
    SearchFrom(text, Keyword(s), Stops(s), 0)
  }

  /** extract_sections(text): every section whose pattern is found, mapped to
      its stripped group. */
  function ExtractSections(text: string): (r: map<Section, string>)
    ensures forall s :: s in r ==> |r[s]| < |text| && forall c :: c in r[s] ==> c in text
    ensures forall s :: s in r ==> r[s] == [] || (!IsSpace(r[s][0]) && !IsSpace(r[s][|r[s]| - 1]))
  {
    map s | s in {Abstract, Methods, Results, Conclusions} && Search(text, s).Some? :: Group(text, s)
  }

  /** .group(1).strip() of a match: shorter than the text, since the keyword
      comes before it, and made of the text's characters. */
  function Group(text: string, s: Section): (v: string)
    requires Search(text, s).Some?
    ensures |v| < |text| && forall c :: c in v ==> c in text
    ensures v == [] || (!IsSpace(v[0]) && !IsSpace(v[|v| - 1]))
  {
    var (g, e) := Search(text, s).value;
    SliceChars(text, g, e);
    Strip(text[g..e])
  }

  // ---------------------------------------------------------------------
  // What a match is

  /** The keyword occurs at i and a stop matches at least one character
      after it. */
  predicate Viable(text: string, kw: string, stops: seq<Stop>, i: nat) {
    OccursAtIgnoreCase(text, kw, i)
      && exists e :: i + |kw| < e <= |text| && AnyStopAt(text, stops, e)
  }

  /** The match re.search reports: the leftmost start where the keyword can
      be followed by a group, and the shortest group there. */
  predicate Leftmost(text: string, kw: string, stops: seq<Stop>, g: nat, e: nat) {
    && g >= |kw|
    && Viable(text, kw, stops, g - |kw|)
    && (forall i :: 0 <= i < g - |kw| ==> !Viable(text, kw, stops, i))
    && g < e <= |text|
    && AnyStopAt(text, stops, e)
    && (forall e' :: g < e' < e ==> !AnyStopAt(text, stops, e'))
  }

  lemma {:induction false} SearchFromSound(text: string, kw: string, stops: seq<Stop>, i: nat)
    requires forall j :: 0 <= j < i ==> !Viable(text, kw, stops, j)
    ensures SearchFrom(text, kw, stops, i).Some? ==>
      Leftmost(text, kw, stops, SearchFrom(text, kw, stops, i).value.0, SearchFrom(text, kw, stops, i).value.1)
    decreases |text| + 1 - i
  {
    if i <= |text| {
      var found := GroupEnd(text, stops, i + |kw| + 1);
      if OccursAtIgnoreCase(text, kw, i) && found.Some? {
        assert Viable(text, kw, stops, i);
      } else {
        assert !Viable(text, kw, stops, i);
        SearchFromSound(text, kw, stops, i + 1);
      }
    }
  }

  lemma {:induction false} SearchFromComplete(text: string, kw: string, stops: seq<Stop>, i: nat, j: nat)
    requires i <= j && Viable(text, kw, stops, j)
    ensures SearchFrom(text, kw, stops, i).Some?
    decreases j - i
  {
    if i == j {
      var e :| j + |kw| < e <= |text| && AnyStopAt(text, stops, e);
      assert GroupEnd(text, stops, i + |kw| + 1).Some?;
    } else if !(OccursAtIgnoreCase(text, kw, i) && GroupEnd(text, stops, i + |kw| + 1).Some?) {
      SearchFromComplete(text, kw, stops, i + 1, j);
    }
  }

  /** The search finds exactly the leftmost match with the shortest group,
      and finds one whenever the keyword can be followed by a group. */
  lemma SearchMeaning(text: string, s: Section)
    ensures Search(text, s).Some? ==>
      Leftmost(text, Keyword(s), Stops(s), Search(text, s).value.0, Search(text, s).value.1)
    ensures Search(text, s).Some? <==> exists i: nat :: Viable(text, Keyword(s), Stops(s), i)
  {
    SearchFromSound(text, Keyword(s), Stops(s), 0);
    if exists i: nat :: Viable(text, Keyword(s), Stops(s), i) {
      var i :| Viable(text, Keyword(s), Stops(s), i);
      SearchFromComplete(text, Keyword(s), Stops(s), 0, i);
    }
  }

  /** Two leftmost matches are the same match. */
  lemma LeftmostUnique(text: string, kw: string, stops: seq<Stop>, g: nat, e: nat, g': nat, e': nat)
    requires Leftmost(text, kw, stops, g, e) && Leftmost(text, kw, stops, g', e')
    ensures g == g' && e == e'
  {
  }

  // ---------------------------------------------------------------------
  // The four sections

  /** A key is present exactly when its pattern is found, and its value is
      the stripped group of the leftmost match. */
  lemma ExtractMeaning(text: string, s: Section)
    ensures s in ExtractSections(text) <==> exists i: nat :: Viable(text, Keyword(s), Stops(s), i)
    ensures s in ExtractSections(text) ==>
      var (g, e) := Search(text, s).value;
      Leftmost(text, Keyword(s), Stops(s), g, e) && ExtractSections(text)[s] == Strip(text[g..e])
  {
    SearchMeaning(text, s);
  }

  /** `$` matches at the end of the text: the keyword is viable exactly when
      a character follows it. */
  lemma EndViable(text: string, kw: string, w: string)
    ensures (exists i: nat :: Viable(text, kw, [Word(w), End], i)) <==>
      exists i: nat :: OccursAtIgnoreCase(text, kw, i) && i + |kw| < |text|
  {
    if exists i: nat :: OccursAtIgnoreCase(text, kw, i) && i + |kw| < |text| {
      var i: nat :| OccursAtIgnoreCase(text, kw, i) && i + |kw| < |text|;
      assert StopsAt(text, [Word(w), End][1], |text|);
      assert AnyStopAt(text, [Word(w), End], |text|);
      assert Viable(text, kw, [Word(w), End], i);
    }
  }

  /** A single closing word: the keyword is viable exactly when the word
      occurs at least one character after it. */
  lemma WordViable(text: string, kw: string, w: string)
    ensures (exists i: nat :: Viable(text, kw, [Word(w)], i)) <==>
      exists i: nat, j: nat :: OccursAtIgnoreCase(text, kw, i) && OccursAtIgnoreCase(text, w, j) && i + |kw| < j
  {
    if exists i: nat, j: nat :: OccursAtIgnoreCase(text, kw, i) && OccursAtIgnoreCase(text, w, j) && i + |kw| < j {
      var i: nat, j: nat :| OccursAtIgnoreCase(text, kw, i) && OccursAtIgnoreCase(text, w, j) && i + |kw| < j;
      assert StopsAt(text, [Word(w)][0], j);
      assert AnyStopAt(text, [Word(w)], j);
      assert Viable(text, kw, [Word(w)], i);
    }
    if exists i: nat :: Viable(text, kw, [Word(w)], i) {
      var i: nat :| Viable(text, kw, [Word(w)], i);
      var e :| i + |kw| < e <= |text| && AnyStopAt(text, [Word(w)], e);
      assert OccursAtIgnoreCase(text, w, e);
    }
  }

  /** The abstract and the conclusions are present whenever their keyword
      has a character after it. */
  lemma EndedSectionFound(text: string, s: Section)
    requires s == Abstract || s == Conclusions
    ensures s in ExtractSections(text) <==>
      exists i: nat :: OccursAtIgnoreCase(text, Keyword(s), i) && i + |Keyword(s)| < |text|
  {
    ExtractMeaning(text, s);
    EndViable(text, Keyword(s), Stops(s)[0].w);
  }

  /** The methods and the results need their closing word later in the
      text, at least one character after the keyword. */
  lemma WordedSectionFound(text: string, s: Section)
    requires s == Methods || s == Results
    ensures s in ExtractSections(text) <==>
      exists i: nat, j: nat :: OccursAtIgnoreCase(text, Keyword(s), i)
        && OccursAtIgnoreCase(text, Stops(s)[0].w, j) && i + |Keyword(s)| < j
  {
    ExtractMeaning(text, s);
    WordViable(text, Keyword(s), Stops(s)[0].w);
  }

  /** A stripped span is empty exactly when every character in it is
      whitespace. */
  lemma SpanBlank(text: string, g: nat, e: nat)
    requires g <= e <= |text|
    ensures Strip(text[g..e]) == "" <==> forall k :: g <= k < e ==> IsSpace(text[k])
  {
    var span := text[g..e];
    StripEmptyIff(span);
    assert forall k :: g <= k < e ==> span[k - g] == text[k];
  }

  /** A section whose group is all whitespace is present with the value "". */
  lemma BlankSection(text: string, s: Section, g: nat, e: nat)
    requires Leftmost(text, Keyword(s), Stops(s), g, e)
    ensures s in ExtractSections(text)
    ensures ExtractSections(text)[s] == "" <==> forall k :: g <= k < e ==> IsSpace(text[k])
  {
    ExtractMeaning(text, s);
    var (g', e') := Search(text, s).value;
    LeftmostUnique(text, Keyword(s), Stops(s), g, e, g', e');
    SpanBlank(text, g, e);
  }

  /** In "Conclusions: ok" only the end of the text closes the group. */
  lemma ConclusionsGroupEnd()
    ensures GroupEnd("Conclusions: ok", Stops(Conclusions), 11) == Some(15)
  {
    var text := "Conclusions: ok";
    assert StopsAt(text, Stops(Conclusions)[1], 15);
    forall e | 11 <= e < 15
      ensures !AnyStopAt(text, Stops(Conclusions), e)
    {
    }
  }

  /** The keyword is CONCLUSION, so a heading "Conclusions" leaves its "s"
      at the head of the value. */
  lemma ConclusionsExample()
    ensures Search("Conclusions: ok", Conclusions) == Some((10, 15))
    ensures ExtractSections("Conclusions: ok")[Conclusions] == "s: ok"
  {
    var text := "Conclusions: ok";
    assert OccursAtIgnoreCase(text, "CONCLUSION", 0) by {
      assert forall k :: 0 <= k < 10 ==> SameLetter(text[k], "CONCLUSION"[k]);
    }
    ConclusionsGroupEnd();
    var value := text[10..15];
    assert value == "s: ok";
    StripKeeps(value);
  }
}
