/** The statistic tagging of PDF_summarizer/core/numerical_processor.py:
    annotate_numerics runs re.sub three times, for the p_value, percentage
    and correlation patterns of NUMERICAL_PATTERNS, wrapping every match in
    "[STAT:LABEL]" and "[/STAT]". Each pattern is modelled by a scanner that
    gives the length of the match starting at a position (0 for none); the
    regex classes \s and \d are taken over ASCII, and IGNORECASE folds ASCII
    letters. */
module NumericalProcessor {
  import opened Text
  import opened Py

  // ---------------------------------------------------------------------
  // The three patterns

  datatype Pattern = PValue | Percentage | Correlation

  /** The order of NUMERICAL_PATTERNS, which is the order of the passes. */
  const Passes: seq<Pattern> := [PValue, Percentage, Correlation]

  /** stat_type.upper(). */
  function LabelOf(p: Pattern): string {
    match p
    case PValue => "P_VALUE"
    case Percentage => "PERCENTAGE"
    case Correlation => "CORRELATION"
  }

  function Rank(p: Pattern): nat {
    match p
    case PValue => 0
    case Percentage => 1
    case Correlation => 2
  }

  /** The letter that starts p\s*[<>≤≥=]\s*[\d\.]+ and r\s*=\s*[\d\.]+. */
  function Letter(p: Pattern): char
    requires !p.Percentage?
  {
    if p.PValue? then 'p' else 'r'
  }

  /** The comparator class: [<>≤≥=] for p values, = for correlations. */
  predicate IsOp(p: Pattern, c: char) {
    if p.PValue? then c == '<' || c == '>' || c == '≤' || c == '≥' || c == '='
    else c == '='
  }

  /** The class [\d\.]. */
  predicate NumChar(c: char) {
    IsDigit(c) || c == '.'
  }

  // ---------------------------------------------------------------------
  // The patterns as scanners

  /** Which part of its pattern the scan is in. */
  datatype Phase =
    | Lead     // the first character: the letter, or for a percentage a digit
    | Gap1     // \s* before the comparator
    | Gap2     // \s* after the comparator
    | Number   // [\d\.]+, once one character of it is read
    | IntPart  // \d+, once one digit is read
    | Frac     // \d* after the point
    | Blank    // \s* before the '%'

  /** The end of the match of p when the scan is at position i of s in phase
      ph, or 0 when the match fails. Every quantifier of the three patterns
      is greedy and none can give back a character that would let the rest
      match, so reading one character at a time decides the match that the
      regex engine finds. */
  function Scan(p: Pattern, ph: Phase, s: string, i: nat): (r: nat)
    requires i <= |s|
    ensures r <= |s|
    decreases |s| - i
  {
    if i == |s| then (if ph.Number? then i else 0)
    else
      var c := s[i];
      match ph
      case Lead =>
        if p.Percentage? then (if IsDigit(c) then Scan(p, IntPart, s, i + 1) else 0)
        else if SameLetter(c, Letter(p)) then Scan(p, Gap1, s, i + 1)
        else 0
      case Gap1 =>
        if IsSpace(c) then Scan(p, Gap1, s, i + 1)
        else if IsOp(p, c) then Scan(p, Gap2, s, i + 1)
        else 0
      case Gap2 =>
        if IsSpace(c) then Scan(p, Gap2, s, i + 1)
        else if NumChar(c) then Scan(p, Number, s, i + 1)
        else 0
      case Number =>
        if NumChar(c) then Scan(p, Number, s, i + 1) else i
      case IntPart =>
        if IsDigit(c) then Scan(p, IntPart, s, i + 1)
        else if c == '.' then Scan(p, Frac, s, i + 1)
        else if IsSpace(c) then Scan(p, Blank, s, i + 1)
        else if c == '%' then i + 1
        else 0
      case Frac =>
        if IsDigit(c) then Scan(p, Frac, s, i + 1)
        else if IsSpace(c) then Scan(p, Blank, s, i + 1)
        else if c == '%' then i + 1
        else 0
      case Blank =>
        if IsSpace(c) then Scan(p, Blank, s, i + 1)
        else if c == '%' then i + 1
        else 0
  }

  /** The length of the match of p at the start of s, 0 when there is none. */
  function MatchLen(p: Pattern, s: string): (m: nat)
    ensures m <= |s|
  {
    Scan(p, Lead, s, 0)
  }

  /** The characters a phase reads and stays in. */
  predicate Loops(ph: Phase, c: char) {
    match ph
    case Lead => false
    case Gap1 => IsSpace(c)
    case Gap2 => IsSpace(c)
    case Blank => IsSpace(c)
    case IntPart => IsDigit(c)
    case Frac => IsDigit(c)
    case Number => NumChar(c)
  }

  /** Where the stretch a phase stays in, from i on, ends. */
  function Stop(ph: Phase, s: string, i: nat): (j: nat)
    requires i <= |s|
    ensures i <= j <= |s|
    ensures forall t :: i <= t < j ==> Loops(ph, s[t])
    ensures j == |s| || !Loops(ph, s[j])
    decreases |s| - i
  {
    if i < |s| && Loops(ph, s[i]) then Stop(ph, s, i + 1) else i
  }

  /** Reading a stretch the phase stays in changes nothing but the position. */
  lemma {:induction false} Skip(p: Pattern, ph: Phase, s: string, i: nat, j: nat)
    requires i <= j <= |s|
    requires forall t :: i <= t < j ==> Loops(ph, s[t])
    ensures Scan(p, ph, s, i) == Scan(p, ph, s, j)
    decreases j - i
  {
    if i < j {
      assert Loops(ph, s[i]);
      Skip(p, ph, s, i + 1, j);
    }
  }

  /** The scan jumps to where the phase's stretch stops. */
  lemma SkipAll(p: Pattern, ph: Phase, s: string, i: nat)
    requires i <= |s|
    ensures Scan(p, ph, s, i) == Scan(p, ph, s, Stop(ph, s, i))
  {
    Skip(p, ph, s, i, Stop(ph, s, i));
  }

  /** A stretch that stays in the phase and then leaves it is where the
      phase stops. */
  lemma StopIs(ph: Phase, s: string, i: nat, j: nat)
    requires i <= j <= |s|
    requires forall t :: i <= t < j ==> Loops(ph, s[t])
    requires j == |s| || !Loops(ph, s[j])
    ensures Stop(ph, s, i) == j
  {
    StopAtLeast(ph, s, i, j);
  }

  /** A phase stops no earlier than the end of a stretch it stays in. */
  lemma StopAtLeast(ph: Phase, s: string, i: nat, j: nat)
    requires i <= j <= |s|
    requires forall t :: i <= t < j ==> Loops(ph, s[t])
    ensures Stop(ph, s, i) >= j
  {
  }

  // ---------------------------------------------------------------------
  // The patterns as sets of strings, and the scanners against them

  datatype CharClass = Spaces | Digits | NumChars   // \s, \d and [\d\.]

  predicate InClass(c: char, k: CharClass) {
    match k
    case Spaces => IsSpace(c)
    case Digits => IsDigit(c)
    case NumChars => NumChar(c)
  }

  /** All of w[lo..hi] lies in the class. */
  predicate AllIn(w: string, lo: int, hi: int, k: CharClass) {
    0 <= lo <= hi <= |w| && forall j :: lo <= j < hi ==> InClass(w[j], k)
  }

  /** w has the form letter \s* comparator \s* [\d\.]+, with the comparator
      at i and the number starting at j. */
  predicate ComparisonShape(p: Pattern, w: string, i: int, j: int) {
    && !p.Percentage?
    && 1 <= i < j < |w|
    && SameLetter(w[0], Letter(p))
    && AllIn(w, 1, i, Spaces)
    && IsOp(p, w[i])
    && AllIn(w, i + 1, j, Spaces)
    && AllIn(w, j, |w|, NumChars)
  }

  /** w has the form \d+ \.? \d* \s* %, with the first digits ending at i,
      the second starting at j and ending at k. */
  predicate PercentShape(w: string, i: int, j: int, k: int) {
    && 1 <= i <= j <= k < |w|
    && AllIn(w, 0, i, Digits)
    && (j == i || (j == i + 1 && w[i] == '.'))
    && AllIn(w, j, k, Digits)
    && AllIn(w, k, |w| - 1, Spaces)
    && w[|w| - 1] == '%'
  }

  /** The positions a comparison scan passes: the comparator and the start
      of the number. */
  lemma ComparisonSteps(p: Pattern, s: string) returns (i: nat, j: nat)
    requires !p.Percentage? && MatchLen(p, s) > 0
    ensures 1 <= i < j < MatchLen(p, s)
    ensures SameLetter(s[0], Letter(p)) && IsOp(p, s[i]) && NumChar(s[j])
    ensures forall t :: 1 <= t < i ==> IsSpace(s[t])
    ensures forall t :: i < t < j ==> IsSpace(s[t])
    ensures forall t :: j <= t < MatchLen(p, s) ==> NumChar(s[t])
    ensures MatchLen(p, s) == |s| || !NumChar(s[MatchLen(p, s)])
  {
    i, j := ComparisonGaps(p, s);
    var m := Stop(Number, s, j + 1);
    assert forall t :: j + 1 <= t < m ==> Loops(Number, s[t]);
  }

  /** The comparison scan up to the number: the letter, the comparator at i
      and the first character of the number at j, with whitespace between. */
  lemma ComparisonGaps(p: Pattern, s: string) returns (i: nat, j: nat)
    requires !p.Percentage? && MatchLen(p, s) > 0
    ensures 1 <= i < j < |s|
    ensures SameLetter(s[0], Letter(p)) && IsOp(p, s[i]) && NumChar(s[j])
    ensures forall t :: 1 <= t < i ==> IsSpace(s[t])
    ensures forall t :: i < t < j ==> IsSpace(s[t])
    ensures MatchLen(p, s) == Stop(Number, s, j + 1)
  {
    LeadStep(p, s);
    i := Stop(Gap1, s, 1);
    SkipAll(p, Gap1, s, 1);
    GapExit(p, Gap1, s, i);
    j := Stop(Gap2, s, i + 1);
    SkipAll(p, Gap2, s, i + 1);
    GapExit(p, Gap2, s, j);
    NumberEnd(p, s, j + 1);
  }

  /** The first character of a match, and the phase the scan goes on in. */
  lemma LeadStep(p: Pattern, s: string)
    requires MatchLen(p, s) > 0
    ensures |s| > 1 && FirstOk(p, s[0])
    ensures MatchLen(p, s) == Scan(p, if p.Percentage? then IntPart else Gap1, s, 1)
  {
    assert |s| > 0;
    var ph := if p.Percentage? then IntPart else Gap1;
    assert Scan(p, ph, s, 1) > 0;
  }

  /** Where a gap of whitespace stops, the comparison goes on only over a
      comparator (after the letter) or a number character (after the
      comparator). */
  lemma GapExit(p: Pattern, ph: Phase, s: string, i: nat)
    requires (ph.Gap1? || ph.Gap2?) && i <= |s| && Scan(p, ph, s, i) > 0
    requires i == |s| || !IsSpace(s[i])
    ensures i < |s|
    ensures ph.Gap1? ==> IsOp(p, s[i]) && Scan(p, ph, s, i) == Scan(p, Gap2, s, i + 1)
    ensures ph.Gap2? ==> NumChar(s[i]) && Scan(p, ph, s, i) == Scan(p, Number, s, i + 1)
  {
  }

  /** The number phase ends the match where its run of [\d\.] stops. */
  lemma NumberEnd(p: Pattern, s: string, i: nat)
    requires i <= |s|
    ensures Scan(p, Number, s, i) == Stop(Number, s, i)
  {
    SkipAll(p, Number, s, i);
  }

  /** What a comparison scanner matches has the pattern's form, and the
      number in it runs as far as it can. */
  lemma ComparisonSound(p: Pattern, s: string) returns (i: nat, j: nat)
    requires !p.Percentage? && MatchLen(p, s) > 0
    ensures ComparisonShape(p, s[..MatchLen(p, s)], i, j)
    ensures MatchLen(p, s) == |s| || !NumChar(s[MatchLen(p, s)])
  {
    var m := MatchLen(p, s);
    i, j := ComparisonSteps(p, s);
    var w := s[..m];
    assert forall t :: 0 <= t < m ==> w[t] == s[t];
  }

  /** A comparison scanner finds a match whenever a prefix of s has the
      pattern's form, at least as long, and exactly that prefix when the
      number in it cannot go on. */
  lemma ComparisonComplete(p: Pattern, s: string, n: nat, i: int, j: int)
    requires n <= |s| && ComparisonShape(p, s[..n], i, j)
    ensures n <= MatchLen(p, s)
    ensures n == |s| || !NumChar(s[n]) ==> MatchLen(p, s) == n
  {
    ComparisonOn(p, s, n, i, j);
    StopIs(Gap1, s, 1, i);
    StopIs(Gap2, s, i + 1, j);
    StopAtLeast(Number, s, j + 1, n);
    if n == |s| || !NumChar(s[n]) {
      StopIs(Number, s, j + 1, n);
    }
    ComparisonScan(p, s, i, j);
  }

  /** The comparison shape of a prefix, read as the phases of the scan. */
  lemma ComparisonOn(p: Pattern, s: string, n: nat, i: int, j: int)
    requires n <= |s| && ComparisonShape(p, s[..n], i, j)
    ensures !p.Percentage? && 0 < i < j < n
    ensures SameLetter(s[0], Letter(p)) && IsOp(p, s[i]) && NumChar(s[j])
    ensures !Loops(Gap1, s[i]) && !Loops(Gap2, s[j])
    ensures forall t :: 1 <= t < i ==> Loops(Gap1, s[t])
    ensures forall t :: i + 1 <= t < j ==> Loops(Gap2, s[t])
    ensures forall t :: j + 1 <= t < n ==> Loops(Number, s[t])
  {
    var w := s[..n];
    assert forall t :: 0 <= t < n ==> w[t] == s[t];
    assert forall t :: 1 <= t < i ==> InClass(w[t], Spaces);
    assert forall t :: i + 1 <= t < j ==> InClass(w[t], Spaces);
    assert forall t :: j <= t < n ==> InClass(w[t], NumChars);
  }

  /** The comparison scan from where its two gaps stop. */
  lemma ComparisonScan(p: Pattern, s: string, i: nat, j: nat)
    requires !p.Percentage? && 0 < i < j < |s|
    requires SameLetter(s[0], Letter(p)) && IsOp(p, s[i]) && NumChar(s[j])
    requires Stop(Gap1, s, 1) == i && Stop(Gap2, s, i + 1) == j
    ensures MatchLen(p, s) == Stop(Number, s, j + 1)
  {
    assert MatchLen(p, s) == Scan(p, Gap1, s, 1);
    SkipAll(p, Gap1, s, 1);
    assert Scan(p, Gap1, s, i) == Scan(p, Gap2, s, i + 1);
    SkipAll(p, Gap2, s, i + 1);
    assert Scan(p, Gap2, s, j) == Scan(p, Number, s, j + 1);
    NumberEnd(p, s, j + 1);
  }

  /** A digit phase that leaves its digits at e goes on as the blank phase
      would from e. */
  lemma ToBlank(p: Pattern, ph: Phase, s: string, e: nat)
    requires (ph.IntPart? || ph.Frac?) && e <= |s|
    requires e == |s| || (!IsDigit(s[e]) && s[e] != '.')
    ensures Scan(p, ph, s, e) == Scan(p, Blank, s, e)
  {
  }

  /** The blank phase ends the match at the first character that is not
      whitespace, if that is '%'. */
  lemma BlankEnd(p: Pattern, s: string, e: nat)
    requires e <= |s|
    ensures var f := Stop(Blank, s, e);
      Scan(p, Blank, s, e) == if f < |s| && s[f] == '%' then f + 1 else 0
  {
    SkipAll(p, Blank, s, e);
  }

  /** The positions a percentage scan passes: the end of the first digits,
      the start and end of the digits after the point, and the '%'. */
  lemma PercentSteps(s: string) returns (i: nat, j: nat, k: nat)
    requires MatchLen(Percentage, s) > 0
    ensures 1 <= i <= j <= k < MatchLen(Percentage, s)
    ensures forall t :: 0 <= t < i ==> IsDigit(s[t])
    ensures j == i || (j == i + 1 && s[i] == '.')
    ensures forall t :: j <= t < k ==> IsDigit(s[t])
    ensures forall t :: k <= t < MatchLen(Percentage, s) - 1 ==> IsSpace(s[t])
    ensures s[MatchLen(Percentage, s) - 1] == '%'
  {
    var p := Percentage;
    i := Stop(IntPart, s, 1);
    SkipAll(p, IntPart, s, 1);
    if i < |s| && s[i] == '.' {
      j := i + 1;
      k := Stop(Frac, s, j);
      SkipAll(p, Frac, s, j);
    } else {
      j, k := i, i;
    }
    ToBlank(p, if j == i then IntPart else Frac, s, k);
    BlankEnd(p, s, k);
  }

  /** A percentage match ends with its '%'. */
  lemma PercentEnds(s: string)
    ensures MatchLen(Percentage, s) > 0 ==> s[MatchLen(Percentage, s) - 1] == '%'
  {
    if MatchLen(Percentage, s) > 0 {
      var i, j, k := PercentSteps(s);
    }
  }

  /** What the percentage scanner matches has the pattern's form. */
  lemma PercentSound(s: string) returns (i: nat, j: nat, k: nat)
    requires MatchLen(Percentage, s) > 0
    ensures PercentShape(s[..MatchLen(Percentage, s)], i, j, k)
  {
    var m := MatchLen(Percentage, s);
    i, j, k := PercentSteps(s);
    var w := s[..m];
    assert forall t :: 0 <= t < m ==> w[t] == s[t];
  }

  /** The percentage scanner finds exactly the prefix of that form: there is
      at most one, since it ends at the first '%'. */
  lemma PercentComplete(s: string, n: nat, i: int, j: int, k: int)
    requires n <= |s| && PercentShape(s[..n], i, j, k)
    ensures MatchLen(Percentage, s) == n
  {
    var w := s[..n];
    assert forall t :: 0 <= t < n ==> w[t] == s[t];
    assert forall t :: 0 <= t < i ==> InClass(w[t], Digits);
    assert forall t :: j <= t < k ==> InClass(w[t], Digits);
    assert forall t :: k <= t < n - 1 ==> InClass(w[t], Spaces);
    assert !IsDigit(s[k]) && s[k] != '.' by {
      if k < n - 1 {
        assert InClass(w[k], Spaces);
      }
    }
    StopIs(Blank, s, k, n - 1);
    if j == i {
      StopIs(IntPart, s, 1, k);
    } else {
      StopIs(IntPart, s, 1, i);
      StopIs(Frac, s, j, k);
    }
    PercentScan(s, i, j, k);
    BlankEnd(Percentage, s, k);
  }

  /** The percentage scan from where its phases stop. */
  lemma PercentScan(s: string, i: nat, j: nat, k: nat)
    requires 1 <= i <= j <= k < |s| && IsDigit(s[0])
    requires j == i || (j == i + 1 && s[i] == '.')
    requires !IsDigit(s[k]) && s[k] != '.'
    requires j == i ==> Stop(IntPart, s, 1) == k
    requires j == i + 1 ==> Stop(IntPart, s, 1) == i && Stop(Frac, s, j) == k
    ensures MatchLen(Percentage, s) == Scan(Percentage, Blank, s, k)
  {
    var p := Percentage;
    SkipAll(p, IntPart, s, 1);
    if j == i + 1 {
      SkipAll(p, Frac, s, j);
      ToBlank(p, Frac, s, k);
    } else {
      ToBlank(p, IntPart, s, k);
    }
  }

  // ---------------------------------------------------------------------
  // What a match is made of

  /** The characters a match of the pattern can contain. */
  predicate BodyChar(p: Pattern, c: char) {
    if p.Percentage? then IsDigit(c) || c == '.' || IsSpace(c) || c == '%'
    else SameLetter(c, Letter(p)) || IsSpace(c) || IsOp(p, c) || NumChar(c)
  }

  /** A text that can be the whole of a match. */
  predicate BodyOk(p: Pattern, body: string) {
    |body| > 0 && forall k :: 0 <= k < |body| ==> BodyChar(p, body[k])
  }

  lemma MatchChars(p: Pattern, s: string)
    requires MatchLen(p, s) > 0
    ensures BodyOk(p, s[..MatchLen(p, s)])
  {
    var m := MatchLen(p, s);
    var w := s[..m];
    assert forall t :: 0 <= t < m ==> w[t] == s[t];
    if p.Percentage? {
      var i, j, k := PercentSteps(s);
      assert forall t :: 0 <= t < m ==> BodyChar(p, s[t]);
    } else {
      var i, j := ComparisonSteps(p, s);
      assert forall t :: 0 <= t < m ==> BodyChar(p, s[t]);
    }
  }

  /** No pattern reaches past a '[': what follows it does not change the
      match. */
  lemma MatchLocal(p: Pattern, s: string, t: string)
    requires t == [] || t[0] == '['
    ensures MatchLen(p, s + t) == MatchLen(p, s)
  {
    ScanLocal(p, Lead, s, t, 0);
  }

  lemma {:induction false} ScanLocal(p: Pattern, ph: Phase, s: string, t: string, i: nat)
    requires t == [] || t[0] == '['
    requires i <= |s|
    ensures Scan(p, ph, s + t, i) == Scan(p, ph, s, i)
    decreases |s| - i
  {
    if i < |s| {
      var u, j := s + t, i + 1;
      forall q: Phase
        ensures Scan(p, q, u, j) == Scan(p, q, s, j)
      {
        ScanLocal(p, q, s, t, j);
      }
      ScanStepLocal(p, ph, s, u, i, j);
    } else if t == [] {
      assert s + t == s;
    } else {
      assert (s + t)[i] == '[';
    }
  }

  /** One step of the scan reads one character, so two texts that agree on
      it and on every scan after it agree on the scan from it. */
  lemma ScanStepLocal(p: Pattern, ph: Phase, s: string, u: string, i: nat, j: nat)
    requires i < |s| <= |u| && u[i] == s[i] && j == i + 1
    requires forall q: Phase :: Scan(p, q, u, j) == Scan(p, q, s, j)
    ensures Scan(p, ph, u, i) == Scan(p, ph, s, i)
  {
  }

  // ---------------------------------------------------------------------
  // re.sub and annotate_numerics

  const Close := "[/STAT]"

  function Open(p: Pattern): string {
    "[STAT:" + LabelOf(p) + "]"
  }

  /** The replacement f'[STAT:{stat_type.upper()}]\g<0>[/STAT]'. */
  function Tag(p: Pattern, body: string): string {
    Open(p) + body + Close
  }

  /** A matcher gives, for a text, the length of the match at its start. */
  ghost predicate Fits(f: string -> nat) {
    forall t :: f(t) <= |t|
  }

  function Matcher(p: Pattern): (f: string -> nat)
    ensures Fits(f)
    ensures forall t :: f(t) == MatchLen(p, t)
  {
    t => MatchLen(p, t)
  }

  /** The replacement for p, as a function of the matched text. */
  function Wrapper(p: Pattern): (g: string -> string)
    ensures forall body :: g(body) == Tag(p, body)
  {
    body => Tag(p, body)
  }

  /** How far one step of the scan advances. */
  function StepOf(f: string -> nat, s: string): (n: nat)
    requires Fits(f) && |s| > 0
    ensures 1 <= n <= |s|
  {
    if f(s) > 0 then f(s) else 1
  }

  /** What one step of the scan writes: the replacement for a match, or the
      character where none starts. */
  function HeadOf(f: string -> nat, g: string -> string, s: string): string
    requires Fits(f) && |s| > 0
  {
    if f(s) > 0 then g(s[..f(s)]) else [s[0]]
  }

  /** re.sub with the matcher f and the replacement g: scan from the left,
      replace each match and go on after it; where nothing matches, keep the
      character and try the next position. */
  function SubWith(f: string -> nat, g: string -> string, s: string): string
    requires Fits(f)
    decreases |s|
  {
    if |s| == 0 then "" else HeadOf(f, g, s) + SubWith(f, g, s[StepOf(f, s)..])
  }

  /** The pattern matches nowhere in s. */
  predicate NoMatch(p: Pattern, s: string) {
    forall i :: 0 <= i < |s| ==> MatchLen(p, s[i..]) == 0
  }

  /** None of the three patterns matches anywhere in s. */
  predicate NoStatistic(s: string) {
    NoMatch(PValue, s) && NoMatch(Percentage, s) && NoMatch(Correlation, s)
  }

  /** re.sub(pattern, replacement, text, flags=re.IGNORECASE) for one of the
      three patterns. */
  function Sub(p: Pattern, s: string): (r: string)
    ensures NoMatch(p, s) ==> r == s
  {
    var r := SubWith(Matcher(p), Wrapper(p), s);
    if NoMatch(p, s) then
      SubFrom(Matcher(p), Wrapper(p), s, |s|);
      assert s[..|s|] == s;
      r
    else r
  }

  /** What annotate_numerics returns: the text after the p value, the
      percentage and the correlation substitutions, in that order. */
  function Annotate(text: string): (r: string)
    ensures NoStatistic(text) ==> r == text
  {
    Sub(Correlation, Sub(Percentage, Sub(PValue, text)))
  }

  /** The text after the first k passes of the loop. */
  function PassesDone(k: nat, text: string): string
    requires k <= |Passes|
  {
    if k == 0 then text else Sub(Passes[k - 1], PassesDone(k - 1, text))
  }

  /** annotate_numerics: one re.sub per entry of NUMERICAL_PATTERNS, each on
      the result of the one before. */
  method AnnotateNumerics(text: string) returns (r: string)
    ensures r == Annotate(text)
  {
    r := text;
    var i := 0;
    while i < |Passes|
      invariant i <= |Passes| && r == PassesDone(i, text)
    {
      var f, g := Matcher(Passes[i]), Wrapper(Passes[i]);
      PassesStep(i, text, f, g);
      r := ReSub(f, g, r);
      i := i + 1;
    }
    PassesAll(text);
  }

  /** One call of re.sub with the matcher f and the replacement g: scan s
      from the left; at a match, write its replacement and resume after it;
      elsewhere copy the character and move on. */
  method ReSub(f: string -> nat, g: string -> string, s: string) returns (r: string)
    requires Fits(f)
    ensures r == SubWith(f, g, s)
  {
    r := "";
    var i := 0;
    while i < |s|
      invariant i <= |s| && r + SubWith(f, g, s[i..]) == SubWith(f, g, s)
    {
      var m := f(s[i..]);
      SubStep(f, g, s, i);
      var head := if m > 0 then g(s[i..i + m]) else [s[i]];
      var next := if m > 0 then i + m else i + 1;
      Assoc(r, head, SubWith(f, g, s[next..]));
      r := r + head;
      i := next;
    }
    assert s[i..] == [];
  }

  lemma Assoc(a: string, b: string, c: string)
    ensures a + (b + c) == (a + b) + c
  {
  }

  /** One step of the scan at position i. */
  lemma SubStep(f: string -> nat, g: string -> string, s: string, i: nat)
    requires Fits(f) && i < |s|
    ensures var m := f(s[i..]);
      i + m <= |s|
      && SubWith(f, g, s[i..]) == if m > 0 then g(s[i..i + m]) + SubWith(f, g, s[i + m..])
                                  else [s[i]] + SubWith(f, g, s[i + 1..])
  {
    var t := s[i..];
    var m := f(t);
    SubUnfold(f, g, t);
    if m > 0 {
      assert t[..m] == s[i..i + m] && t[m..] == s[i + m..];
    } else {
      assert t[1..] == s[i + 1..];
    }
  }

  lemma PassesStep(i: nat, text: string, f: string -> nat, g: string -> string)
    requires i < |Passes| && f == Matcher(Passes[i]) && g == Wrapper(Passes[i])
    ensures Fits(f) && PassesDone(i + 1, text) == SubWith(f, g, PassesDone(i, text))
  {
  }

  lemma PassesAll(text: string)
    ensures PassesDone(|Passes|, text) == Annotate(text)
  {
    assert PassesDone(1, text) == Sub(PValue, text);
    assert PassesDone(2, text) == Sub(Percentage, Sub(PValue, text));
  }

  // ---------------------------------------------------------------------
  // How substitution meets text it cannot match

  /** The substitution keeps the first n characters when no match starts
      among them. */
  lemma {:induction false} SubFrom(f: string -> nat, g: string -> string, x: string, n: nat)
    requires Fits(f) && n <= |x|
    requires forall j :: 0 <= j < n ==> f(x[j..]) == 0
    ensures SubWith(f, g, x) == x[..n] + SubWith(f, g, x[n..])
  {
    if n == 0 {
      assert x[n..] == x;
    } else {
      assert f(x) == 0 by {
        assert x[0..] == x;
      }
      forall j | 0 <= j < n - 1 ensures f(x[1..][j..]) == 0 {
        assert x[1..][j..] == x[j + 1..];
      }
      SubFrom(f, g, x[1..], n - 1);
      assert x[1..][n - 1..] == x[n..];
      SubUnfold(f, g, x);
      PrefixSplit(x, n);
      Regroup([x[0]], x[1..][..n - 1], SubWith(f, g, x[n..]), SubWith(f, g, x), x[..n]);
    }
  }

  lemma PrefixSplit(x: string, n: nat)
    requires 0 < n <= |x|
    ensures x[..n] == [x[0]] + x[1..][..n - 1]
  {
  }

  /** The substitution leaves alone a stretch where nothing can start. */
  lemma SubSkip(f: string -> nat, g: string -> string, w: string, rest: string)
    requires Fits(f)
    requires forall j :: 0 <= j < |w| ==> f(w[j..] + rest) == 0
    ensures SubWith(f, g, w + rest) == w + SubWith(f, g, rest)
  {
    var x := w + rest;
    forall j | 0 <= j < |w| ensures f(x[j..]) == 0 {
      assert x[j..] == w[j..] + rest;
    }
    SubFrom(f, g, x, |w|);
    assert x[..|w|] == w && x[|w|..] == rest;
  }

  /** When no match reaches into y, the substitution works on x and on y
      separately. */
  lemma {:induction false} SubConcat(f: string -> nat, g: string -> string, x: string, y: string)
    requires Fits(f)
    requires forall j :: 0 <= j <= |x| ==> f(x[j..] + y) == f(x[j..])
    ensures SubWith(f, g, x + y) == SubWith(f, g, x) + SubWith(f, g, y)
    decreases |x|
  {
    if |x| == 0 {
      assert x + y == y;
    } else {
      assert f(x + y) == f(x) by {
        assert x[0..] == x;
      }
      var m := StepOf(f, x);
      LocalAfterStep(f, x, y, m);
      SubConcat(f, g, x[m..], y);
      SubConcatStep(f, g, x, y);
    }
  }

  lemma SubUnfold(f: string -> nat, g: string -> string, s: string)
    requires Fits(f) && |s| > 0
    ensures SubWith(f, g, s) == HeadOf(f, g, s) + SubWith(f, g, s[StepOf(f, s)..])
  {
  }

  /** A match of f at the start of x that does not reach into y is a match
      at the start of x + y too. */
  lemma StepShared(f: string -> nat, g: string -> string, x: string, y: string)
    requires Fits(f) && |x| > 0 && f(x + y) == f(x)
    ensures StepOf(f, x + y) == StepOf(f, x)
    ensures HeadOf(f, g, x + y) == HeadOf(f, g, x)
    ensures (x + y)[StepOf(f, x)..] == x[StepOf(f, x)..] + y
  {
    var m := StepOf(f, x);
    assert (x + y)[..m] == x[..m];
  }

  /** One step of SubConcat: the first step on x + y is the first step on
      x, and the rest follows from the claim for what comes after it. */
  lemma SubConcatStep(f: string -> nat, g: string -> string, x: string, y: string)
    requires Fits(f) && |x| > 0 && f(x + y) == f(x)
    requires SubWith(f, g, x[StepOf(f, x)..] + y) == SubWith(f, g, x[StepOf(f, x)..]) + SubWith(f, g, y)
    ensures SubWith(f, g, x + y) == SubWith(f, g, x) + SubWith(f, g, y)
  {
    var m := StepOf(f, x);
    var h := HeadOf(f, g, x);
    StepShared(f, g, x, y);
    SubUnfold(f, g, x + y);
    SubUnfold(f, g, x);
    Regroup(h, SubWith(f, g, x[m..]), SubWith(f, g, y), SubWith(f, g, x + y), SubWith(f, g, x));
  }

  lemma Regroup(h: string, b: string, c: string, u: string, v: string)
    requires u == h + (b + c) && v == h + b
    ensures u == v + c
  {
  }

  lemma LocalAfterStep(f: string -> nat, x: string, y: string, m: nat)
    requires m <= |x|
    requires forall j :: 0 <= j <= |x| ==> f(x[j..] + y) == f(x[j..])
    ensures forall j :: 0 <= j <= |x| - m ==> f(x[m..][j..] + y) == f(x[m..][j..])
  {
    forall j | 0 <= j <= |x| - m ensures f(x[m..][j..] + y) == f(x[m..][j..]) {
      assert x[m..][j..] == x[m + j..];
    }
  }

  /** Sub works separately on the two sides of a '['. */
  lemma SubAtBracket(q: Pattern, x: string, y: string)
    requires y == [] || y[0] == '['
    ensures Sub(q, x + y) == Sub(q, x) + Sub(q, y)
  {
    forall j | 0 <= j <= |x| ensures Matcher(q)(x[j..] + y) == Matcher(q)(x[j..]) {
      MatchLocal(q, x[j..], y);
    }
    SubConcat(Matcher(q), Wrapper(q), x, y);
  }

  /** A text where the pattern matches nowhere comes back unchanged. */
  // ---------------------------------------------------------------------
  // Where a match can start

  /** The character a match starts with. */
  predicate FirstOk(q: Pattern, a: char) {
    if q.Percentage? then IsDigit(a) else SameLetter(a, Letter(q))
  }

  /** The first two characters of a match. */
  predicate Starts(q: Pattern, a: char, b: char) {
    FirstOk(q, a) && (q.Percentage? || IsSpace(b) || IsOp(q, b))
  }

  lemma MatchStart(q: Pattern, x: string)
    ensures MatchLen(q, x) > 0 ==> |x| >= 2 && Starts(q, x[0], x[1])
  {
    if MatchLen(q, x) > 0 {
      LeadStep(q, x);
    }
  }

  /** No match of q can start anywhere in w, whatever follows it. */
  predicate Quiet(q: Pattern, w: string) {
    && |w| > 0
    && !FirstOk(q, w[|w| - 1])
    && forall j :: 0 <= j < |w| - 1 ==> !Starts(q, w[j], w[j + 1])
  }

  lemma QuietSkip(q: Pattern, w: string, rest: string)
    requires Quiet(q, w)
    ensures forall j :: 0 <= j < |w| ==> Matcher(q)(w[j..] + rest) == 0
  {
    forall j | 0 <= j < |w| ensures MatchLen(q, w[j..] + rest) == 0 {
      var x := w[j..] + rest;
      MatchStart(q, x);
      assert x[0] == w[j];
      if j < |w| - 1 {
        assert x[1] == w[j + 1];
      }
    }
  }

  /** The tags of an earlier pass hold no match of a later one: the only
      letter R in them, in PERCENTAGE, is followed by C. */
  lemma TagsQuiet(p: Pattern, q: Pattern)
    requires Rank(p) < Rank(q)
    ensures Quiet(q, Open(p)) && Quiet(q, Close)
  {
    CloseQuiet(q);
    if p.PValue? {
      OpenQuiet(PValue, q);
    } else {
      OpenQuiet(Percentage, Correlation);
    }
  }

  lemma CloseQuiet(q: Pattern)
    ensures Quiet(q, Close)
  {
  }

  lemma OpenQuiet(p: Pattern, q: Pattern)
    requires Rank(p) < Rank(q)
    ensures Quiet(q, Open(p))
  {
  }

  /** A match body of an earlier pass holds no match of a later one: a p
      value has no '%', and neither a p value nor a percentage has an r. */
  lemma BodyQuiet(p: Pattern, q: Pattern, body: string, rest: string)
    requires Rank(p) < Rank(q) && BodyOk(p, body)
    ensures forall j :: 0 <= j < |body| ==> Matcher(q)(body[j..] + (Close + rest)) == 0
  {
    forall j | 0 <= j < |body| ensures MatchLen(q, body[j..] + (Close + rest)) == 0 {
      BodyQuietAt(p, q, body[j..], Close + rest);
    }
  }

  lemma BodyQuietAt(p: Pattern, q: Pattern, x: string, t: string)
    requires Rank(p) < Rank(q) && BodyOk(p, x) && |t| > 0 && t[0] == '['
    ensures MatchLen(q, x + t) == 0
  {
    MatchLocal(q, x, t);
    BodyNoMatch(p, q, x);
  }

  /** No match of q starts a match body of p. */
  lemma BodyNoMatch(p: Pattern, q: Pattern, x: string)
    requires Rank(p) < Rank(q) && BodyOk(p, x)
    ensures MatchLen(q, x) == 0
  {
    if q.Percentage? {
      PercentEnds(x);
      assert forall k :: 0 <= k < |x| ==> x[k] != '%' by {
        assert forall k :: 0 <= k < |x| ==> BodyChar(p, x[k]);
      }
    } else {
      assert BodyChar(p, x[0]);
    }
  }

  /** A text made of three stretches where no match can start, each
      whatever follows it, passes through the substitution unchanged. */
  lemma SkipThree(f: string -> nat, g: string -> string, u: string, v: string, w: string, rest: string)
    requires Fits(f)
    requires forall j :: 0 <= j < |w| ==> f(w[j..] + rest) == 0
    requires forall j :: 0 <= j < |v| ==> f(v[j..] + (w + rest)) == 0
    requires forall j :: 0 <= j < |u| ==> f(u[j..] + (v + (w + rest))) == 0
    ensures SubWith(f, g, u + v + w + rest) == u + v + w + SubWith(f, g, rest)
  {
    SubSkip(f, g, w, rest);
    SubSkip(f, g, v, w + rest);
    SubSkip(f, g, u, v + (w + rest));
    Assoc4(u, v, w, rest);
    Assoc4(u, v, w, SubWith(f, g, rest));
  }

  lemma Assoc4(u: string, v: string, w: string, r: string)
    ensures u + v + w + r == u + (v + (w + r))
  {
  }

  /** A tag written by an earlier pass goes through a later pass unchanged. */
  lemma TagSkip(p: Pattern, q: Pattern, body: string, rest: string)
    requires Rank(p) < Rank(q) && BodyOk(p, body)
    ensures Sub(q, Tag(p, body) + rest) == Tag(p, body) + Sub(q, rest)
  {
    TagsQuiet(p, q);
    QuietSkip(q, Close, rest);
    BodyQuiet(p, q, body, rest);
    QuietSkip(q, Open(p), body + (Close + rest));
    SkipThree(Matcher(q), Wrapper(q), Open(p), body, Close, rest);
  }

  // ---------------------------------------------------------------------
  // The annotated text as pieces

  /** A match taken whole: the pattern matches all of it from its start. */
  predicate Whole(p: Pattern, body: string) {
    |body| > 0 && MatchLen(p, body) == |body|
  }

  /** What the scanner matches at the start of s, taken alone, is matched
      whole again. */
  lemma MatchWhole(p: Pattern, s: string)
    requires MatchLen(p, s) > 0
    ensures Whole(p, s[..MatchLen(p, s)])
  {
    var m := MatchLen(p, s);
    var w := s[..m];
    assert w[..m] == w;
    if p.Percentage? {
      var i, j, k := PercentSound(s);
      PercentComplete(w, m, i, j, k);
    } else {
      var i, j := ComparisonSound(p, s);
      ComparisonComplete(p, w, m, i, j);
    }
  }

  /** A character of the text left as it was, or a match in its tag. */
  datatype Piece = Plain(c: char) | Stat(pattern: Pattern, body: string)

  /** How a piece is written in the annotated text. */
  function Shown(x: Piece): string {
    match x
    case Plain(c) => [c]
    case Stat(p, body) => Tag(p, body)
  }

  /** What a piece was in the text before annotation. */
  function Kept(x: Piece): string {
    match x
    case Plain(c) => [c]
    case Stat(_, body) => body
  }

  function Flatten(f: Piece -> string, ps: seq<Piece>): string
    decreases |ps|
  {
    if |ps| == 0 then "" else f(ps[0]) + Flatten(f, ps[1..])
  }

  /** The annotated text the pieces make. */
  function Render(ps: seq<Piece>): string {
    Flatten(Shown, ps)
  }

  /** The text the pieces were made from. */
  function Content(ps: seq<Piece>): string {
    Flatten(Kept, ps)
  }

  lemma {:induction false} FlattenAppend(f: Piece -> string, a: seq<Piece>, b: seq<Piece>)
    ensures Flatten(f, a + b) == Flatten(f, a) + Flatten(f, b)
    decreases |a|
  {
    if |a| == 0 {
      assert a + b == b;
    } else {
      assert (a + b)[1..] == a[1..] + b;
      FlattenAppend(f, a[1..], b);
    }
  }

  /** The pieces one substitution makes of s: where f matches, the match for
      the pattern p; elsewhere the character. */
  function PiecesWith(f: string -> nat, p: Pattern, s: string): seq<Piece>
    requires Fits(f)
    decreases |s|
  {
    if |s| == 0 then []
    else [PieceOf(f, p, s)] + PiecesWith(f, p, s[StepOf(f, s)..])
  }

  function PieceOf(f: string -> nat, p: Pattern, s: string): Piece
    requires Fits(f) && |s| > 0
  {
    if f(s) > 0 then Stat(p, s[..f(s)]) else Plain(s[0])
  }

  function SubPieces(p: Pattern, s: string): seq<Piece> {
    PiecesWith(Matcher(p), p, s)
  }

  /** The substitution writes what its pieces render. */
  lemma {:induction false} PiecesRender(f: string -> nat, g: string -> string, p: Pattern, s: string)
    requires Fits(f) && forall body :: g(body) == Tag(p, body)
    ensures SubWith(f, g, s) == Render(PiecesWith(f, p, s))
    decreases |s|
  {
    if |s| > 0 {
      PiecesRender(f, g, p, s[StepOf(f, s)..]);
      SubUnfold(f, g, s);
      FlattenAppend(Shown, [PieceOf(f, p, s)], PiecesWith(f, p, s[StepOf(f, s)..]));
    }
  }

  /** Taking the tags away from the pieces gives the text back. */
  lemma {:induction false} PiecesContent(f: string -> nat, p: Pattern, s: string)
    requires Fits(f)
    ensures Content(PiecesWith(f, p, s)) == s
    decreases |s|
  {
    if |s| > 0 {
      var n := StepOf(f, s);
      PiecesContent(f, p, s[n..]);
      FlattenAppend(Kept, [PieceOf(f, p, s)], PiecesWith(f, p, s[n..]));
      assert Kept(PieceOf(f, p, s)) == s[..n];
      assert s[..n] + s[n..] == s;
    }
  }

  /** Every tag in the pieces is of a pattern ranked below k and holds a
      whole match of it. */
  predicate Sound(ps: seq<Piece>, k: nat) {
    forall i :: 0 <= i < |ps| && ps[i].Stat? ==>
      Rank(ps[i].pattern) < k && Whole(ps[i].pattern, ps[i].body)
  }

  /** Every tag in the pieces is of the pattern p and holds a whole match
      of it. */
  predicate TagsOf(ps: seq<Piece>, p: Pattern) {
    forall i :: 0 <= i < |ps| && ps[i].Stat? ==> ps[i].pattern == p && Whole(p, ps[i].body)
  }

  /** The pieces of one substitution tag only whole matches of its own
      pattern. */
  lemma {:induction false} SubPiecesSound(p: Pattern, s: string)
    ensures TagsOf(SubPieces(p, s), p)
    decreases |s|
  {
    if |s| > 0 {
      var f := Matcher(p);
      var n := StepOf(f, s);
      var x := PieceOf(f, p, s);
      SubPiecesSound(p, s[n..]);
      if f(s) > 0 {
        MatchWhole(p, s);
      }
      assert SubPieces(p, s) == [x] + SubPieces(p, s[n..]);
    }
  }

  /** The number of Plain pieces before the first tag. */
  function PlainRun(ps: seq<Piece>): (n: nat)
    ensures n <= |ps|
    ensures forall i :: 0 <= i < n ==> ps[i].Plain?
    ensures n == |ps| || ps[n].Stat?
    decreases |ps|
  {
    if |ps| == 0 || ps[0].Stat? then 0 else 1 + PlainRun(ps[1..])
  }

  /** One pass of annotate_numerics on the pieces: each stretch of Plain
      pieces between two tags is substituted on its own, and the tags are
      kept. */
  function PassPieces(q: Pattern, ps: seq<Piece>): seq<Piece>
    decreases |ps|
  {
    if |ps| == 0 then []
    else if ps[0].Stat? then [ps[0]] + PassPieces(q, ps[1..])
    else
      var n := PlainRun(ps);
      SubPieces(q, Render(ps[..n])) + PassPieces(q, ps[n..])
  }

  /** The pieces of annotate_numerics(text). */
  function AnnotatePieces(text: string): seq<Piece> {
    PassPieces(Correlation, PassPieces(Percentage, SubPieces(PValue, text)))
  }

  /** Pieces after a tag render to text starting with '['. */
  lemma RenderAtTag(ps: seq<Piece>)
    requires |ps| > 0 && ps[0].Stat?
    ensures Render(ps)[0] == '['
  {
    assert Render(ps) == Tag(ps[0].pattern, ps[0].body) + Render(ps[1..]);
  }

  lemma SoundTail(ps: seq<Piece>, k: nat, n: nat)
    requires Sound(ps, k) && n <= |ps|
    ensures Sound(ps[n..], k)
  {
    assert forall i :: 0 <= i < |ps| - n ==> ps[n..][i] == ps[n + i];
  }

  /** A pass of q over pieces whose tags all come from earlier passes writes
      what re.sub writes on their text. */
  lemma {:induction false} PassRender(q: Pattern, ps: seq<Piece>)
    requires Sound(ps, Rank(q))
    ensures Sub(q, Render(ps)) == Render(PassPieces(q, ps))
    decreases |ps|
  {
    if |ps| == 0 {
    } else if ps[0].Stat? {
      SoundTail(ps, Rank(q), 1);
      PassRender(q, ps[1..]);
      TagStep(q, ps);
    } else {
      var n := PlainRun(ps);
      SoundTail(ps, Rank(q), n);
      PassRender(q, ps[n..]);
      RunStep(q, ps);
    }
  }

  /** A tag of an earlier pass is kept, and the pass goes on after it. */
  lemma TagStep(q: Pattern, ps: seq<Piece>)
    requires |ps| > 0 && ps[0].Stat? && Sound(ps, Rank(q))
    requires Sub(q, Render(ps[1..])) == Render(PassPieces(q, ps[1..]))
    ensures Sub(q, Render(ps)) == Render(PassPieces(q, ps))
  {
    var p, body := ps[0].pattern, ps[0].body;
    MatchChars(p, body);
    assert body[..MatchLen(p, body)] == body;
    TagSkip(p, q, body, Render(ps[1..]));
    FlattenAppend(Shown, [ps[0]], PassPieces(q, ps[1..]));
  }

  /** A stretch of Plain pieces is substituted on its own, since the tag
      after it starts with '['. */
  lemma RunStep(q: Pattern, ps: seq<Piece>)
    requires |ps| > 0 && ps[0].Plain?
    requires Sub(q, Render(ps[PlainRun(ps)..])) == Render(PassPieces(q, ps[PlainRun(ps)..]))
    ensures Sub(q, Render(ps)) == Render(PassPieces(q, ps))
  {
    var n := PlainRun(ps);
    var x, y := Render(ps[..n]), Render(ps[n..]);
    RunSplit(ps);
    PassRun(q, ps);
    if n < |ps| {
      RenderAtTag(ps[n..]);
    }
    SubAtBracket(q, x, y);
    PiecesRender(Matcher(q), Wrapper(q), q, x);
    FlattenAppend(Shown, SubPieces(q, x), PassPieces(q, ps[n..]));
  }

  /** Plain pieces read the same before and after annotation. */
  lemma {:induction false} PlainSame(ps: seq<Piece>)
    requires forall i :: 0 <= i < |ps| ==> ps[i].Plain?
    ensures Render(ps) == Content(ps)
    decreases |ps|
  {
    if |ps| > 0 {
      PlainSame(ps[1..]);
    }
  }

  /** A pass over the pieces keeps the text they were made from. */
  lemma {:induction false} PassContent(q: Pattern, ps: seq<Piece>)
    ensures Content(PassPieces(q, ps)) == Content(ps)
    decreases |ps|
  {
    if |ps| == 0 {
    } else if ps[0].Stat? {
      PassContent(q, ps[1..]);
      FlattenAppend(Kept, [ps[0]], PassPieces(q, ps[1..]));
    } else {
      var n := PlainRun(ps);
      PassContent(q, ps[n..]);
      RunContent(q, ps);
    }
  }

  lemma RunContent(q: Pattern, ps: seq<Piece>)
    requires |ps| > 0 && ps[0].Plain?
    requires Content(PassPieces(q, ps[PlainRun(ps)..])) == Content(ps[PlainRun(ps)..])
    ensures Content(PassPieces(q, ps)) == Content(ps)
  {
    var n := PlainRun(ps);
    var x := Render(ps[..n]);
    PassRun(q, ps);
    RunSplit(ps);
    PiecesContent(Matcher(q), q, x);
    FlattenAppend(Kept, SubPieces(q, x), PassPieces(q, ps[n..]));
  }

  /** A pass starting on Plain pieces substitutes their run first. */
  lemma PassRun(q: Pattern, ps: seq<Piece>)
    requires |ps| > 0 && ps[0].Plain?
    ensures PassPieces(q, ps) ==
      SubPieces(q, Render(ps[..PlainRun(ps)])) + PassPieces(q, ps[PlainRun(ps)..])
  {
  }

  /** The text of pieces is the text of their leading run of Plain pieces,
      then the text of the rest. */
  lemma RunSplit(ps: seq<Piece>)
    ensures Render(ps) == Render(ps[..PlainRun(ps)]) + Render(ps[PlainRun(ps)..])
    ensures Content(ps) == Render(ps[..PlainRun(ps)]) + Content(ps[PlainRun(ps)..])
  {
    var n := PlainRun(ps);
    assert ps[..n] + ps[n..] == ps;
    FlattenAppend(Shown, ps[..n], ps[n..]);
    FlattenAppend(Kept, ps[..n], ps[n..]);
    PlainSame(ps[..n]);
  }

  lemma SoundAppend(a: seq<Piece>, b: seq<Piece>, k: nat)
    requires Sound(a, k) && Sound(b, k)
    ensures Sound(a + b, k)
  {
    assert forall i :: |a| <= i < |a| + |b| ==> (a + b)[i] == b[i - |a|];
  }

  /** After the pass of q, every tag is of q or of a pattern before it. */
  lemma {:induction false} PassSound(q: Pattern, ps: seq<Piece>)
    requires Sound(ps, Rank(q))
    ensures Sound(PassPieces(q, ps), Rank(q) + 1)
    decreases |ps|
  {
    if |ps| == 0 {
    } else if ps[0].Stat? {
      SoundTail(ps, Rank(q), 1);
      PassSound(q, ps[1..]);
      SoundAppend([ps[0]], PassPieces(q, ps[1..]), Rank(q) + 1);
    } else {
      var n := PlainRun(ps);
      SoundTail(ps, Rank(q), n);
      PassSound(q, ps[n..]);
      SubPiecesSound(q, Render(ps[..n]));
      SoundAppend(SubPieces(q, Render(ps[..n])), PassPieces(q, ps[n..]), Rank(q) + 1);
    }
  }

  /** Every tag in the pieces of annotate_numerics wraps a whole match of its
      pattern. */
  lemma AnnotateSound(text: string)
    ensures Sound(SubPieces(PValue, text), Rank(Percentage))
    ensures Sound(PassPieces(Percentage, SubPieces(PValue, text)), Rank(Correlation))
    ensures Sound(AnnotatePieces(text), |Passes|)
  {
    var ps1 := SubPieces(PValue, text);
    SubPiecesSound(PValue, text);
    PassSound(Percentage, ps1);
    PassSound(Correlation, PassPieces(Percentage, ps1));
  }

  /** annotate_numerics writes the rendering of its pieces. */
  lemma AnnotateRender(text: string)
    ensures Annotate(text) == Render(AnnotatePieces(text))
  {
    var ps1 := SubPieces(PValue, text);
    var ps2 := PassPieces(Percentage, ps1);
    AnnotateSound(text);
    PiecesRender(Matcher(PValue), Wrapper(PValue), PValue, text);
    PassRender(Percentage, ps1);
    PassRender(Correlation, ps2);
  }

  /** The pieces of annotate_numerics are made from its input. */
  lemma AnnotateContent(text: string)
    ensures Content(AnnotatePieces(text)) == text
  {
    var ps1 := SubPieces(PValue, text);
    PiecesContent(Matcher(PValue), PValue, text);
    PassContent(Percentage, ps1);
    PassContent(Correlation, PassPieces(Percentage, ps1));
  }

  // ---------------------------------------------------------------------
  // Taking the tags out again

  /** The length of the tag t starts with, 0 when it starts with none. */
  function TagLen(t: string): (n: nat)
    ensures n <= |t|
    ensures n > 0 ==> t[0] == '['
  {
    if Close <= t then |Close|
    else if Open(PValue) <= t then |Open(PValue)|
    else if Open(Percentage) <= t then |Open(Percentage)|
    else if Open(Correlation) <= t then |Open(Correlation)|
    else 0
  }

  /** The text with every tag annotate_numerics writes taken out. */
  function Erase(t: string): string
    decreases |t|
  {
    if |t| == 0 then ""
    else if TagLen(t) > 0 then Erase(t[TagLen(t)..])
    else [t[0]] + Erase(t[1..])
  }

  /** Text without '[' holds no tag, so Erase keeps it. */
  lemma {:induction false} EraseKeep(b: string, t: string)
    requires '[' !in b
    ensures Erase(b + t) == b + Erase(t)
    decreases |b|
  {
    if |b| == 0 {
      assert b + t == t;
    } else {
      assert (b + t)[0] == b[0];
      assert (b + t)[1..] == b[1..] + t;
      EraseKeep(b[1..], t);
    }
  }

  /** Each tag is found as itself: no opening tag starts another. */
  lemma OpenLen(p: Pattern, t: string)
    requires Open(p) <= t
    ensures TagLen(t) == |Open(p)|
  {
    assert t[1] == 'S' && t[6] == Open(p)[6] && t[7] == Open(p)[7];
  }

  lemma CloseLen(t: string)
    requires Close <= t
    ensures TagLen(t) == |Close|
  {
  }

  /** Erase takes a tag out and keeps its body. */
  lemma EraseTag(p: Pattern, body: string, t: string)
    requires '[' !in body
    ensures Erase(Tag(p, body) + t) == body + Erase(t)
  {
    var u := Close + t;
    var v := body + u;
    assert Tag(p, body) + t == Open(p) + v;
    OpenLen(p, Open(p) + v);
    assert (Open(p) + v)[|Open(p)|..] == v;
    EraseKeep(body, u);
    CloseLen(u);
    assert u[|Close|..] == t;
  }

  /** Taking the tags out of the rendered pieces gives the text they were
      made from, when that text has no '['. */
  lemma {:induction false} EraseRender(ps: seq<Piece>)
    requires '[' !in Content(ps)
    ensures Erase(Render(ps)) == Content(ps)
    decreases |ps|
  {
    if |ps| > 0 {
      var k := Kept(ps[0]);
      assert Content(ps) == k + Content(ps[1..]);
      assert '[' !in k && '[' !in Content(ps[1..]) by {
        assert forall c :: c in k ==> c in Content(ps);
        assert forall c :: c in Content(ps[1..]) ==> c in Content(ps);
      }
      EraseRender(ps[1..]);
      match ps[0]
      case Plain(c) =>
        EraseKeep([c], Render(ps[1..]));
      case Stat(p, body) =>
        EraseTag(p, body, Render(ps[1..]));
    }
  }

  /** Taking the tags out of annotate_numerics(text) gives the text back,
      when the text has no '[' of its own. */
  lemma EraseAnnotate(text: string)
    requires '[' !in text
    ensures Erase(Annotate(text)) == text
  {
    AnnotateRender(text);
    AnnotateContent(text);
    EraseRender(AnnotatePieces(text));
  }

  /** Why EraseAnnotate needs a text without '[': a text that already
      holds a closing tag is left alone by annotate_numerics, but Erase
      cannot tell that tag from one the annotator wrote. */
  lemma EraseNeedsNoBracket()
    ensures Annotate(Close) == Close && Erase(Close) == ""
  {
    forall p: Pattern, i | 0 <= i < |Close| ensures MatchLen(p, Close[i..]) == 0 {
      MatchStart(p, Close[i..]);
    }
    CloseLen(Close);
    assert Close[|Close|..] == "";
  }

  // ---------------------------------------------------------------------
  // Whole matches and examples

  /** re.sub wraps a match at the start of the text and goes on after it. */
  lemma SubMatch(p: Pattern, s: string)
    requires MatchLen(p, s) > 0
    ensures Sub(p, s) == Tag(p, s[..MatchLen(p, s)]) + Sub(p, s[MatchLen(p, s)..])
  {
    SubUnfold(Matcher(p), Wrapper(p), s);
  }

  /** A text without any match where the scan tries comes back unchanged:
      here, a text of one character that starts no match. */
  lemma SubNoStart(p: Pattern, c: char)
    requires MatchLen(p, [c]) == 0
    ensures Sub(p, [c]) == [c]
  {
  }

  /** A text that is one whole p value is tagged once, as a p value, and the
      later passes leave the tag alone. */
  lemma AnnotatePValue(s: string)
    requires Whole(PValue, s)
    ensures Annotate(s) == Tag(PValue, s)
  {
    SubMatch(PValue, s);
    assert s[..|s|] == s && s[|s|..] == [];
    MatchChars(PValue, s);
    TagSkip(PValue, Percentage, s, "");
    TagSkip(PValue, Correlation, s, "");
    assert Tag(PValue, s) + "" == Tag(PValue, s);
  }

  lemma ScanPValueExample()
    ensures MatchLen(PValue, "p < 0.05") == 8
  {
  }

  /** annotate_numerics("p < 0.05"). */
  lemma ExamplePValue()
    ensures Annotate("p < 0.05") == "[STAT:P_VALUE]p < 0.05[/STAT]"
  {
    ScanPValueExample();
    AnnotatePValue("p < 0.05");
    TagExample();
  }

  lemma TagExample()
    ensures Tag(PValue, "p < 0.05") == "[STAT:P_VALUE]p < 0.05[/STAT]"
  {
  }

  lemma ScanPercentExample()
    ensures MatchLen(PValue, "p=5%") == 3
    ensures "p=5%"[..3] == "p=5" && "p=5%"[3..] == "%"
    ensures MatchLen(PValue, "%") == 0 && MatchLen(Percentage, "%") == 0
    ensures MatchLen(Correlation, "%") == 0
  {
  }

  /** annotate_numerics("p=5%"): the p value pass takes "p=5" first, so the
      '%' after it no longer follows a digit and is not tagged. */
  lemma ExamplePercentAfterPValue()
    ensures Annotate("p=5%") == "[STAT:P_VALUE]p=5[/STAT]%"
  {
    ScanPercentExample();
    SubMatch(PValue, "p=5%");
    SubNoStart(PValue, '%');
    MatchChars(PValue, "p=5%");
    TagSkip(PValue, Percentage, "p=5", "%");
    SubNoStart(Percentage, '%');
    TagSkip(PValue, Correlation, "p=5", "%");
    SubNoStart(Correlation, '%');
    TagPercentExample();
  }

  lemma TagPercentExample()
    ensures Tag(PValue, "p=5") + "%" == "[STAT:P_VALUE]p=5[/STAT]%"
  {
  }

  // ---------------------------------------------------------------------
  // preprocess_content

  /** [standardize_table(t) for t in tables]: the first table whose
      standardisation raises ends the list with that error. */
  function StandardizeAll(tables: seq<Json>, standardize: Json -> Result<Json>): (r: Result<seq<Json>>)
    ensures r.Ok? ==> |r.value| == |tables|
    ensures r.Ok? ==> forall k :: 0 <= k < |tables| ==> standardize(tables[k]) == Ok(r.value[k])
    ensures r.Ok? <==> forall k :: 0 <= k < |tables| ==> standardize(tables[k]).Ok?
    ensures r.Err? ==> exists k :: 0 <= k < |tables| && standardize(tables[k]) == Err(r.error)
    decreases |tables|
  {
    if |tables| == 0 then Ok([])
    else
      var last := |tables| - 1;
      match StandardizeAll(tables[..last], standardize)
      case Err(e) => Err(e)
      case Ok(done) =>
        match standardize(tables[last])
        case Err(e) => Err(e)
        case Ok(t) => Ok(done + [t])
  }

  /** The error of StandardizeAll is that of the first table that fails. */
  lemma {:induction false} StandardizeFirstError(tables: seq<Json>, standardize: Json -> Result<Json>, i: nat)
    requires i < |tables| && standardize(tables[i]).Err?
    requires forall k :: 0 <= k < i ==> standardize(tables[k]).Ok?
    ensures StandardizeAll(tables, standardize) == Err(standardize(tables[i]).error)
    decreases |tables|
  {
    var last := |tables| - 1;
    var front := tables[..last];
    if i < last {
      assert forall k :: 0 <= k < i ==> front[k] == tables[k];
      StandardizeFirstError(front, standardize, i);
    } else {
      assert forall k :: 0 <= k < |front| ==> front[k] == tables[k];
    }
  }

  /** What preprocess_content raises; it never returns, since the name
      extract_statistics it calls last is defined nowhere. */
  function Preprocess(content: Json, standardize: Json -> Result<Json>): (r: PyError)
    ensures !content.Obj? ==> r == AttributeError
    ensures content.Obj? && Lookup(content.members, "tables").None? ==>
      r == if !HasKey(content, "text") then KeyError("text")
           else if !Index(content, "text").value.Str? then TypeError
           else NameError("extract_statistics")
  {
    if !content.Obj? then AttributeError
    else
      var tables := Iterate(Get(content, "tables", Arr([])).value);
      if tables.Err? then tables.error
      else
        var standardized := StandardizeAll(tables.value, standardize);
        if standardized.Err? then standardized.error
        else
          var text := Index(content, "text");
          if text.Err? then text.error
          else if !text.value.Str? then TypeError
          else NameError("extract_statistics")
  }

  /** preprocess_content(content), with standardize_table given as a
      function from a table to the standardised table or the exception it
      raises. content.copy() and the keys assigned to the copy are not kept:
      nothing can see them once the call raises. */
  method PreprocessContent(content: Json, standardize: Json -> Result<Json>) returns (r: Result<Json>)
    ensures r == Err(Preprocess(content, standardize))
  {
    if !content.Obj? {
      return Err(AttributeError);
    }
    var tables := Iterate(Get(content, "tables", Arr([])).value);
    if tables.Err? {
      return Err(tables.error);
    }
    var items := tables.value;
    var done: seq<Json> := [];
    var i := 0;
    while i < |items|
      invariant i <= |items|
      invariant StandardizeAll(items[..i], standardize) == Ok(done)
    {
      assert items[..i + 1][..i] == items[..i];
      var t := standardize(items[i]);
      if t.Err? {
        StandardizeFirstError(items, standardize, i);
        return Err(t.error);
      }
      done := done + [t.value];
      i := i + 1;
    }
    assert items[..i] == items;
    var text := Index(content, "text");
    if text.Err? {
      return Err(text.error);
    }
    if !text.value.Str? {
      return Err(TypeError);
    }
    var annotated := AnnotateNumerics(text.value.s);
    return Err(NameError("extract_statistics"));
  }

  /** preprocess_content fails with NameError exactly when it gets as far as
      extract_statistics: a dict whose tables all standardise and whose
      "text" is a string (when standardize_table raises no NameError of its
      own). */
  lemma PreprocessReachesStatistics(content: Json, standardize: Json -> Result<Json>)
    requires forall t :: standardize(t).Err? ==> !standardize(t).error.NameError?
    ensures Preprocess(content, standardize).NameError? <==>
      && content.Obj?
      && Iterate(Get(content, "tables", Arr([])).value).Ok?
      && (forall t :: t in Iterate(Get(content, "tables", Arr([])).value).value ==> standardize(t).Ok?)
      && HasKey(content, "text")
      && Index(content, "text").value.Str?
  {
    if content.Obj? {
      var tables := Iterate(Get(content, "tables", Arr([])).value);
      if tables.Ok? {
        var ts := tables.value;
        assert (forall t :: t in ts ==> standardize(t).Ok?) <==>
          (forall k :: 0 <= k < |ts| ==> standardize(ts[k]).Ok?);
        assert StandardizeAll(ts, standardize).Ok? <==>
          (forall k :: 0 <= k < |ts| ==> standardize(ts[k]).Ok?);
      }
    }
  }
}
