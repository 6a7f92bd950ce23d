/**
 * Field heuristics of the resume parser, over text that has already been extracted
 * from the PDF or DOCX file. Every regular expression is abstracted by the ordered
 * list of what it matches (or captures) in the text: the model checks the selection
 * and reduction logic around the patterns, not a regex engine.
 */
module Parser {
  import opened Wrappers
  import opened Text

  /** The month abbreviations `MONTHS` knows; "sept" can never equal a 3-letter prefix. */
  const Months: set<string> := {"jan", "feb", "mar", "apr", "may", "jun", "jul", "aug", "sep", "sept", "oct", "nov", "dec"}

  /** The words an open-ended date range may end with. */
  const OpenEnded: set<string> := {"present", "current", "now"}

  /** How much of the text a parsed resume keeps as its snippet. */
  const SnippetLength: nat := 800

  // ---------------------------------------------------------------------------
  // First-match fields: email, phone and the active experience finder

  /**
   * `m.group(0).strip() if m else ""` where `m` is the first match of the pattern:
   * only the first match counts, and it is returned without surrounding whitespace.
   */
  function FirstMatch(matches: seq<string>): (r: string)
    ensures matches == [] ==> r == ""
    ensures matches != [] ==> r == Strip(matches[0])
    ensures r == [] || (!IsSpace(r[0]) && !IsSpace(r[|r| - 1]))
  {
    if matches == [] then "" else Strip(matches[0])
  }

  /**
   * Later matches never change the field: once the pattern matches, further matches
   * after the first leave the result as it is. The result is already stripped.
   */
  lemma FirstMatchStable(matches: seq<string>, later: seq<string>)
    ensures matches != [] ==> FirstMatch(matches + later) == FirstMatch(matches)
    ensures Strip(FirstMatch(matches)) == FirstMatch(matches)
  {
    if matches != [] {
      assert (matches + later)[0] == matches[0];
    }
  }

  // ---------------------------------------------------------------------------
  // Year tokens such as "Jan 2019" or "2019"

  /** `token.strip().lower().replace('.', '')`. */
  function NormalizeToken(token: string): string {
    RemoveChar(Lower(Strip(token)), '.')
  }

  predicate IsYearText(w: string) {
    |w| == 4 && AllDigits(w)
  }

  function Prefix3(w: string): string {
    if |w| < 3 then w else w[..3]
  }

  /**
   * `_parse_year_from_token`. A single word must itself be four digits; with
   * several words the month test and the fallback both look only at the last word,
   * so the year is the last word exactly when that word is four digits. With no
   * word at all, `parts[0]` raises and the handler gives `None`.
   */
  function ParseYearFromToken(token: string): Option<int> {
    if token == "" then None else YearFromParts(Split(NormalizeToken(token)))
  }

  /** The year read from the words of a non-empty normalised token. */
  function YearFromParts(parts: seq<string>): Option<int> {
    if |parts| == 1 then
      if IsYearText(parts[0]) then Some(DigitsValue(parts[0])) else None
    else if |parts| == 0 then None
    else if Prefix3(parts[0]) in Months && IsYearText(parts[|parts| - 1]) then
      Some(DigitsValue(parts[|parts| - 1]))
    else if IsYearText(parts[|parts| - 1]) then
      Some(DigitsValue(parts[|parts| - 1]))
    else None
  }

  /** `y` is the year the last word spells when it is four digits, and `None` otherwise. */
  predicate LastWordYear(parts: seq<string>, y: Option<int>) {
    if |parts| >= 1 && IsYearText(parts[|parts| - 1]) then y == Some(DigitsValue(parts[|parts| - 1]))
    else y == None
  }

  lemma YearFromPartsLastWord(parts: seq<string>)
    ensures LastWordYear(parts, YearFromParts(parts))
  {
  }

  /** The month test adds nothing: the result depends only on the last word. */
  lemma ParseYearLastWord(token: string)
    ensures LastWordYear(Split(NormalizeToken(token)), ParseYearFromToken(token))
  {
    if token == "" {
      assert Strip(token) == "";
      assert NormalizeToken(token) == "";
    } else {
      YearFromPartsLastWord(Split(NormalizeToken(token)));
    }
  }

  // ---------------------------------------------------------------------------
  // Numbers of years as the patterns capture them: `\d+(?:\.\d+)?`

  /** The digits before the point and those after it ("" when there is no point). */
  datatype Numeral = Numeral(whole: string, fraction: string)

  type Number = n: Numeral | n.whole != [] && AllDigits(n.whole) && AllDigits(n.fraction)
    witness Numeral("0", "")

  function FractionValue(f: string): real
    requires AllDigits(f)
  {
    if f == [] then 0.0 else (DigitValue(f[0]) as real + FractionValue(f[1..])) / 10.0
  }

  /** `float(text)`, read exactly. */
  function Value(n: Number): real {
    DigitsValue(n.whole) as real + FractionValue(n.fraction)
  }

  /** `val.is_integer()`. */
  predicate IsWhole(n: Number) {
    forall i :: 0 <= i < |n.fraction| ==> n.fraction[i] == '0'
  }

  lemma {:induction false} FractionValueRange(f: string)
    requires AllDigits(f)
    ensures 0.0 <= FractionValue(f) < 1.0
    ensures FractionValue(f) == 0.0 <==> forall i :: 0 <= i < |f| ==> f[i] == '0'
  {
    if f != [] {
      FractionValueRange(f[1..]);
      assert forall i :: 1 <= i < |f| ==> f[i] == f[1..][i - 1];
    }
  }

  /** A numeral is whole exactly when its value is an integer, and that integer is its whole part. */
  lemma WholeIffIntegral(n: Number)
    ensures Value(n).Floor == DigitsValue(n.whole)
    ensures IsWhole(n) <==> Value(n) == Value(n).Floor as real
  {
    FractionValueRange(n.fraction);
  }

  function DropTrailingZeros(f: string): string {
    if f != [] && f[|f| - 1] == '0' then DropTrailingZeros(f[..|f| - 1]) else f
  }

  /** `f"{n} years"` for a whole number of years. */
  function YearsText(n: nat): string {
    NatToString(n) + " years"
  }

  /**
   * The rendering of a captured number: `f"{int(val)} years"` when it is whole,
   * otherwise `f"{val} years"`, written as the shortest decimal.
   */
  function Render(n: Number): string {
    if IsWhole(n) then YearsText(DigitsValue(n.whole))
    else NatToString(DigitsValue(n.whole)) + "." + DropTrailingZeros(n.fraction) + " years"
  }

  /** A whole value renders as its integer followed by " years", with no decimal point. */
  lemma WholeRendering(n: Number)
    requires Value(n) == Value(n).Floor as real
    ensures Value(n).Floor >= 0
    ensures Render(n) == NatToString(Value(n).Floor) + " years"
    ensures '.' !in Render(n)
  {
    WholeIffIntegral(n);
    var digits := NatToString(DigitsValue(n.whole));
    assert Render(n) == digits + " years";
    assert forall i :: 0 <= i < |digits| ==> IsDigit(digits[i]);
    assert '.' !in digits;
    assert '.' !in " years";
  }

  /** `max(simple_matches)`: the first index holding the largest value. */
  function MaxIndex(xs: seq<Number>): (k: nat)
    requires xs != []
    ensures k < |xs|
    ensures forall j :: 0 <= j < |xs| ==> Value(xs[j]) <= Value(xs[k])
    ensures forall j :: 0 <= j < k ==> Value(xs[j]) < Value(xs[k])
  {
    if |xs| == 1 then 0
    else
      var k := MaxIndex(xs[..|xs| - 1]);
      if Value(xs[|xs| - 1]) > Value(xs[k]) then |xs| - 1 else k
  }

  // ---------------------------------------------------------------------------
  // Date ranges such as "Jan 2019 - Mar 2022" or "2018 - present"

  /** The `start` and `end` groups of one date-range match. */
  datatype DateRange = DateRange(start: string, end: string)

  /** The end year: the current year for "present/current/now", else the parsed token. */
  function EndYear(end: string, currentYear: int): Option<int> {
    if Lower(Strip(end)) in OpenEnded then Some(currentYear) else ParseYearFromToken(end)
  }

  /** Python truthiness of an optional year: neither `None` nor 0. */
  predicate Truthy(y: Option<int>) {
    y.Some? && y.value != 0
  }

  /** The number of years one range contributes, if any. */
  function RangeSpan(range: DateRange, currentYear: int): Option<nat> {
    SpanBetween(ParseYearFromToken(range.start), EndYear(range.end, currentYear))
  }

  /** The years from `startYear` to `endYear` when both are truthy and in order. */
  function SpanBetween(startYear: Option<int>, endYear: Option<int>): Option<nat> {
    if Truthy(startYear) && Truthy(endYear) && endYear.value - startYear.value >= 0
    then Some(endYear.value - startYear.value)
    else None
  }

  /** The values `f` gives for the elements of `xs`, in order, skipping the `None`s. */
  function FilterMap<T>(xs: seq<T>, f: T -> Option<nat>): seq<nat> {
    if xs == [] then []
    else
      var earlier := FilterMap(xs[..|xs| - 1], f);
      var y := f(xs[|xs| - 1]);
      if y.Some? then earlier + [y.value] else earlier
  }

  lemma {:induction false} FilterMapMembers<T>(xs: seq<T>, f: T -> Option<nat>, d: nat)
    ensures d in FilterMap(xs, f) <==> exists i :: 0 <= i < |xs| && f(xs[i]) == Some(d)
  {
    if xs != [] {
      var init := xs[..|xs| - 1];
      FilterMapMembers(init, f, d);
      assert forall i :: 0 <= i < |init| ==> init[i] == xs[i];
    }
  }

  /** `years_candidates` after the loop over the date-range matches. */
  function RangeSpans(ranges: seq<DateRange>, currentYear: int): seq<nat> {
    FilterMap(ranges, r => RangeSpan(r, currentYear))
  }

  /** A span is a candidate exactly when some range contributes it. */
  lemma RangeSpansMembers(ranges: seq<DateRange>, currentYear: int, d: nat)
    ensures d in RangeSpans(ranges, currentYear) <==>
            exists i :: 0 <= i < |ranges| && RangeSpan(ranges[i], currentYear) == Some(d)
  {
    FilterMapMembers(ranges, r => RangeSpan(r, currentYear), d);
  }

  /** Extending the ranges by one appends that range's span, if it has one. */
  lemma RangeSpansStep(ranges: seq<DateRange>, i: nat, currentYear: int)
    requires i < |ranges|
    ensures RangeSpans(ranges[..i + 1], currentYear) ==
            RangeSpans(ranges[..i], currentYear) +
            (if RangeSpan(ranges[i], currentYear).Some? then [RangeSpan(ranges[i], currentYear).value] else [])
  {
    assert ranges[..i + 1][..i] == ranges[..i];
  }

  /** Extending the elements by one appends that element's value, if it has one. */
  lemma FilterMapStep<T>(xs: seq<T>, i: nat, f: T -> Option<nat>)
    requires i < |xs|
    ensures FilterMap(xs[..i + 1], f) == FilterMap(xs[..i], f) + (if f(xs[i]).Some? then [f(xs[i]).value] else [])
  {
    assert xs[..i + 1][..i] == xs[..i];
  }

  /** A loop that collects the values `f` gives for `xs`, in order, skipping the `None`s. */
  method CollectValues<T>(xs: seq<T>, f: T -> Option<nat>) returns (values: seq<nat>)
    ensures values == FilterMap(xs, f)
  {
    values := [];
    var i := 0;
    while i < |xs|
      invariant 0 <= i <= |xs|
      invariant values == FilterMap(xs[..i], f)
    {
      FilterMapStep(xs, i, f);
      var y := f(xs[i]);
      if y.Some? {
        values := values + [y.value];
      }
      i := i + 1;
    }
    assert xs[..|xs|] == xs;
  }

  /**
   * The loop of stage three: for each range, in match order, the span is kept when
   * both years are truthy and the end is not before the start.
   */
  method CollectRangeSpans(ranges: seq<DateRange>, currentYear: int) returns (candidates: seq<nat>)
    ensures candidates == RangeSpans(ranges, currentYear)
  {
    candidates := CollectValues(ranges, r => RangeSpan(r, currentYear));
  }

  function MaxNat(xs: seq<nat>): (m: nat)
    requires xs != []
    ensures m in xs
    ensures forall j :: 0 <= j < |xs| ==> xs[j] <= m
  {
    if |xs| == 1 then xs[0]
    else
      var m := MaxNat(xs[..|xs| - 1]);
      if xs[|xs| - 1] > m then xs[|xs| - 1] else m
  }

  // ---------------------------------------------------------------------------
  // The three-stage experience inferencer (the first `find_experience`)

  /**
   * What the three-stage `find_experience` returns, given the first-to-last captures
   * of the total-experience pattern, of the simple "N years" pattern and of the
   * date-range pattern.
   */
  function StagedExperience(text: string, totals: seq<Number>, simples: seq<Number>,
                            ranges: seq<DateRange>, currentYear: int): string
  {
    if text == "" then ""
    else if totals != [] then Render(totals[0])
    else if simples != [] then Render(simples[MaxIndex(simples)])
    else StageThree(RangeSpans(ranges, currentYear))
  }

  /** Stage three from its candidate spans: "" without any, else the largest in years. */
  function StageThree(spans: seq<nat>): string {
    if spans == [] then "" else YearsText(MaxNat(spans))
  }

  /** The largest value `FilterMap` keeps comes from some element and bounds all the others. */
  lemma FilterMapMaximum<T>(xs: seq<T>, f: T -> Option<nat>)
    ensures FilterMap(xs, f) == [] <==> forall i :: 0 <= i < |xs| ==> f(xs[i]).None?
    ensures FilterMap(xs, f) != [] ==>
      exists i :: (0 <= i < |xs| && f(xs[i]) == Some(MaxNat(FilterMap(xs, f)))
        && forall j :: 0 <= j < |xs| && f(xs[j]).Some? ==> f(xs[j]).value <= MaxNat(FilterMap(xs, f)))
  {
    var ys := FilterMap(xs, f);
    forall i | 0 <= i < |xs| && f(xs[i]).Some?
      ensures f(xs[i]).value in ys
    {
      FilterMapMembers(xs, f, f(xs[i]).value);
    }
    if ys != [] {
      var m := MaxNat(ys);
      FilterMapMembers(xs, f, m);
    }
  }

  /** The three-stage `find_experience`, whose last stage is a loop. */
  method InferExperience(text: string, totals: seq<Number>, simples: seq<Number>,
                         ranges: seq<DateRange>, currentYear: int) returns (r: string)
    ensures r == StagedExperience(text, totals, simples, ranges, currentYear)
  {
    if text == "" {
      return "";
    }
    if totals != [] {
      return Render(totals[0]);
    }
    if simples != [] {
      return Render(simples[MaxIndex(simples)]);
    }
    var spans := CollectRangeSpans(ranges, currentYear);
    if spans != [] {
      return YearsText(MaxNat(spans));
    }
    return "";
  }

  /** Stage one wins: the first explicit total is used even when larger simple matches exist. */
  lemma ExplicitTotalWins(text: string, totals: seq<Number>, simples: seq<Number>,
                          ranges: seq<DateRange>, currentYear: int)
    requires text != "" && totals != []
    ensures StagedExperience(text, totals, simples, ranges, currentYear) == Render(totals[0])
  {
  }

  /** Stage two: without a total, the result is the largest simple match. */
  lemma SimpleMatchMaximum(text: string, simples: seq<Number>, ranges: seq<DateRange>, currentYear: int)
    requires text != "" && simples != []
    ensures exists k :: (0 <= k < |simples|
      && StagedExperience(text, [], simples, ranges, currentYear) == Render(simples[k])
      && forall j :: 0 <= j < |simples| ==> Value(simples[j]) <= Value(simples[k]))
  {
    var k := MaxIndex(simples);
    assert StagedExperience(text, [], simples, ranges, currentYear) == Render(simples[k]);
  }

  /**
   * Stage three: without explicit numbers, the result is the largest non-negative span
   * over the ranges whose years both parse truthily, or "" when no range qualifies.
   */
  lemma DateRangeMaximum(text: string, ranges: seq<DateRange>, currentYear: int) returns (best: nat)
    requires text != ""
    ensures var r := StagedExperience(text, [], [], ranges, currentYear);
      && (r == "" <==> forall i :: 0 <= i < |ranges| ==> RangeSpan(ranges[i], currentYear).None?)
      && (r != "" ==>
            (&& best < |ranges| && RangeSpan(ranges[best], currentYear).Some?
             && r == YearsText(RangeSpan(ranges[best], currentYear).value)
             && forall j :: 0 <= j < |ranges| && RangeSpan(ranges[j], currentYear).Some? ==>
                  RangeSpan(ranges[j], currentYear).value <= RangeSpan(ranges[best], currentYear).value))
  {
    var f := r => RangeSpan(r, currentYear);
    assert StagedExperience(text, [], [], ranges, currentYear) == StageThree(FilterMap(ranges, f));
    best := StageThreeMaximum(ranges, f);
    assert forall i :: 0 <= i < |ranges| ==> f(ranges[i]) == RangeSpan(ranges[i], currentYear);
  }

  /** Stage three over the values `f` gives: "" exactly when there are none, else the largest. */
  lemma StageThreeMaximum<T>(xs: seq<T>, f: T -> Option<nat>) returns (best: nat)
    ensures var r := StageThree(FilterMap(xs, f));
      && (r == "" <==> forall i :: 0 <= i < |xs| ==> f(xs[i]).None?)
      && (r != "" ==>
            (&& best < |xs| && f(xs[best]).Some? && r == YearsText(f(xs[best]).value)
             && forall j :: 0 <= j < |xs| && f(xs[j]).Some? ==> f(xs[j]).value <= f(xs[best]).value))
  {
    best := 0;
    var spans := FilterMap(xs, f);
    forall j | 0 <= j < |xs| && f(xs[j]).Some?
      ensures f(xs[j]).value in spans
    {
      FilterMapMembers(xs, f, f(xs[j]).value);
    }
    if spans != [] {
      var m := MaxNat(spans);
      FilterMapMembers(xs, f, m);
      best :| 0 <= best < |xs| && f(xs[best]) == Some(m);
      assert YearsText(m) != "";
    }
  }

  // ---------------------------------------------------------------------------
  // Skills

  /** `found` after the loop over the vocabulary: matching skills, first occurrence only. */
  function SkillsIn(vocabulary: seq<string>, hay: string): seq<string> {
    if vocabulary == [] then []
    else
      var earlier := SkillsIn(vocabulary[..|vocabulary| - 1], hay);
      var skill := vocabulary[|vocabulary| - 1];
      if Contains(hay, skill) && skill !in earlier then earlier + [skill] else earlier
  }

  /** The position of the first occurrence of `x` in `s`. */
  function FirstIndex(s: seq<string>, x: string): (k: nat)
    requires x in s
    ensures k < |s| && s[k] == x && x !in s[..k]
  {
    if s[0] == x then 0 else 1 + FirstIndex(s[1..], x)
  }

  /** An index holding `x` with no earlier `x` is the first index of `x`. */
  lemma {:induction false} FirstIndexUnique(s: seq<string>, x: string, k: nat)
    requires k < |s| && s[k] == x && x !in s[..k]
    ensures FirstIndex(s, x) == k
  {
    if k > 0 {
      assert s[0] in s[..k];
      assert s[1..][..k - 1] == s[1..k];
      assert s[1..k] <= s[..k][1..];
      FirstIndexUnique(s[1..], x, k - 1);
    }
  }

  lemma FirstIndexOfPrefix(s: seq<string>, n: nat, x: string)
    requires n <= |s| && x in s[..n]
    ensures FirstIndex(s, x) == FirstIndex(s[..n], x)
  {
    var k := FirstIndex(s[..n], x);
    assert s[..n][..k] == s[..k];
    FirstIndexUnique(s, x, k);
  }

  /**
   * The skills found are exactly the vocabulary entries occurring in the text, each
   * once, in the order of their first occurrence in the vocabulary.
   */
  lemma {:induction false} SkillsInCharacterised(vocabulary: seq<string>, hay: string)
    ensures forall s :: s in SkillsIn(vocabulary, hay) <==> s in vocabulary && Contains(hay, s)
    ensures forall i, j :: 0 <= i < j < |SkillsIn(vocabulary, hay)| ==>
      SkillsIn(vocabulary, hay)[i] != SkillsIn(vocabulary, hay)[j]
    ensures forall i, j :: 0 <= i < j < |SkillsIn(vocabulary, hay)| ==>
      FirstIndex(vocabulary, SkillsIn(vocabulary, hay)[i]) < FirstIndex(vocabulary, SkillsIn(vocabulary, hay)[j])
  {
    if vocabulary != [] {
      var n := |vocabulary| - 1;
      var init := vocabulary[..n];
      var skill := vocabulary[n];
      SkillsInCharacterised(init, hay);
      var earlier := SkillsIn(init, hay);
      assert vocabulary == init + [skill];
      forall x | x in earlier
        ensures FirstIndex(vocabulary, x) == FirstIndex(init, x) && FirstIndex(init, x) < n
      {
        FirstIndexOfPrefix(vocabulary, n, x);
      }
      if Contains(hay, skill) && skill !in earlier {
        assert skill !in init;
        assert FirstIndex(vocabulary, skill) == n by {
          assert vocabulary[..n] == init;
        }
      }
    }
  }

  /** The active `find_skills`: the skills found in the lower-cased text, joined by ", ". */
  method FindSkills(text: string, vocabulary: seq<string>) returns (r: string)
    ensures r == Join(SkillsIn(vocabulary, Lower(text)), ", ")
  {
    var lower := Lower(text);
    var found: seq<string> := [];
    for i := 0 to |vocabulary|
      invariant found == SkillsIn(vocabulary[..i], lower)
    {
      assert vocabulary[..i + 1][..i] == vocabulary[..i];
      var skill := vocabulary[i];
      if Contains(lower, skill) && skill !in found {
        found := found + [skill];
      }
    }
    assert vocabulary[..|vocabulary|] == vocabulary;
    r := Join(found, ", ");
  }

  /** On empty text at most the empty skill is found. */
  lemma {:induction false} SkillsOfEmptyText(vocabulary: seq<string>)
    ensures SkillsIn(vocabulary, "") == [] || SkillsIn(vocabulary, "") == [""]
  {
    if vocabulary != [] {
      SkillsOfEmptyText(vocabulary[..|vocabulary| - 1]);
      ContainsEmpty([], vocabulary[|vocabulary| - 1]);
    }
  }

  /**
   * The earlier `find_skills`, which returns "" for empty text, is shadowed by the later
   * one without that guard; the two agree, because on "" only the empty skill can match.
   */
  lemma ShadowedSkillsAgree(vocabulary: seq<string>)
    ensures Join(SkillsIn(vocabulary, Lower("")), ", ") == ""
  {
    assert Lower("") == "";
    SkillsOfEmptyText(vocabulary);
  }

  // ---------------------------------------------------------------------------
  // Name fallback

  /** A short line (2 to 4 words) whose words all start with an upper-case letter. */
  predicate LooksLikeName(s: string) {
    var parts := Split(s);
    1 < |parts| <= 4 && forall i :: 0 <= i < |parts| ==> parts[i] != [] && IsUpper(parts[i][0])
  }

  /** A line the fallback accepts: not blank once stripped, and name-like. */
  predicate NameLine(line: string) {
    Strip(line) != "" && LooksLikeName(Strip(line))
  }

  function FirstNameLine(lines: seq<string>): string {
    if lines == [] then ""
    else if NameLine(lines[0]) then Strip(lines[0])
    else FirstNameLine(lines[1..])
  }

  /** The position of the first element satisfying `p`, or `|xs|` when there is none. */
  function FirstWhere<T>(xs: seq<T>, p: T -> bool): (k: nat)
    ensures k <= |xs|
    ensures forall j :: 0 <= j < k ==> !p(xs[j])
    ensures k < |xs| ==> p(xs[k])
  {
    if xs == [] then 0
    else if p(xs[0]) then 0
    else 1 + FirstWhere(xs[1..], p)
  }

  /** The position of the first accepted line, or `|lines|` when there is none. */
  function FirstNameIndex(lines: seq<string>): (k: nat)
    ensures k <= |lines|
    ensures forall j :: 0 <= j < k ==> !NameLine(lines[j])
    ensures k < |lines| ==> NameLine(lines[k])
  {
    FirstWhere(lines, NameLine)
  }

  lemma {:induction false} FirstNameLineAt(lines: seq<string>)
    ensures var k := FirstWhere(lines, NameLine);
      FirstNameLine(lines) == if k < |lines| then Strip(lines[k]) else ""
  {
    if lines != [] && !NameLine(lines[0]) {
      FirstNameLineAt(lines[1..]);
      var k := FirstWhere(lines[1..], NameLine);
      assert FirstWhere(lines, NameLine) == k + 1;
      if k < |lines[1..]| {
        assert lines[1..][k] == lines[k + 1];
      }
    }
  }

  /**
   * The fallback name is the first accepted line, stripped, or "" exactly when no line
   * is accepted.
   */
  lemma FirstNameLineCharacterised(lines: seq<string>)
    ensures FirstNameLine(lines) == "" <==> forall i :: 0 <= i < |lines| ==> !NameLine(lines[i])
    ensures FirstNameLine(lines) != "" ==> exists i :: (0 <= i < |lines|
      && NameLine(lines[i]) && FirstNameLine(lines) == Strip(lines[i])
      && forall j :: 0 <= j < i ==> !NameLine(lines[j]))
  {
    FirstNameLineAt(lines);
  }

  /** `fallback_name_from_text`: scans the lines and stops at the first accepted one. */
  method FallbackNameFromText(text: string) returns (name: string)
    ensures name == FirstNameLine(SplitLines(text))
  {
    var lines := SplitLines(text);
    var i := 0;
    while i < |lines|
      invariant 0 <= i <= |lines|
      invariant FirstNameLine(lines) == FirstNameLine(lines[i..])
    {
      var s := Strip(lines[i]);
      assert lines[i..][1..] == lines[i + 1..];
      if s == "" {
        i := i + 1;
        continue;
      }
      if LooksLikeName(s) {
        return s;
      }
      i := i + 1;
    }
    return "";
  }

  // ---------------------------------------------------------------------------
  // parse_resume over extracted text

  /** The dictionary `parse_resume` returns. */
  datatype Resume = Resume(name: string, email: string, phone: string, skills: string,
                           experience: string, resumePath: string, textSnippet: string)

  /** The same record keyed as the dictionary the row store reads. */
  function AsRecord(r: Resume): map<string, string> {
    map["Name" := r.name, "Email" := r.email, "Phone" := r.phone, "Skills" := r.skills,
        "Experience" := r.experience, "ResumePath" := r.resumePath, "TextSnippet" := r.textSnippet]
  }

  /** The name `parse_resume` settles on: the stripped first PERSON entity, else the line fallback. */
  function ChosenName(text: string, personEntity: Option<string>): string {
    var fromModel := if personEntity.Some? then Strip(personEntity.value) else "";
    if fromModel != "" then fromModel else FirstNameLine(SplitLines(text))
  }

  function Snippet(text: string): (s: string)
    ensures |s| <= SnippetLength && s <= text
    ensures |text| <= SnippetLength ==> s == text
    ensures |text| > SnippetLength ==> |s| == SnippetLength
  {
    if |text| <= SnippetLength then text else text[..SnippetLength]
  }

  /**
   * `parse_resume` once the text is extracted. `personEntity` is the text of the first
   * entity the NER model labels PERSON (`None` without model, without such entity, or
   * when the model fails); the match lists are those of the email, phone and
   * `experience_regex` patterns; `absolutePath` is `os.path.abspath(file_path)`.
   * Blank text gives `None`; otherwise every field is filled and nothing raises.
   */
  method ParseResume(text: string, personEntity: Option<string>, emailMatches: seq<string>,
                     phoneMatches: seq<string>, experienceMatches: seq<string>,
                     absolutePath: string, vocabulary: seq<string>) returns (r: Option<Resume>)
    ensures r.None? <==> Strip(text) == ""
    ensures r.Some? ==> r.value == Resume(ChosenName(text, personEntity),
      FirstMatch(emailMatches), FirstMatch(phoneMatches),
      Join(SkillsIn(vocabulary, Lower(text)), ", "),
      FirstMatch(experienceMatches), absolutePath, Snippet(text))
  {
    if text == "" || Strip(text) == "" {
      return None;
    }
    var name := "";
    if personEntity.Some? {
      name := Strip(personEntity.value);
    }
    if name == "" {
      name := FallbackNameFromText(text);
    }
    var email := FirstMatch(emailMatches);
    var phone := FirstMatch(phoneMatches);
    var experience := FirstMatch(experienceMatches);
    var skills := FindSkills(text, vocabulary);
    return Some(Resume(name, email, phone, skills, experience, absolutePath, Snippet(text)));
  }
}
