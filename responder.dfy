/**
 * The rule-based chat responder `get_offline_response`: an ordered,
 * first-match-wins choice among seven rules over the lower-cased query.
 * The peak-year, top-regions, latest-year, named-year and named-region rules
 * answer from group-by sums over the analysis view; the EV explanation, the
 * fallback and the answer without data are fixed texts.
 */
module Responder {
  import opened Outcomes
  import opened Text
  import opened Sales

  // ---------------------------------------------------------------
  // Trigger words and answer texts
  // ---------------------------------------------------------------

  const PeakWords: seq<string> := ["highest", "top", "best", "peak"]
  const SuperlativeWords: seq<string> := ["highest", "top", "biggest", "best", "largest"]
  const LatestWords: seq<string> := ["current", "latest"]
  const EvInfoPhrases: seq<string> := ["what is ev", "tell me about ev", "about evs"]

  const NoDataText: string := "The data could not be loaded."

  const EvInfoText: string :=
    "An **Electric Vehicle (EV)** uses one or more electric motors for power, running on rechargeable batteries instead of a gasoline engine.\n\n"
    + "Key benefits include zero tailpipe emissions, a quieter ride, and lower running costs."

  const FallbackText: string :=
    "I'm not sure how to answer that. Try asking questions like 'What are the top 5 regions?' or 'Which year had the highest sales?'"

  function PeakYearText(year: int, total: int): string {
    "Based on the analysis, the year with the highest EV sales was **" + IntToString(year)
    + "**, with approximately **" + FormatThousands(total) + "** vehicles sold globally."
  }

  function SingleRegionText(g: Group): string {
    "The region with the highest total EV sales is **" + g.key + "** with **" + FormatThousands(g.total) + "** vehicles sold."
  }

  function TopHeader(n: nat): string {
    "Here are the Top " + NatToString(n) + " regions by total EV sales:\n"
  }

  /** The line for the group listed at 0-based position i. */
  function ListItem(i: nat, g: Group): string {
    "\n" + NatToString(i + 1) + ". **" + g.key + "**: " + FormatThousands(g.total) + " vehicles"
  }

  /** The lines for all listed groups, numbered from 1. */
  function Listing(top: seq<Group>): string {
    if top == [] then "" else Listing(top[..|top| - 1]) + ListItem(|top| - 1, top[|top| - 1])
  }

  function LatestText(yearText: string, total: int): string {
    "The most current sales information in the dataset is for **" + yearText
    + "**, where total sales were **" + FormatThousands(total) + "** vehicles."
  }

  function YearText(year: int, total: int): string {
    "Total EV sales in **" + IntToString(year) + "** were approximately **" + FormatThousands(total) + "** vehicles."
  }

  function NoYearText(year: int): string {
    "I could not find any sales data for the year " + IntToString(year) + "."
  }

  function RegionText(region: string, total: int): string {
    "Total historical sales for **" + region + "** are **" + FormatThousands(total) + "** vehicles."
  }

  /** The exceptions `get_offline_response` raises: two from pandas on an empty analysis view, one from `int()` on a `top N` count that is too long. */
  datatype ResponderError =
    | EmptyArgmax   // ValueError: idxmax of an empty series
    | NoTopRegion   // IndexError: index[0] of an empty nlargest result
    | DigitLimit    // ValueError: int() of a `top N` count longer than the digit limit

  // ---------------------------------------------------------------
  // Region mentions
  // ---------------------------------------------------------------

  /** `region.lower() in q_lower`. */
  predicate Mentioned(q: string, region: string) {
    Contains(q, ToLower(region))
  }

  /** The first of names that q mentions. */
  function FirstMentioned(q: string, names: seq<string>): Option<string> {
    if names == [] then None
    else if Mentioned(q, names[0]) then Some(names[0])
    else FirstMentioned(q, names[1..])
  }

  /** FirstMentioned finds the earliest entry that q mentions, and None only when q mentions none. */
  lemma {:induction false} FirstMentionedEarliest(q: string, names: seq<string>)
    ensures FirstMentioned(q, names).None? <==> forall i :: 0 <= i < |names| ==> !Mentioned(q, names[i])
    ensures forall i :: 0 <= i < |names| && Mentioned(q, names[i]) && (forall j :: 0 <= j < i ==> !Mentioned(q, names[j]))
              ==> FirstMentioned(q, names) == Some(names[i])
  {
    if names != [] {
      FirstMentionedEarliest(q, names[1..]);
      assert forall i :: 1 <= i < |names| ==> names[i] == names[1..][i - 1];
      if !Mentioned(q, names[0]) {
        forall i | 1 <= i < |names| && Mentioned(q, names[i]) && (forall j :: 0 <= j < i ==> !Mentioned(q, names[j]))
          ensures FirstMentioned(q, names) == Some(names[i])
        {
          assert forall j :: 0 <= j < i - 1 ==> names[1..][j] == names[j + 1];
        }
      }
    }
  }

  lemma {:induction false} FirstMentionedRemove(q: string, names: seq<string>, x: string)
    requires !Mentioned(q, x)
    ensures FirstMentioned(q, RemoveAll(names, x)) == FirstMentioned(q, names)
  {
    if names != [] {
      FirstMentionedRemove(q, names[1..], x);
      if names[0] != x {
        assert RemoveAll(names, x) == [names[0]] + RemoveAll(names[1..], x);
        assert ([names[0]] + RemoveAll(names[1..], x))[1..] == RemoveAll(names[1..], x);
      } else {
        assert RemoveAll(names, x) == RemoveAll(names[1..], x);
        assert FirstMentioned(q, names) == FirstMentioned(q, names[1..]);
      }
    }
  }

  /**
   * `unique()` keeps the order of first appearance: the first mentioned of
   * the distinct regions is the first mentioned of all region entries.
   */
  lemma {:induction false} FirstMentionedUnique(q: string, names: seq<string>)
    ensures FirstMentioned(q, Unique(names)) == FirstMentioned(q, names)
    decreases |names|
  {
    if names != [] {
      var x := names[0];
      var rest := RemoveAll(names[1..], x);
      assert Unique(names) == [x] + Unique(rest);
      if !Mentioned(q, x) {
        assert ([x] + Unique(rest))[1..] == Unique(rest);
        FirstMentionedUnique(q, rest);
        FirstMentionedRemove(q, names[1..], x);
      }
    }
  }

  // ---------------------------------------------------------------
  // The rules and their order
  // ---------------------------------------------------------------

  datatype Rule =
    | PeakYearRule      // the year with the highest summed value
    | TopRegionsRule    // the N regions with the highest sums
    | LatestRule        // the total of the latest year
    | EvInfoRule        // a fixed explanation of what an EV is
    | YearRule          // the total of a year named in the query
    | RegionRule        // the total of a region named in the query
    | FallbackRule      // a fixed help text

  /** The position of a rule in the order the responder tries them. */
  function Priority(rule: Rule): nat {
    match rule
    case PeakYearRule => 0
    case TopRegionsRule => 1
    case LatestRule => 2
    case EvInfoRule => 3
    case YearRule => 4
    case RegionRule => 5
    case FallbackRule => 6
  }

  /** The trigger of each rule, on the lower-cased query q. */
  predicate Fires(rule: Rule, q: string, t: Table) {
    match rule
    case PeakYearRule => ContainsAny(q, PeakWords) && Contains(q, "year")
    case TopRegionsRule => ContainsAny(q, SuperlativeWords)
    case LatestRule => ContainsAny(q, LatestWords)
    case EvInfoRule => ContainsAny(q, EvInfoPhrases)
    case YearRule => YearToken(q).Some?
    case RegionRule => FirstMentioned(q, RegionColumn(t)).Some?
    case FallbackRule => true
  }

  /** First match wins: the chosen rule fires and no rule tried before it does. */
  function SelectRule(q: string, t: Table): (rule: Rule)
    ensures Fires(rule, q, t)
    ensures forall other :: Priority(other) < Priority(rule) ==> !Fires(other, q, t)
  {
    if Fires(PeakYearRule, q, t) then PeakYearRule
    else if Fires(TopRegionsRule, q, t) then TopRegionsRule
    else if Fires(LatestRule, q, t) then LatestRule
    else if Fires(EvInfoRule, q, t) then EvInfoRule
    else if Fires(YearRule, q, t) then YearRule
    else if Fires(RegionRule, q, t) then RegionRule
    else FallbackRule
  }

  /** The answer of one rule. */
  function Respond(rule: Rule, q: string, t: Table): Result<string, ResponderError>
    requires Fires(rule, q, t)
  {
    match rule
    case PeakYearRule =>
      if |t| == 0 then Failure(EmptyArgmax)
      else var y := PeakYear(t); Success(PeakYearText(y, YearTotal(t, y)))
    case TopRegionsRule =>
      if TopCountTooLong(q) then Failure(DigitLimit) else
      var n := TopCount(q);
      var top := TopRegions(t, n);
      if n == 1 then
        if |top| == 0 then Failure(NoTopRegion) else Success(SingleRegionText(top[0]))
      else Success(TopHeader(n) + Listing(top))
    case LatestRule =>
      if |t| == 0 then Success(LatestText("nan", 0))
      else var y := MaxYear(t); Success(LatestText(IntToString(y), YearTotal(t, y)))
    case EvInfoRule => Success(EvInfoText)
    case YearRule =>
      var y := YearToken(q).value;
      if YearTotal(t, y) > 0 then Success(YearText(y, YearTotal(t, y))) else Success(NoYearText(y))
    case RegionRule =>
      var region := FirstMentioned(q, RegionColumn(t)).value;
      Success(RegionText(region, RegionTotal(t, region)))
    case FallbackRule => Success(FallbackText)
  }

  /** What `get_offline_response(query, df)` returns or raises; `df` is None when the data is absent. */
  function Answer(query: string, df: Option<Table>): Result<string, ResponderError> {
    match df
    case None => Success(NoDataText)
    case Some(t) =>
      var q := ToLower(query);
      Respond(SelectRule(q, t), q, t)
  }

  // ---------------------------------------------------------------
  // The responder as written: if-chain, append loop, scan of unique()
  // ---------------------------------------------------------------

  method GetOfflineResponse(query: string, df: Option<Table>) returns (r: Result<string, ResponderError>)
    ensures r == Answer(query, df)
  {
    if df.None? {
      return Success(NoDataText);
    }
    var t := df.value;
    var q := ToLower(query);

    if ContainsAny(q, PeakWords) && Contains(q, "year") {
      AnswerBy(query, t, PeakYearRule);
      if |t| == 0 {
        return Failure(EmptyArgmax);
      }
      var topYear := PeakYear(t);
      return Success(PeakYearText(topYear, YearTotal(t, topYear)));
    }

    if ContainsAny(q, SuperlativeWords) {
      AnswerBy(query, t, TopRegionsRule);
      if TopCountTooLong(q) {
        return Failure(DigitLimit);
      }
      var n := TopCount(q);
      var top := TopRegions(t, n);
      if n == 1 {
        if |top| == 0 {
          return Failure(NoTopRegion);
        }
        return Success(SingleRegionText(top[0]));
      }
      var response := ListTopRegions(n, top);
      return Success(response);
    } else if ContainsAny(q, LatestWords) {
      AnswerBy(query, t, LatestRule);
      if |t| == 0 {
        return Success(LatestText("nan", 0));
      }
      var latestYear := MaxYear(t);
      return Success(LatestText(IntToString(latestYear), YearTotal(t, latestYear)));
    } else if ContainsAny(q, EvInfoPhrases) {
      AnswerBy(query, t, EvInfoRule);
      return Success(EvInfoText);
    }

    var yearMatch := YearToken(q);
    if yearMatch.Some? {
      AnswerBy(query, t, YearRule);
      var year := yearMatch.value;
      var yearSales := YearTotal(t, year);
      if yearSales > 0 {
        return Success(YearText(year, yearSales));
      }
      return Success(NoYearText(year));
    }

    var region := FindMentionedRegion(q, t);
    if region.Some? {
      AnswerBy(query, t, RegionRule);
      return Success(RegionText(region.value, RegionTotal(t, region.value)));
    }
    AnswerBy(query, t, FallbackRule);
    return Success(FallbackText);
  }

  lemma ConcatAssoc(a: string, b: string, c: string)
    ensures (a + b) + c == a + (b + c)
  {
  }

  /** The numbered list of the top-N answer, built by appending one line per region. */
  method ListTopRegions(n: nat, top: seq<Group>) returns (response: string)
    ensures response == TopHeader(n) + Listing(top)
  {
    response := TopHeader(n);
    var i := 0;
    while i < |top|
      invariant 0 <= i <= |top|
      invariant response == TopHeader(n) + Listing(top[..i])
    {
      var line := ListItem(i, top[i]);
      ghost var prefix := top[..i + 1];
      assert prefix[..i] == top[..i] && prefix[i] == top[i];
      assert Listing(prefix) == Listing(top[..i]) + line;
      ConcatAssoc(TopHeader(n), Listing(top[..i]), line);
      response := response + line;
      i := i + 1;
    }
    assert top[..|top|] == top;
  }

  /** The loop over `df['region'].unique()` that stops at the first region the query mentions. */
  method FindMentionedRegion(q: string, t: Table) returns (region: Option<string>)
    ensures region == FirstMentioned(q, RegionColumn(t))
  {
    var regions := Unique(RegionColumn(t));
    FirstMentionedUnique(q, RegionColumn(t));
    var k := 0;
    while k < |regions|
      invariant 0 <= k <= |regions|
      invariant FirstMentioned(q, regions) == FirstMentioned(q, regions[k..])
    {
      if Mentioned(q, regions[k]) {
        return Some(regions[k]);
      }
      assert regions[k..][1..] == regions[k + 1..];
      k := k + 1;
    }
    return None;
  }

  // ---------------------------------------------------------------
  // What each rule answers
  // ---------------------------------------------------------------

  /** A rule that fires while no rule tried before it does is the one selected. */
  lemma Selects(q: string, t: Table, rule: Rule)
    requires Fires(rule, q, t)
    requires Priority(rule) > 0 ==> !Fires(PeakYearRule, q, t)
    requires Priority(rule) > 1 ==> !Fires(TopRegionsRule, q, t)
    requires Priority(rule) > 2 ==> !Fires(LatestRule, q, t)
    requires Priority(rule) > 3 ==> !Fires(EvInfoRule, q, t)
    requires Priority(rule) > 4 ==> !Fires(YearRule, q, t)
    requires Priority(rule) > 5 ==> !Fires(RegionRule, q, t)
    ensures SelectRule(q, t) == rule
  {
  }

  lemma AnswerBy(query: string, t: Table, rule: Rule)
    requires SelectRule(ToLower(query), t) == rule
    ensures Fires(rule, ToLower(query), t)
    ensures Answer(query, Some(t)) == Respond(rule, ToLower(query), t)
  {
  }

  /**
   * With a superlative word and "year", the answer names the peak year and its
   * sum, whatever else the query says; an empty view raises.
   */
  lemma PeakYearAnswer(query: string, t: Table)
    requires ContainsAny(ToLower(query), PeakWords) && Contains(ToLower(query), "year")
    ensures SelectRule(ToLower(query), t) == PeakYearRule
    ensures |t| == 0 ==> Answer(query, Some(t)) == Failure(EmptyArgmax)
    ensures |t| > 0 ==> exists y :: IsPeakYear(t, y) && Answer(query, Some(t)) == Success(PeakYearText(y, YearTotal(t, y)))
  {
    assert Fires(PeakYearRule, ToLower(query), t);
    AnswerBy(query, t, PeakYearRule);
    if |t| > 0 {
      assert IsPeakYear(t, PeakYear(t));
    }
  }

  /**
   * Otherwise a superlative word lists the top N regions by sum (N from
   * `top <digits>`, 1 by default); N == 1 gives one sentence.
   */
  lemma TopRegionsAnswer(query: string, t: Table)
    requires !Fires(PeakYearRule, ToLower(query), t) && ContainsAny(ToLower(query), SuperlativeWords)
    ensures TopCountTooLong(ToLower(query)) ==> Answer(query, Some(t)) == Failure(DigitLimit)
    ensures var n := TopCount(ToLower(query));
      !TopCountTooLong(ToLower(query)) ==>
        exists top :: IsTopRanking(t, n, top)
          && Answer(query, Some(t)) ==
               if n != 1 then Success(TopHeader(n) + Listing(top))
               else if top == [] then Failure(NoTopRegion)
               else Success(SingleRegionText(top[0]))
  {
    var q := ToLower(query);
    Selects(q, t, TopRegionsRule);
    AnswerBy(query, t, TopRegionsRule);
    TopRegionsRanking(t, TopCount(q));
  }

  /** The latest-year rule reports the largest year present and the sum of exactly its rows. */
  lemma LatestAnswer(query: string, t: Table)
    requires !Fires(PeakYearRule, ToLower(query), t) && !Fires(TopRegionsRule, ToLower(query), t)
    requires ContainsAny(ToLower(query), LatestWords)
    ensures |t| == 0 ==> Answer(query, Some(t)) == Success(LatestText("nan", 0))
    ensures |t| > 0 ==> exists y ::
      (exists i :: 0 <= i < |t| && t[i].year == y) && (forall i :: 0 <= i < |t| ==> t[i].year <= y)
      && Answer(query, Some(t)) == Success(LatestText(IntToString(y), YearTotal(t, y)))
  {
    var q := ToLower(query);
    Selects(q, t, LatestRule);
    AnswerBy(query, t, LatestRule);
    if |t| > 0 {
      var y := MaxYear(t);
      assert Answer(query, Some(t)) == Success(LatestText(IntToString(y), YearTotal(t, y)));
    }
  }

  /** The EV explanation does not depend on the data. */
  lemma EvInfoAnswer(query: string, t1: Table, t2: Table)
    requires var q := ToLower(query);
      !Fires(PeakYearRule, q, t1) && !Fires(TopRegionsRule, q, t1) && !Fires(LatestRule, q, t1)
      && ContainsAny(q, EvInfoPhrases)
    ensures Answer(query, Some(t1)) == Answer(query, Some(t2)) == Success(EvInfoText)
  {
    var q := ToLower(query);
    Selects(q, t1, EvInfoRule);
    Selects(q, t2, EvInfoRule);
    AnswerBy(query, t1, EvInfoRule);
    AnswerBy(query, t2, EvInfoRule);
  }

  /**
   * A standalone `20dd` token is answered with that year's sum, or with the
   * no-data text when the sum is not positive.
   */
  lemma YearAnswer(query: string, t: Table, year: int)
    requires var q := ToLower(query);
      !Fires(PeakYearRule, q, t) && !Fires(TopRegionsRule, q, t) && !Fires(LatestRule, q, t)
      && !Fires(EvInfoRule, q, t) && YearToken(q) == Some(year)
    ensures YearTotal(t, year) > 0 ==> Answer(query, Some(t)) == Success(YearText(year, YearTotal(t, year)))
    ensures YearTotal(t, year) <= 0 ==> Answer(query, Some(t)) == Success(NoYearText(year))
  {
    var q := ToLower(query);
    Selects(q, t, YearRule);
    AnswerBy(query, t, YearRule);
  }

  /**
   * A query naming a region gets the sum of the region of the earliest row
   * whose region name, lower-cased, occurs in the query.
   */
  lemma RegionAnswer(query: string, t: Table)
    requires var q := ToLower(query);
      !Fires(PeakYearRule, q, t) && !Fires(TopRegionsRule, q, t) && !Fires(LatestRule, q, t)
      && !Fires(EvInfoRule, q, t) && !Fires(YearRule, q, t)
    ensures var q := ToLower(query);
      (forall i :: 0 <= i < |t| ==> !Mentioned(q, t[i].region)) ==> Answer(query, Some(t)) == Success(FallbackText)
    ensures var q := ToLower(query);
      forall i :: 0 <= i < |t| && Mentioned(q, t[i].region) && (forall j :: 0 <= j < i ==> !Mentioned(q, t[j].region))
        ==> Answer(query, Some(t)) == Success(RegionText(t[i].region, RegionTotal(t, t[i].region)))
  {
    var q := ToLower(query);
    var names := RegionColumn(t);
    FirstMentionedEarliest(q, names);
    if FirstMentioned(q, names).Some? {
      Selects(q, t, RegionRule);
      AnswerBy(query, t, RegionRule);
      forall i | 0 <= i < |t| && Mentioned(q, t[i].region) && (forall j :: 0 <= j < i ==> !Mentioned(q, t[j].region))
        ensures Answer(query, Some(t)) == Success(RegionText(t[i].region, RegionTotal(t, t[i].region)))
      {
        FirstMentionedRow(q, t, i);
      }
    } else {
      Selects(q, t, FallbackRule);
      AnswerBy(query, t, FallbackRule);
    }
  }

  /** The earliest row whose region q mentions names the region the scan finds. */
  lemma FirstMentionedRow(q: string, t: Table, i: nat)
    requires i < |t| && Mentioned(q, t[i].region)
    requires forall j :: 0 <= j < i ==> !Mentioned(q, t[j].region)
    ensures FirstMentioned(q, RegionColumn(t)) == Some(t[i].region)
  {
    var names := RegionColumn(t);
    FirstMentionedEarliest(q, names);
    assert forall j :: 0 <= j < i ==> names[j] == t[j].region;
  }
}
