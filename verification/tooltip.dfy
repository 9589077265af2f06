/** The hover tooltip of scripts/delete-tooltip.js: which elements qualify,
    what financial analysis is shown for them, how it is laid out, and where
    the tooltip is placed. */
module Tooltip {
  import opened Wrappers
  import opened JsText
  import opened FinancialPatterns
  import opened SeqUtil

  /** The hovered DOM element, as far as the detector reads it. */
  datatype Element = Element(tagName: string, textContent: string)

  /** `defaultIncludeTags`. */
  const DefaultIncludeTags: seq<string> := ["P", "A", "LI", "H1", "H2", "H3", "H4", "H5", "H6", "SPAN", "DIV"]

  /** `userConfig`: the flags of the default object, the tag list, and the
      `showText` flag a saved configuration adds. */
  datatype Config = Config(
    showAnalysis: bool,
    showMetrics: bool,
    showSentiment: bool,
    includeTags: seq<string>,
    showText: Option<bool>)

  const DefaultConfig: Config := Config(true, true, true, DefaultIncludeTags, None)

  /** The `tooltipConfig` object the options page stores (a field is `None`
      when the stored object lacks it). */
  datatype StoredConfig = StoredConfig(showText: Option<bool>, includeTags: Option<seq<string>>)

  /** `{...userConfig, ...result.tooltipConfig}`: every field the stored object
      has replaces the current one; an absent object changes nothing. */
  function MergeStored(cfg: Config, stored: Option<StoredConfig>): (r: Config)
    ensures stored.None? ==> r == cfg
    ensures r.showAnalysis == cfg.showAnalysis && r.showMetrics == cfg.showMetrics
    ensures r.showSentiment == cfg.showSentiment
    ensures stored.Some? && stored.value.includeTags.Some? ==> r.includeTags == stored.value.includeTags.value
    ensures stored.Some? && stored.value.includeTags.None? ==> r.includeTags == cfg.includeTags
    ensures stored.Some? && stored.value.showText.Some? ==> r.showText == stored.value.showText
    ensures stored.Some? && stored.value.showText.None? ==> r.showText == cfg.showText
  {
    match stored
    case None => cfg
    case Some(st) =>
      cfg.(includeTags := st.includeTags.GetOr(cfg.includeTags),
           showText := if st.showText.Some? then st.showText else cfg.showText)
  }

  /** The text half of the tooltip test: a price match somewhere, a
      percentage match somewhere, or a listed term, ignoring case. */
  ghost predicate HasFinancialSignal(t: string) {
    || MatchesSomewhere(Price, t)
    || MatchesSomewhere(Percentage, t)
    || MentionsAny(t, FinancialTerms)
  }

  /** `shouldShowTooltip`: the tag must be listed, whatever the text; then the
      trimmed text must carry a price, a percentage or a term. */
  function ShouldShowTooltip(cfg: Config, el: Element): (r: bool)
    ensures el.tagName !in cfg.includeTags ==> !r
    ensures el.tagName in cfg.includeTags ==> (r <==> HasFinancialSignal(Trim(el.textContent)))
  {
    if el.tagName !in cfg.includeTags then false
    else
      var text := Trim(el.textContent);
      || Test(Price, text)
      || Test(Percentage, text)
      || MentionsAny(text, FinancialTerms)
  }

  datatype Sentiment = Positive | Negative | Neutral

  /** The analysis object; `sentiment` is never left `null` by the analyser. */
  datatype Analysis = Analysis(
    metrics: seq<string>,
    terms: seq<string>,
    sentiment: Sentiment,
    suggestion: Option<string>)

  /** The metric lines: the first price match, then the first percentage
      match, each only when there is one. */
  function Metrics(t: string): (m: seq<string>)
    ensures |m| == (if Test(Price, t) then 1 else 0) + (if Test(Percentage, t) then 1 else 0)
    ensures Test(Price, t) ==> m[0] == "Price: " + FirstMatch(Price, t).value
    ensures Test(Percentage, t) ==> m[|m| - 1] == "Change: " + FirstMatch(Percentage, t).value
  {
    (match FirstMatch(Price, t)
     case Some(p) => ["Price: " + p]
     case None => [])
    +
    (match FirstMatch(Percentage, t)
     case Some(q) => ["Change: " + q]
     case None => [])
  }

  /** The keyword sentiment: the positive words are tried first. */
  function SentimentOf(t: string): (r: Sentiment)
    ensures r == Positive <==> MentionsAny(t, PositiveWords)
    ensures r == Negative <==> !MentionsAny(t, PositiveWords) && MentionsAny(t, NegativeWords)
    ensures r == Neutral <==> !MentionsAny(t, PositiveWords) && !MentionsAny(t, NegativeWords)
  {
    if MentionsAny(t, PositiveWords) then Positive
    else if MentionsAny(t, NegativeWords) then Negative
    else Neutral
  }

  const StockTip: string := "\U{1F4A1} Consider checking company fundamentals and market trends"
  const CryptoTip: string := "\U{1F4A1} High volatility asset - ensure proper risk management"
  const DividendTip: string := "\U{1F4A1} Review dividend history and payout ratio"
  const GenericTip: string := "\U{1F4A1} Click for detailed financial analysis"

  /** `generateSuggestion`: the first of stock, crypto, dividend that was
      found picks the advice; otherwise the generic one. */
  function GenerateSuggestion(terms: seq<string>): (r: string)
    ensures r in {StockTip, CryptoTip, DividendTip, GenericTip}
    ensures "stock" in terms <==> r == StockTip
    ensures r == CryptoTip <==> "stock" !in terms && "crypto" in terms
    ensures r == DividendTip <==> "stock" !in terms && "crypto" !in terms && "dividend" in terms
    ensures r == GenericTip <==> "stock" !in terms && "crypto" !in terms && "dividend" !in terms
  {
    if "stock" in terms then StockTip
    else if "crypto" in terms then CryptoTip
    else if "dividend" in terms then DividendTip
    else GenericTip
  }

  /** `analyzeFinancialContent`: `None` (the source's `null`) when the trimmed
      text has neither a metric nor a term. */
  function Analyze(el: Element): (r: Option<Analysis>)
    ensures var t := Trim(el.textContent);
            && (r.Some? <==> HasFinancialSignal(t))
            && (r.Some? ==>
                  && r.value.metrics == Metrics(t)
                  && r.value.terms == TermsFound(FinancialTerms, t)
                  && r.value.sentiment == SentimentOf(t)
                  && (r.value.suggestion.Some? <==> |r.value.terms| > 0)
                  && (r.value.suggestion.Some? ==> r.value.suggestion.value == GenerateSuggestion(r.value.terms)))
  {
    var t := Trim(el.textContent);
    var metrics := Metrics(t);
    var terms := TermsFound(FinancialTerms, t);
    var suggestion := if |terms| > 0 then Some(GenerateSuggestion(terms)) else None;
    TermsFoundNonEmpty(FinancialTerms, t);
    if |metrics| > 0 || |terms| > 0 then
      Some(Analysis(metrics, terms, SentimentOf(t), suggestion))
    else
      None
  }

  /** Whenever the tooltip test passes, the analyser has something to show;
      for a listed tag the two agree exactly. */
  lemma ShouldShowMeansAnalysis(cfg: Config, el: Element)
    ensures ShouldShowTooltip(cfg, el) ==> Analyze(el).Some?
    ensures el.tagName in cfg.includeTags ==> (ShouldShowTooltip(cfg, el) <==> Analyze(el).Some?)
  {
  }

  /** The analysed terms are listed terms, without repeats, in list order. */
  lemma AnalysisTermsAreListed(el: Element)
    requires Analyze(el).Some?
    ensures forall t :: t in Analyze(el).value.terms ==> t in FinancialTerms
    ensures NoDuplicates(Analyze(el).value.terms)
    ensures SubsequenceOf(Analyze(el).value.terms, FinancialTerms)
  {
    FinancialTermsDistinct();
  }

  /** Text with both "bull" and "bear" reads as positive. */
  lemma BullBeatsBear(t: string)
    requires ContainsIgnoringCase(t, "bull") && ContainsIgnoringCase(t, "bear")
    ensures SentimentOf(t) == Positive
  {
    assert PositiveWords[5] == "bull";
  }

  const SentimentColor: map<Sentiment, string> :=
    map[Positive := "#4caf50", Negative := "#f44336", Neutral := "#9e9e9e"]

  function MetricsSection(metrics: seq<string>): string {
    "<div class=\"metrics\">" + Join(metrics, " | ") + "</div>"
  }

  function TermsSection(terms: seq<string>): string {
    "<div class=\"terms\">Related: " + Join(terms, ", ") + "</div>"
  }

  function SentimentSection(s: Sentiment): string {
    var name := match s case Positive => "Positive" case Negative => "Negative" case Neutral => "Neutral";
    "<div class=\"sentiment\" style=\"color: " + SentimentColor[s] + "\">Sentiment: " + name + "</div>"
  }

  function SuggestionSection(tip: string): string {
    "<div class=\"suggestion\">" + tip + "</div>"
  }

  /** The sections of the tooltip in display order: metrics and terms when
      non-empty, the sentiment always, the suggestion when there is one. */
  function Sections(a: Analysis): (secs: seq<string>)
    ensures var lead := (if |a.metrics| > 0 then 1 else 0) + (if |a.terms| > 0 then 1 else 0);
            && |secs| == lead + 1 + (if a.suggestion.Some? then 1 else 0)
            && secs[lead] == SentimentSection(a.sentiment)
            && (|a.metrics| > 0 ==> secs[0] == MetricsSection(a.metrics))
            && (|a.terms| > 0 ==> secs[lead - 1] == TermsSection(a.terms))
            && (a.suggestion.Some? ==> secs[|secs| - 1] == SuggestionSection(a.suggestion.value))
  {
    (if |a.metrics| > 0 then [MetricsSection(a.metrics)] else [])
    + (if |a.terms| > 0 then [TermsSection(a.terms)] else [])
    + [SentimentSection(a.sentiment)]
    + (if a.suggestion.Some? then [SuggestionSection(a.suggestion.value)] else [])
  }

  /** `buildTooltipContent`: the sections joined by `<br>`. The sentiment
      section is always there, so the tooltip is never empty; the metrics come
      first and the suggestion last when they are present. */
  function BuildTooltipContent(a: Analysis): (html: string)
    ensures |html| > 0
    ensures Contains(html, SentimentSection(a.sentiment))
    ensures |a.metrics| > 0 ==> OccursAt(html, 0, MetricsSection(a.metrics))
    ensures |a.metrics| == 0 && |a.terms| == 0 ==> OccursAt(html, 0, SentimentSection(a.sentiment))
    ensures a.suggestion.Some? ==>
              |html| >= |SuggestionSection(a.suggestion.value)|
              && OccursAt(html, |html| - |SuggestionSection(a.suggestion.value)|, SuggestionSection(a.suggestion.value))
    ensures |a.terms| > 0 ==> Contains(html, TermsSection(a.terms))
    ensures |a.metrics| > 0 ==> OccursAt(html, |MetricsSection(a.metrics)|, "<br>")
    ensures html == Join(Sections(a), "<br>")
  {
    var secs := Sections(a);
    JoinedSections(secs, |a.metrics| > 0, |a.terms| > 0, a.suggestion.Some?, MetricsSection(a.metrics),
                   TermsSection(a.terms), SentimentSection(a.sentiment),
                   if a.suggestion.Some? then SuggestionSection(a.suggestion.value) else "");
    Join(secs, "<br>")
  }

  /** Where each section sits in the joined sections, given where it sits in
      the list: metrics `m` first and terms `t` next when present, the
      sentiment `snt` after them, the suggestion `sg` last when present. */
  lemma JoinedSections(secs: seq<string>, hasMetrics: bool, hasTerms: bool, hasTip: bool, m: string, t: string, snt: string, sg: string)
    requires var lead := (if hasMetrics then 1 else 0) + (if hasTerms then 1 else 0);
             && |secs| == lead + 1 + (if hasTip then 1 else 0)
             && secs[lead] == snt
             && (hasMetrics ==> secs[0] == m)
             && (hasTerms ==> secs[lead - 1] == t)
             && (hasTip ==> secs[|secs| - 1] == sg)
    ensures var html := Join(secs, "<br>");
            && |html| >= |snt|
            && Contains(html, snt)
            && (hasMetrics ==> OccursAt(html, 0, m) && OccursAt(html, |m|, "<br>"))
            && (!hasMetrics && !hasTerms ==> OccursAt(html, 0, snt))
            && (hasTip ==> |html| >= |sg| && OccursAt(html, |html| - |sg|, sg))
            && (hasTerms ==> Contains(html, t))
  {
    var html := Join(secs, "<br>");
    var lead := (if hasMetrics then 1 else 0) + (if hasTerms then 1 else 0);
    JoinShowsEveryPart(secs, "<br>");
    assert Contains(html, secs[lead]);
    if hasTerms {
      assert Contains(html, secs[lead - 1]);
    }
    if hasMetrics {
      JoinSeparatesFirst(secs, "<br>");
    }
    if lead == 0 {
      assert |html| >= |secs[0]|;
    } else {
      ContainsLength(html, snt);
    }
  }

  lemma ContainsLength(s: string, sub: string)
    requires Contains(s, sub)
    ensures |s| >= |sub|
  {
  }

  /** In a join of two or more parts the separator follows the first part. */
  lemma JoinSeparatesFirst(parts: seq<string>, sep: string)
    requires |parts| >= 2
    ensures OccursAt(Join(parts, sep), |parts[0]|, sep)
  {
    var j := Join(parts, sep);
    assert j == parts[0] + sep + Join(parts[1..], sep);
    assert j[|parts[0]|..|parts[0]| + |sep|] == sep;
  }

  /** Every part of a join sits in it; the first starts it and the last ends it. */
  lemma {:induction false} JoinShowsEveryPart(parts: seq<string>, sep: string)
    requires |parts| >= 1
    ensures |Join(parts, sep)| >= |parts[0]|
    ensures forall k :: 0 <= k < |parts| ==> Contains(Join(parts, sep), parts[k])
    ensures OccursAt(Join(parts, sep), 0, parts[0])
    ensures var j := Join(parts, sep); |j| >= |parts[|parts| - 1]| && OccursAt(j, |j| - |parts[|parts| - 1]|, parts[|parts| - 1])
    decreases |parts|
  {
    var j := Join(parts, sep);
    if |parts| == 1 {
      assert OccursAt(j, 0, parts[0]);
    } else {
      var pre := parts[0] + sep;
      var rest := Join(parts[1..], sep);
      JoinShowsEveryPart(parts[1..], sep);
      assert j == pre + rest;
      OccursFirst(parts[0], sep, rest);
      forall k | 1 <= k < |parts| ensures Contains(j, parts[k]) {
        assert parts[k] == parts[1..][k - 1];
        ContainsShifted(pre, rest, parts[k]);
      }
      var last := parts[|parts| - 1];
      assert last == parts[1..][|parts[1..]| - 1];
      OccursShifted(pre, rest, |rest| - |last|, last);
    }
  }

  lemma OccursFirst(a: string, b: string, c: string)
    ensures OccursAt(a + b + c, 0, a)
  {
    assert (a + b + c)[0..|a|] == a;
  }

  /** An occurrence in `rest` is one in `pre + rest`, moved by `|pre|`. */
  lemma OccursShifted(pre: string, rest: string, i: nat, x: string)
    requires OccursAt(rest, i, x)
    ensures OccursAt(pre + rest, |pre| + i, x)
  {
    assert (pre + rest)[|pre| + i..|pre| + i + |x|] == rest[i..i + |x|];
  }

  lemma ContainsShifted(pre: string, rest: string, x: string)
    requires Contains(rest, x)
    ensures Contains(pre + rest, x)
  {
    var i :| 0 <= i <= |rest| - |x| && OccursAt(rest, i, x);
    OccursShifted(pre, rest, i, x);
  }

  /** `positionTooltip` with `offset = 15`: right of and below the cursor,
      flipped to the left of (above) it when the tooltip would cross the
      window's right (bottom) edge. Nothing clamps the result to the window. */
  function PositionTooltip(pageX: int, pageY: int, width: nat, height: nat, windowWidth: int, windowHeight: int): (pos: (int, int))
    ensures pos.0 == pageX + 15 <==> pageX + 15 + width <= windowWidth
    ensures pos.0 != pageX + 15 ==> pos.0 + width + 15 == pageX
    ensures pos.1 == pageY + 15 <==> pageY + 15 + height <= windowHeight
    ensures pos.1 != pageY + 15 ==> pos.1 + height + 15 == pageY
  {
    var offset := 15;
    var left := if pageX + offset + width > windowWidth then pageX - width - offset else pageX + offset;
    var top := if pageY + offset + height > windowHeight then pageY - height - offset else pageY + offset;
    (left, top)
  }
}
