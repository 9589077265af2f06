/** The hover detector's text patterns (`financialPatterns` in
    scripts/delete-tooltip.js) as hand-written matchers with the semantics of
    JavaScript regular expressions: greedy quantifiers, backtracking,
    leftmost matches, and ASCII-only case folding for the `i` flag. */
module FinancialPatterns {
  import opened Wrappers
  import opened JsText
  import opened SeqUtil

  // ---------------------------------------------------------------------------
  // Runs of one character class
  // ---------------------------------------------------------------------------

  /** The end of the longest run of `\s` characters of `s` starting at `i`. */
  function SpaceRunEnd(s: string, i: nat): (e: nat)
    requires i <= |s|
    ensures i <= e <= |s|
    ensures forall k :: i <= k < e ==> IsWhitespace(s[k])
    ensures e == |s| || !IsWhitespace(s[e])
    decreases |s| - i
  {
    if i < |s| && IsWhitespace(s[i]) then SpaceRunEnd(s, i + 1) else i
  }

  ghost predicate AllSpaces(s: string, lo: nat, hi: nat)
    requires lo <= hi <= |s|
  {
    forall k :: lo <= k < hi ==> IsWhitespace(s[k])
  }

  /** A run of a class that stops where the class stops is the longest run. */
  lemma SpaceRunEndAt(s: string, i: nat, j: nat)
    requires i <= j <= |s| && AllSpaces(s, i, j)
    requires j == |s| || !IsWhitespace(s[j])
    ensures SpaceRunEnd(s, i) == j
  {
    var e := SpaceRunEnd(s, i);
  }

  // ---------------------------------------------------------------------------
  // The number body `\d+\.?\d*` and its trailing `\s*`
  // ---------------------------------------------------------------------------

  /** Greedy `\d+\.?\d*` at `i`: all digits, then a dot if one follows, then
      all digits again. */
  function NumberEnd(s: string, i: nat): (r: Option<nat>)
    requires i <= |s|
    ensures r.Some? <==> i < |s| && IsDigit(s[i])
    ensures r.Some? ==> i < r.value <= |s| && (r.value == |s| || !IsDigit(s[r.value]))
  {
    if i < |s| && IsDigit(s[i]) then
      var a := DigitRunEnd(s, i);
      var b := if a < |s| && s[a] == '.' then a + 1 else a;
      Some(DigitRunEnd(s, b))
    else
      None
  }

  /** Greedy `\d+\.?\d*\s*` at `i`. */
  function NumberSpacesEnd(s: string, i: nat): (r: Option<nat>)
    requires i <= |s|
    ensures r.Some? <==> i < |s| && IsDigit(s[i])
    ensures r.Some? ==> i < r.value <= |s|
  {
    match NumberEnd(s, i)
    case Some(c) => Some(SpaceRunEnd(s, c))
    case None => None
  }

  /** One way of reading `s[i..d]` as `\d+\.?\d*\s*`: the digits `s[i..a]`,
      the optional dot `s[a..b]`, the digits `s[b..c]` and the spaces `s[c..d]`. */
  ghost predicate NumberSpacesSplit(s: string, i: nat, a: nat, b: nat, c: nat, d: nat) {
    && i < a <= b <= c <= d <= |s|
    && AllDigits(s, i, a)
    && (b == a || (b == a + 1 && s[a] == '.'))
    && AllDigits(s, b, c)
    && AllSpaces(s, c, d)
  }

  /** The greedy reading is one of the readings, and it stops before a
      character that could extend it. */
  lemma NumberSpacesEndSound(s: string, i: nat)
    requires i <= |s| && NumberSpacesEnd(s, i).Some?
    ensures exists a: nat, b: nat, c: nat :: NumberSpacesSplit(s, i, a, b, c, NumberSpacesEnd(s, i).value)
  {
    var a := DigitRunEnd(s, i);
    var b := if a < |s| && s[a] == '.' then a + 1 else a;
    var c := DigitRunEnd(s, b);
    assert NumberSpacesSplit(s, i, a, b, c, NumberSpacesEnd(s, i).value);
  }

  /** Backtracking cannot find another reading: every reading followed by a
      character outside `\d`, `.` and `\s` is the greedy one. So for a pattern
      that continues with such a character (a currency code, `%`), the greedy
      attempt is the only one that can succeed. */
  lemma NumberSpacesEndComplete(s: string, i: nat, a: nat, b: nat, c: nat, d: nat)
    requires NumberSpacesSplit(s, i, a, b, c, d)
    requires d < |s| && !IsDigit(s[d]) && s[d] != '.' && !IsWhitespace(s[d])
    ensures NumberSpacesEnd(s, i) == Some(d)
  {
    if b == a + 1 {
      DigitRunEndAt(s, i, a);
      DigitRunEndAt(s, b, c);
      SpaceRunEndAt(s, c, d);
    } else {
      assert AllDigits(s, i, c) by {
        forall k | i <= k < c ensures IsDigit(s[k]) {
          if k >= a { assert b <= k < c; }
        }
      }
      DigitRunEndAt(s, i, c);
      DigitRunEndAt(s, c, c);
      SpaceRunEndAt(s, c, d);
    }
  }

  // ---------------------------------------------------------------------------
  // The two metric patterns
  // ---------------------------------------------------------------------------

  /** The currency codes of the price pattern. */
  const Currencies: seq<string> := ["USD", "EUR", "GBP", "JPY", "INR"]

  /** `(USD|EUR|GBP|JPY|INR)` at `d` under the `i` flag. */
  predicate CurrencyAt(s: string, d: nat) {
    d + 3 <= |s| && ToUpper(s[d..d + 3]) in Currencies
  }

  lemma CurrencyStartsWithLetter(s: string, d: nat)
    requires CurrencyAt(s, d)
    ensures !IsDigit(s[d]) && s[d] != '.' && !IsWhitespace(s[d])
  {
    assert ToUpper(s[d..d + 3])[0] == UpperChar(s[d]);
  }

  predicate IsSign(c: char) {
    c == '-' || c == '+'
  }

  /** `/\$\d+\.?\d*|\d+\.?\d*\s*(USD|EUR|GBP|JPY|INR)/i` tried at `i`: the end
      of the match, if any. The first alternative needs `$`, the second a
      digit, so at most one of them can start at `i`. */
  function PriceAt(s: string, i: nat): (r: Option<nat>)
    requires i <= |s|
    ensures r.Some? ==> i < r.value <= |s|
  {
    if i + 1 < |s| && s[i] == '$' && IsDigit(s[i + 1]) then
      NumberEnd(s, i + 1)
    else
      match NumberSpacesEnd(s, i)
      case Some(d) => if CurrencyAt(s, d) then Some(d + 3) else None
      case None => None
  }

  /** `/[-+]?\d+\.?\d*\s*%/` tried at `i`: the sign is taken when present
      (leaving it would leave a sign where `\d` is needed). */
  function PercentAt(s: string, i: nat): (r: Option<nat>)
    requires i <= |s|
    ensures r.Some? ==> i < r.value <= |s|
    ensures r.Some? ==> s[r.value - 1] == '%'
  {
    var j := if i < |s| && IsSign(s[i]) then i + 1 else i;
    match NumberSpacesEnd(s, j)
    case Some(d) => if d < |s| && s[d] == '%' then Some(d + 1) else None
    case None => None
  }

  /** The reading of `s[i..e]` as a currency amount by the second alternative. */
  ghost predicate CodedPriceShape(s: string, i: nat, e: nat) {
    exists a: nat, b: nat, c: nat, d: nat :: NumberSpacesSplit(s, i, a, b, c, d) && CurrencyAt(s, d) && e == d + 3
  }

  /** The readings of `s[i..e]` as a percentage. */
  ghost predicate PercentShape(s: string, i: nat, e: nat) {
    exists j: nat, a: nat, b: nat, c: nat, d: nat :: PercentReading(s, i, e, j, a, b, c, d)
  }

  /** One reading of `s[i..e]` as a percentage: an optional sign up to `j`,
      the number and spaces up to `d`, and the `%`. */
  ghost predicate PercentReading(s: string, i: nat, e: nat, j: nat, a: nat, b: nat, c: nat, d: nat) {
    && (j == i || (j == i + 1 && i < |s| && IsSign(s[i])))
    && NumberSpacesSplit(s, j, a, b, c, d)
    && d < |s| && s[d] == '%' && e == d + 1
  }

  /** The percentage matcher finds a match at `i` exactly when the pattern has
      some reading there, and that reading is the one it returns. */
  lemma PercentAtMeansShape(s: string, i: nat, e: nat)
    requires i <= |s|
    ensures PercentAt(s, i) == Some(e) <==> PercentShape(s, i, e)
  {
    if PercentAt(s, i) == Some(e) {
      PercentAtSound(s, i, e);
    }
    if PercentShape(s, i, e) {
      PercentAtComplete(s, i, e);
    }
  }

  lemma PercentAtSound(s: string, i: nat, e: nat)
    requires i <= |s| && PercentAt(s, i) == Some(e)
    ensures PercentShape(s, i, e)
  {
    var j := if i < |s| && IsSign(s[i]) then i + 1 else i;
    var d := NumberSpacesEnd(s, j).value;
    NumberSpacesEndSound(s, j);
    var a: nat, b: nat, c: nat :| NumberSpacesSplit(s, j, a, b, c, d);
    assert PercentReading(s, i, e, j, a, b, c, d);
  }

  lemma PercentAtComplete(s: string, i: nat, e: nat)
    requires i <= |s| && PercentShape(s, i, e)
    ensures PercentAt(s, i) == Some(e)
  {
    var j := if i < |s| && IsSign(s[i]) then i + 1 else i;
    var j': nat, a: nat, b: nat, c: nat, d: nat :| PercentReading(s, i, e, j', a, b, c, d);
    assert j' == j;
    NumberSpacesEndComplete(s, j, a, b, c, d);
  }

  /** Likewise for the currency-code alternative of the price pattern, at a
      position that does not hold `$`. */
  lemma CodedPriceAtMeansShape(s: string, i: nat, e: nat)
    requires i < |s| && s[i] != '$'
    ensures PriceAt(s, i) == Some(e) <==> CodedPriceShape(s, i, e)
  {
    if PriceAt(s, i) == Some(e) {
      CodedPriceSound(s, i, e);
    }
    if CodedPriceShape(s, i, e) {
      CodedPriceComplete(s, i, e);
    }
  }

  lemma CodedPriceSound(s: string, i: nat, e: nat)
    requires i < |s| && s[i] != '$' && PriceAt(s, i) == Some(e)
    ensures CodedPriceShape(s, i, e)
  {
    NumberSpacesEndSound(s, i);
  }

  lemma CodedPriceComplete(s: string, i: nat, e: nat)
    requires i < |s| && s[i] != '$' && CodedPriceShape(s, i, e)
    ensures PriceAt(s, i) == Some(e)
  {
    var a: nat, b: nat, c: nat, d: nat :| NumberSpacesSplit(s, i, a, b, c, d) && CurrencyAt(s, d) && e == d + 3;
    CurrencyStartsWithLetter(s, d);
    NumberSpacesEndComplete(s, i, a, b, c, d);
  }

  /** The `$` alternative takes the longest `$`-number it can: the digits,
      a following dot, and the digits after it. */
  lemma DollarPriceIsLongest(s: string, i: nat)
    requires i + 1 < |s| && s[i] == '$' && IsDigit(s[i + 1])
    ensures PriceAt(s, i).Some?
    ensures var e := PriceAt(s, i).value;
            && i + 1 < e <= |s|
            && (e == |s| || !IsDigit(s[e]))
            && exists a :: i + 1 < a <= e && AllDigits(s, i + 1, a)
                           && (a == e || (s[a] == '.' && AllDigits(s, a + 1, e)))
                           && (a < |s| && s[a] == '.' ==> a < e)
  {
    var e := PriceAt(s, i).value;
    var a := DigitRunEnd(s, i + 1);
    if a < |s| && s[a] == '.' {
      assert e == DigitRunEnd(s, a + 1);
    } else {
      assert e == DigitRunEnd(s, a) == a;
    }
    assert AllDigits(s, i + 1, a);
  }

  // ---------------------------------------------------------------------------
  // Leftmost search: `test` and `match` with a non-global pattern
  // ---------------------------------------------------------------------------

  datatype Pattern = Price | Percentage

  function MatchAt(p: Pattern, s: string, i: nat): (r: Option<nat>)
    requires i <= |s|
    ensures r.Some? ==> i < r.value <= |s|
  {
    match p
    case Price => PriceAt(s, i)
    case Percentage => PercentAt(s, i)
  }

  /** The leftmost match of `p` starting at or after `i`: its start and end. */
  function FirstMatchFrom(p: Pattern, s: string, i: nat): (r: Option<(nat, nat)>)
    requires i <= |s|
    ensures r.Some? ==> i <= r.value.0 < r.value.1 <= |s| && MatchAt(p, s, r.value.0) == Some(r.value.1)
    ensures r.Some? ==> forall k :: i <= k < r.value.0 ==> MatchAt(p, s, k).None?
    ensures r.None? ==> forall k :: i <= k <= |s| ==> MatchAt(p, s, k).None?
  {
    Leftmost(Matcher(p, s), |s|, i)
  }

  /** `MatchAt` for one pattern and one text, as a function of the position. */
  function Matcher(p: Pattern, s: string): (find: nat -> Option<nat>)
    ensures forall k: nat :: k <= |s| ==> find(k) == MatchAt(p, s, k)
  {
    (k: nat) => if k <= |s| then MatchAt(p, s, k) else None
  }

  /** The first position from `i` to `n` at which `find` reports a match,
      with the end `find` gives for it. */
  function Leftmost(find: nat -> Option<nat>, n: nat, i: nat): (r: Option<(nat, nat)>)
    requires i <= n
    ensures r.Some? ==> i <= r.value.0 <= n && find(r.value.0) == Some(r.value.1)
    ensures r.Some? ==> forall k :: i <= k < r.value.0 ==> find(k).None?
    ensures r.None? ==> forall k :: i <= k <= n ==> find(k).None?
    decreases n - i
  {
    var m := find(i);
    if m.Some? then Some((i, m.value))
    else if i == n then None
    else Leftmost(find, n, i + 1)
  }

  /** Some position of `s` starts a match of `p`. */
  ghost predicate MatchesSomewhere(p: Pattern, s: string) {
    exists k :: 0 <= k <= |s| && MatchAt(p, s, k).Some?
  }

  /** `text.match(p)[0]`, or nothing when the pattern does not occur. */
  function FirstMatch(p: Pattern, s: string): (r: Option<string>)
    ensures r.Some? <==> MatchesSomewhere(p, s)
    ensures r.Some? ==> exists k :: 0 <= k <= |s| && MatchAt(p, s, k).Some?
                                   && r.value == s[k..MatchAt(p, s, k).value]
                                   && forall k' :: 0 <= k' < k ==> MatchAt(p, s, k').None?
  {
    match FirstMatchFrom(p, s, 0)
    case Some((st, e)) => Some(s[st..e])
    case None => None
  }

  /** `p.test(text)`. */
  predicate Test(p: Pattern, s: string) {
    FirstMatch(p, s).Some?
  }

  // ---------------------------------------------------------------------------
  // Keyword lists
  // ---------------------------------------------------------------------------

  /** `financialPatterns.financialTerms`. */
  const FinancialTerms: seq<string> := [
    "stock", "price", "market", "trade", "buy", "sell",
    "bull", "bear", "dividend", "yield", "investment",
    "portfolio", "equity", "fund", "asset", "bond",
    "crypto", "bitcoin", "ethereum", "forex"
  ]

  /** The alternatives of `/increase|higher|gain|up|positive|bull/i`. */
  const PositiveWords: seq<string> := ["increase", "higher", "gain", "up", "positive", "bull"]

  /** The alternatives of `/decrease|lower|loss|down|negative|bear/i`. */
  const NegativeWords: seq<string> := ["decrease", "lower", "loss", "down", "negative", "bear"]

  /** A case-insensitive alternation of plain words matches somewhere in the
      text exactly when one of the words occurs in it. */
  predicate MentionsAny(text: string, words: seq<string>) {
    exists k :: 0 <= k < |words| && ContainsIgnoringCase(text, words[k])
  }

  /** The entries of `terms` that occur in `text` once both are lower-cased,
      in list order: `terms.filter(t => text.toLowerCase().includes(t.toLowerCase()))`. */
  function TermsFound(terms: seq<string>, text: string): (r: seq<string>)
    ensures forall t :: t in r <==> t in terms && ContainsIgnoringCase(text, t)
    ensures SubsequenceOf(r, terms)
    ensures NoDuplicates(terms) ==> NoDuplicates(r)
    decreases |terms|
  {
    if |terms| == 0 then []
    else
      var rest := TermsFound(terms[1..], text);
      assert forall t :: t in terms <==> t == terms[0] || t in terms[1..];
      if ContainsIgnoringCase(text, terms[0]) then
        assert ([terms[0]] + rest)[1..] == rest;
        [terms[0]] + rest
      else rest
  }

  /** Some term is found exactly when the text mentions one of them. */
  lemma TermsFoundNonEmpty(terms: seq<string>, text: string)
    ensures |TermsFound(terms, text)| > 0 <==> MentionsAny(text, terms)
  {
    var r := TermsFound(terms, text);
    if |r| > 0 {
      assert r[0] in terms;
    }
    if MentionsAny(text, terms) {
      var k :| 0 <= k < |terms| && ContainsIgnoringCase(text, terms[k]);
      assert terms[k] in r;
    }
  }

  /** The term list has no repeated entry: any two entries differ in one of
      their first two letters or in length. */
  lemma FinancialTermsDistinct()
    ensures NoDuplicates(FinancialTerms)
  {
    var xs := FinancialTerms;
    forall i, j | 0 <= i < j < |xs|
      ensures xs[i] != xs[j]
    {
      assert xs[i][0] != xs[j][0] || xs[i][1] != xs[j][1] || |xs[i]| != |xs[j]|;
    }
  }
}
