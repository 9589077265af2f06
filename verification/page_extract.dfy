/** The two text helpers of the page script the side panel injects when it
    captures a page (scripts/sidepanel.js): the numbers found by
    the global pattern `[\d,]+\.?\d*` and the listed terms the lower-cased text mentions. */
module PageExtract {
  import opened JsText
  import opened SeqUtil
  import opened FinancialPatterns

  /** The class `[\d,]`. */
  predicate IsNumberChar(c: char) {
    IsDigit(c) || c == ','
  }

  /** Where the greedy `[\d,]*` starting at `i` stops. */
  function NumberRunEnd(s: string, i: nat): (e: nat)
    requires i <= |s|
    ensures i <= e <= |s|
    ensures forall k :: i <= k < e ==> IsNumberChar(s[k])
    ensures e == |s| || !IsNumberChar(s[e])
    decreases |s| - i
  {
    if i < |s| && IsNumberChar(s[i]) then NumberRunEnd(s, i + 1) else i
  }

  /** A run of `[\d,]` that stops where the class stops is the longest run. */
  lemma NumberRunEndAt(s: string, i: nat, j: nat)
    requires i <= j <= |s|
    requires forall k :: i <= k < j ==> IsNumberChar(s[k])
    requires j == |s| || !IsNumberChar(s[j])
    ensures NumberRunEnd(s, i) == j
    decreases j - i
  {
    if i < j {
      NumberRunEndAt(s, i + 1, j);
    }
  }

  /** `t` as a whole matches `[\d,]+\.?\d*`: a non-empty run of digits and
      commas, then either nothing, or a point and only digits. */
  predicate NumberToken(t: string) {
    var j := NumberRunEnd(t, 0);
    && 0 < j
    && (j == |t| || (t[j] == '.' && forall k :: j < k < |t| ==> IsDigit(t[k])))
  }

  /** The length of the greedy match of `[\d,]+\.?\d*` at the start of `s`. */
  function TokenEnd(s: string): (e: nat)
    requires 0 < |s| && IsNumberChar(s[0])
    ensures 0 < e <= |s|
    ensures NumberToken(s[..e])
  {
    var j := NumberRunEnd(s, 0);
    var e := if j < |s| && s[j] == '.' then DigitRunEnd(s, j + 1) else j;
    NumberRunEndAt(s[..e], 0, j);
    e
  }

  /** `extractNumbers`: every match of the global pattern, leftmost first;
      `|| []` makes the no-match case an empty list. */
  function ExtractNumbers(s: string): (nums: seq<string>)
    ensures forall k :: 0 <= k < |nums| ==> NumberToken(nums[k])
    decreases |s|
  {
    if |s| == 0 then []
    else if IsNumberChar(s[0]) then
      var e := TokenEnd(s);
      [s[..e]] + ExtractNumbers(s[e..])
    else ExtractNumbers(s[1..])
  }

  /** How many digits and commas `s` holds. */
  function NumberChars(s: string): nat {
    if |s| == 0 then 0
    else (if IsNumberChar(s[0]) then 1 else 0) + NumberChars(s[1..])
  }

  /** The matches laid end to end. */
  function Concat(parts: seq<string>): string {
    if |parts| == 0 then "" else parts[0] + Concat(parts[1..])
  }

  lemma {:induction false} NumberCharsConcat(a: string, b: string)
    ensures NumberChars(a + b) == NumberChars(a) + NumberChars(b)
    decreases |a|
  {
    if |a| > 0 {
      assert (a + b)[0] == a[0] && (a + b)[1..] == a[1..] + b;
      NumberCharsConcat(a[1..], b);
    } else {
      assert a + b == b;
    }
  }

  /** No digit and no comma of the text is lost or counted twice: together
      the matches hold exactly the text's digits and commas. */
  lemma {:induction false} ExtractKeepsEveryDigit(s: string)
    ensures NumberChars(Concat(ExtractNumbers(s))) == NumberChars(s)
    decreases |s|
  {
    if |s| > 0 {
      if IsNumberChar(s[0]) {
        var e := TokenEnd(s);
        var rest := ExtractNumbers(s[e..]);
        assert ([s[..e]] + rest)[1..] == rest;
        ExtractKeepsEveryDigit(s[e..]);
        NumberCharsConcat(s[..e], Concat(rest));
        NumberCharsConcat(s[..e], s[e..]);
        assert s[..e] + s[e..] == s;
      } else {
        ExtractKeepsEveryDigit(s[1..]);
      }
    }
  }

  /** The list is empty exactly when the text has no digit and no comma. */
  lemma NoNumberCharsNoNumbers(s: string)
    ensures ExtractNumbers(s) == [] <==> NumberChars(s) == 0
  {
    ExtractKeepsEveryDigit(s);
    var nums := ExtractNumbers(s);
    if nums != [] {
      NumberCharsConcat(nums[0], Concat(nums[1..]));
      assert NumberRunEnd(nums[0], 0) > 0;
      assert NumberChars(nums[0]) > 0;
    }
  }

  /** Text without digits and commas before a match is skipped. */
  lemma {:induction false} PlainPrefixSkipped(a: string, s: string)
    requires forall k :: 0 <= k < |a| ==> !IsNumberChar(a[k])
    ensures ExtractNumbers(a + s) == ExtractNumbers(s)
    decreases |a|
  {
    if |a| > 0 {
      assert (a + s)[0] == a[0];
      assert (a + s)[1..] == a[1..] + s;
      PlainPrefixSkipped(a[1..], s);
    } else {
      assert a + s == s;
    }
  }

  /** A run of digits and commas followed by neither another one nor a point
      is matched whole. */
  lemma RunIsWholeToken(d: string, b: string)
    requires |d| > 0 && forall k :: 0 <= k < |d| ==> IsNumberChar(d[k])
    requires |b| == 0 || (!IsNumberChar(b[0]) && b[0] != '.')
    ensures TokenEnd(d + b) == |d|
  {
    var s := d + b;
    assert forall k :: 0 <= k < |d| ==> s[k] == d[k];
    assert |d| < |s| ==> s[|d|] == b[0];
    NumberRunEndAt(s, 0, |d|);
  }

  /** Matches are the longest runs: after text holding no digit and no
      comma, a run of digits and commas `d` that is followed by neither
      another digit or comma nor a point is matched whole, never split, and
      matching carries on right after it. */
  lemma {:induction false} LongestRunMatched(a: string, d: string, b: string)
    requires forall k :: 0 <= k < |a| ==> !IsNumberChar(a[k])
    requires |d| > 0 && forall k :: 0 <= k < |d| ==> IsNumberChar(d[k])
    requires |b| == 0 || (!IsNumberChar(b[0]) && b[0] != '.')
    ensures ExtractNumbers(a + d + b) == [d] + ExtractNumbers(b)
  {
    var s := d + b;
    assert a + d + b == a + s;
    PlainPrefixSkipped(a, s);
    RunIsWholeToken(d, b);
    assert s[0] == d[0];
    assert s[..|d|] == d && s[|d|..] == b;
  }

  /** A run of digits and commas, a point and the digits after it form one
      token, ending where those digits stop. */
  lemma DecimalTokenEnd(d: string, f: string, b: string)
    requires |d| > 0 && forall k :: 0 <= k < |d| ==> IsNumberChar(d[k])
    requires forall k :: 0 <= k < |f| ==> IsDigit(f[k])
    requires |b| == 0 || !IsDigit(b[0])
    ensures TokenEnd(d + "." + f + b) == |d| + 1 + |f|
  {
    var s := d + "." + f + b;
    var j := |d|;
    assert forall k :: 0 <= k < j ==> s[k] == d[k];
    assert s[j] == '.';
    NumberRunEndAt(s, 0, j);
    assert forall k :: j + 1 <= k < j + 1 + |f| ==> s[k] == f[k - j - 1];
    assert j + 1 + |f| < |s| ==> s[j + 1 + |f|] == b[0];
    DigitRunEndAt(s, j + 1, j + 1 + |f|);
  }

  /** Decimals are matched whole: after text holding no digit and no comma,
      a run of digits and commas, a point and all the digits after it form
      one match ("12.5" gives `["12.5"]`, never `["12.", "5"]`), and
      matching carries on right after the last digit. */
  lemma DecimalRunMatched(a: string, d: string, f: string, b: string)
    requires forall k :: 0 <= k < |a| ==> !IsNumberChar(a[k])
    requires |d| > 0 && forall k :: 0 <= k < |d| ==> IsNumberChar(d[k])
    requires forall k :: 0 <= k < |f| ==> IsDigit(f[k])
    requires |b| == 0 || !IsDigit(b[0])
    ensures ExtractNumbers(a + d + "." + f + b) == [d + "." + f] + ExtractNumbers(b)
  {
    var s := d + "." + f + b;
    assert a + d + "." + f + b == a + s;
    PlainPrefixSkipped(a, s);
    DecimalTokenEnd(d, f, b);
    assert s[0] == d[0];
    assert s[..|d| + 1 + |f|] == d + "." + f && s[|d| + 1 + |f|..] == b;
  }

  /** A lone run between text holding no digit and no comma is the one
      match: `"12"` gives `["12"]`, never `["1", "2"]`. */
  lemma LoneRunMatched(a: string, d: string, b: string)
    requires forall k :: 0 <= k < |a| ==> !IsNumberChar(a[k])
    requires |d| > 0 && forall k :: 0 <= k < |d| ==> IsNumberChar(d[k])
    requires forall k :: 0 <= k < |b| ==> !IsNumberChar(b[k])
    requires |b| == 0 || b[0] != '.'
    ensures ExtractNumbers(a + d + b) == [d]
  {
    LongestRunMatched(a, d, b);
    PlainPrefixSkipped(b, "");
    assert b + "" == b;
  }

  /** The point belongs to a match only after a run of digits and commas,
      and only one point: "1.2.3" yields "1.2" and then "3". */
  lemma SecondPointStartsAnew()
    ensures ExtractNumbers("1.2.3") == ["1.2", "3"]
  {
    var s := "1.2.3";
    NumberRunEndAt(s, 0, 1);
    assert DigitRunEnd(s, 2) == 3;
    assert TokenEnd(s) == 3 && s[..3] == "1.2" && s[3..] == ".3";
    assert ".3"[1..] == "3";
    assert ExtractNumbers(".3") == ExtractNumbers("3");
    NumberRunEndAt("3", 0, 1);
    assert TokenEnd("3") == 1 && "3"[..1] == "3" && "3"[1..] == "";
    assert ExtractNumbers("3") == ["3"];
  }

  /** The term list of `findFinancialTerms`. */
  const PageTerms: seq<string> := ["stock", "price", "market", "trade", "buy", "sell", "bull", "bear", "dividend", "yield"]

  /** Every page term is written in lower case. */
  lemma PageTermsAreLowerCase()
    ensures forall k :: 0 <= k < |PageTerms| ==> ToLower(PageTerms[k]) == PageTerms[k]
  {
    forall k | 0 <= k < |PageTerms| ensures ToLower(PageTerms[k]) == PageTerms[k] {
      var t := PageTerms[k];
      assert forall i :: 0 <= i < |t| ==> 'a' <= t[i] <= 'z';
    }
  }

  /** `findFinancialTerms`: the page terms the lower-cased text contains, in
      list order. */
  function FindFinancialTerms(text: string): (r: seq<string>)
    ensures forall t :: t in r <==> t in PageTerms && Contains(ToLower(text), t)
    ensures SubsequenceOf(r, PageTerms)
  {
    PageTermsAreLowerCase();
    TermsFound(PageTerms, text)
  }

  /** The page terms are the first ten tooltip terms, so a term the capture
      reports is one the hover tooltip reports for the same text. */
  lemma PageTermsAreTooltipTerms(text: string)
    ensures forall t :: t in FindFinancialTerms(text) ==> t in TermsFound(FinancialTerms, text)
  {
    assert PageTerms == FinancialTerms[..10];
    forall t | t in FindFinancialTerms(text) ensures t in TermsFound(FinancialTerms, text) {
      assert t in FinancialTerms;
    }
  }
}
