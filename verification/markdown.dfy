/** `convertMarkdownToHtml` of scripts/utils.js (copied unchanged into
    scripts/sidepanel.js and scripts/content.js): nine global regular
    expression replacements applied in a fixed order. Each pass is a
    hand-written matcher with JavaScript semantics: the leftmost match wins,
    `.*?` is lazy and never crosses a line terminator, `$` is the end of the
    text, and matches do not overlap. No HTML is escaped. */
module Markdown {
  import opened Wrappers
  import opened JsText

  /** `<tag>body</tag>`. */
  function Element(tag: string, body: string): string {
    "<" + tag + ">" + body + "</" + tag + ">"
  }

  /** Whether `s[j..k]` lies on one line, as anything `.*` matches must. */
  ghost predicate OnOneLine(s: string, j: nat, k: nat)
    requires j <= k <= |s|
  {
    forall t :: j <= t < k ==> !IsLineTerminator(s[t])
  }

  /** The first position from `j` on that is the end of the text or holds a
      line terminator: how far `.` can reach. */
  function LineStop(s: string, j: nat): (t: nat)
    requires j <= |s|
    ensures j <= t <= |s| && OnOneLine(s, j, t)
    ensures t == |s| || IsLineTerminator(s[t])
    decreases |s| - j
  {
    if j == |s| || IsLineTerminator(s[j]) then j else LineStop(s, j + 1)
  }

  /** `(.*?)close` from `j`: the first position at which `close` occurs
      with only one line between `j` and it. */
  function LazyClose(s: string, j: nat, close: string): (k: Option<nat>)
    requires j <= |s|
    ensures k.Some? ==> j <= k.value <= |s| && OccursAt(s, k.value, close) && OnOneLine(s, j, k.value)
    ensures k.Some? ==> forall t :: j <= t < k.value ==> !OccursAt(s, t, close)
    ensures k.None? ==> forall t :: j <= t <= |s| && OnOneLine(s, j, t) ==> !OccursAt(s, t, close)
    decreases |s| - j
  {
    if OccursAt(s, j, close) then Some(j)
    else if j == |s| || IsLineTerminator(s[j]) then None
    else LazyClose(s, j + 1, close)
  }

  /** The end of the run of `'\n'` from `t`: what a greedy `\n*` takes. */
  function NewlinesEnd(s: string, t: nat): (u: nat)
    requires t <= |s|
    ensures t <= u <= |s|
    ensures forall k :: t <= k < u ==> s[k] == '\n'
    ensures u == |s| || s[u] != '\n'
    decreases |s| - t
  {
    if t < |s| && s[t] == '\n' then NewlinesEnd(s, t + 1) else t
  }

  /** The nine passes, in the order the renderer applies them. */
  datatype Pass =
    | H3        // `### (.*?)\n`         → `<h3>$1</h3>`
    | H2        // `## (.*?)\n`          → `<h2>$1</h2>`
    | H1        // `# (.*?)\n`           → `<h1>$1</h1>`
    | Bold      // `\*\*(.*?)\*\*`       → `<strong>$1</strong>`
    | Italic    // `\*(.*?)\*`           → `<em>$1</em>`
    | Bullet    // `- (.*?)(\n|$)`       → `<li>$1</li>`
    | WrapList  // `(<li>.*?<\/li>)\n*`  → `<ul>$1</ul>`
    | Numbered  // `\d+\. (.*?)(\n|$)`   → `<li>$1</li>`
    | LineBreak // `\n`                  → `<br>`

  /** The passes of the shape `open(.*?)close` → `<tag>$1</tag>`. */
  predicate Encloses(p: Pass) {
    p.H3? || p.H2? || p.H1? || p.Bold? || p.Italic?
  }

  function Opener(p: Pass): (o: string)
    requires Encloses(p)
    ensures |o| > 0
  {
    match p
    case H3 => "### "
    case H2 => "## "
    case H1 => "# "
    case Bold => "**"
    case Italic => "*"
  }

  function Closer(p: Pass): string
    requires Encloses(p)
  {
    if p.Bold? then "**" else if p.Italic? then "*" else "\n"
  }

  function Tag(p: Pass): string
    requires Encloses(p)
  {
    match p
    case H3 => "h3"
    case H2 => "h2"
    case H1 => "h1"
    case Bold => "strong"
    case Italic => "em"
  }

  /** A match: where it ends, and the text that replaces it. */
  datatype Match = Match(end: nat, replacement: string)

  /** `(.*?)(\n|$)` from `j`, replaced by `<li>$1</li>`: the item runs to
      the end of its line, and takes the newline with it. A line that ends in
      another line terminator (`'\r'`, say) is no item. */
  function ItemAt(s: string, j: nat): (m: Option<Match>)
    requires j <= |s|
    ensures m.Some? <==> LineStop(s, j) == |s| || s[LineStop(s, j)] == '\n'
    ensures m.Some? ==> m.value.replacement == Element("li", s[j..LineStop(s, j)])
    ensures m.Some? ==> m.value.end == if LineStop(s, j) == |s| then |s| else LineStop(s, j) + 1
  {
    var t := LineStop(s, j);
    if t == |s| then Some(Match(t, Element("li", s[j..t])))
    else if s[t] == '\n' then Some(Match(t + 1, Element("li", s[j..t])))
    else None
  }

  /** `open(.*?)close` at `i`, replaced by `<tag>$1</tag>`: the body is
      the shortest one-line stretch after `open` that `close` follows. */
  function EnclosedAt(s: string, i: nat, open: string, close: string, tag: string): (m: Option<Match>)
    requires i <= |s| && |open| > 0
    ensures m.Some? ==> i < m.value.end <= |s|
    ensures m.Some? ==>
              var j := i + |open|;
              var k := m.value.end - |close|;
              && OccursAt(s, i, open)
              && j <= k && OccursAt(s, k, close) && OnOneLine(s, j, k)
              && (forall t :: j <= t < k ==> !OccursAt(s, t, close))
              && m.value.replacement == Element(tag, s[j..k])
    ensures m.None? ==>
              || !OccursAt(s, i, open)
              || forall t :: i + |open| <= t <= |s| && OnOneLine(s, i + |open|, t) ==> !OccursAt(s, t, close)
  {
    if !OccursAt(s, i, open) then None
    else
      var j := i + |open|;
      var k := LazyClose(s, j, close);
      if k.None? then None
      else Some(Match(k.value + |close|, Element(tag, s[j..k.value])))
  }

  /** `\d+\. (.*?)(\n|$)` at `i`. The greedy `\d+` never gives a digit
      back: the `.` after it would then have to match a digit. */
  function NumberedAt(s: string, i: nat): (m: Option<Match>)
    requires i <= |s|
    ensures m.Some? ==> i < m.value.end <= |s|
    ensures m.Some? <==>
              var d := DigitRunEnd(s, i);
              d > i && OccursAt(s, d, ". ") && ItemAt(s, d + 2).Some?
  {
    var d := DigitRunEnd(s, i);
    if d > i && OccursAt(s, d, ". ") then ItemAt(s, d + 2) else None
  }

  /** `(<li>.*?<\/li>)\n*` at `i`: the first item, closed on its line,
      wrapped in a list of its own, with the newlines after it dropped. */
  function WrapAt(s: string, i: nat): (m: Option<Match>)
    requires i <= |s|
    ensures m.Some? ==> i < m.value.end <= |s|
    ensures m.Some? ==>
              exists k :: i + 4 <= k && k + 5 <= m.value.end
                && OccursAt(s, i, "<li>") && OccursAt(s, k, "</li>") && OnOneLine(s, i + 4, k)
                && m.value.replacement == Element("ul", s[i..k + 5])
                && m.value.end == NewlinesEnd(s, k + 5)
  {
    if !OccursAt(s, i, "<li>") then None
    else
      var k := LazyClose(s, i + 4, "</li>");
      if k.None? then None
      else Some(Match(NewlinesEnd(s, k.value + 5), Element("ul", s[i..k.value + 5])))
  }

  /** The match of pass `p` that starts at `i`, if any. */
  function MatchAt(p: Pass, s: string, i: nat): (m: Option<Match>)
    requires i <= |s|
    ensures m.Some? ==> i < m.value.end <= |s|
  {
    match p
    case Bullet => if OccursAt(s, i, "- ") then ItemAt(s, i + 2) else None
    case WrapList => WrapAt(s, i)
    case Numbered => NumberedAt(s, i)
    case LineBreak => if i < |s| && s[i] == '\n' then Some(Match(i + 1, "<br>")) else None
    case _ => EnclosedAt(s, i, Opener(p), Closer(p), Tag(p))
  }

  /** A matcher for `s`: the match that starts at each position, if any,
      never empty and never past the end. */
  ghost predicate Fits(find: nat -> Option<Match>, s: string) {
    forall i: nat :: i <= |s| && find(i).Some? ==> i < find(i).value.end <= |s|
  }

  /** `s.replace(pattern, replacement)` with the `g` flag, from position `i`,
      for the pattern whose matches `find` gives: text before the leftmost
      match is kept as it is, the match is replaced, and the search resumes
      where the match ended. */
  function ReplaceWith(find: nat -> Option<Match>, s: string, i: nat): string
    requires i <= |s| && Fits(find, s)
    decreases |s| - i
  {
    if i == |s| then ""
    else
      match find(i)
      case Some(m) => m.replacement + ReplaceWith(find, s, m.end)
      case None => [s[i]] + ReplaceWith(find, s, i + 1)
  }

  /** The matches of pass `p` in `s`. */
  function Finder(p: Pass, s: string): (find: nat -> Option<Match>)
    ensures Fits(find, s)
  {
    (k: nat) => if k <= |s| then MatchAt(p, s, k) else None
  }

  function ReplaceFrom(p: Pass, s: string, i: nat): string
    requires i <= |s|
  {
    ReplaceWith(Finder(p, s), s, i)
  }

  function Replace(p: Pass, s: string): string {
    ReplaceFrom(p, s, 0)
  }

  /** A pattern with no match leaves the text as it is. */
  lemma {:induction false} NoMatchNoChange(find: nat -> Option<Match>, s: string, i: nat)
    requires i <= |s| && Fits(find, s)
    requires forall k :: i <= k <= |s| ==> find(k).None?
    ensures ReplaceWith(find, s, i) == s[i..]
    decreases |s| - i
  {
    if i < |s| {
      NoMatchNoChange(find, s, i + 1);
      assert [s[i]] + s[i + 1..] == s[i..];
    }
  }

  /** The leftmost match decides the output: the text before it is copied,
      and the rest is the replacement from the match's end. */
  lemma {:induction false} LeftmostMatch(find: nat -> Option<Match>, s: string, i: nat, k: nat, m: Match)
    requires i <= k <= |s| && Fits(find, s)
    requires forall t :: i <= t < k ==> find(t).None?
    requires find(k) == Some(m)
    ensures ReplaceWith(find, s, i) == s[i..k] + (m.replacement + ReplaceWith(find, s, m.end))
    decreases k - i
  {
    var tail := m.replacement + ReplaceWith(find, s, m.end);
    if i < k {
      LeftmostMatch(find, s, i + 1, k, m);
      assert ReplaceWith(find, s, i) == [s[i]] + (s[i + 1..k] + tail);
      AppendAssoc([s[i]], s[i + 1..k], tail);
      assert [s[i]] + s[i + 1..k] == s[i..k];
    } else {
      assert ReplaceWith(find, s, i) == tail;
      assert s[i..k] == [];
    }
  }

  lemma AppendAssoc<T>(a: seq<T>, b: seq<T>, c: seq<T>)
    ensures a + (b + c) == (a + b) + c
  {
  }

  /** A pass with no match leaves the text as it is. */
  lemma NoPassMatchNoChange(p: Pass, s: string)
    requires forall k :: 0 <= k <= |s| ==> MatchAt(p, s, k).None?
    ensures Replace(p, s) == s
  {
    NoMatchNoChange(Finder(p, s), s, 0);
  }

  /** After the line-break pass no `'\n'` is left. */
  lemma {:induction false} LineBreakLeavesNoNewline(s: string, i: nat)
    requires i <= |s|
    ensures '\n' !in ReplaceFrom(LineBreak, s, i)
    decreases |s| - i
  {
    if i < |s| {
      LineBreakLeavesNoNewline(s, i + 1);
    }
  }

  /** The line-break pass is `s.split('\n').join('<br>')`. */
  lemma {:induction false} LineBreakIsSplitJoin(s: string, i: nat)
    requires i <= |s|
    ensures ReplaceFrom(LineBreak, s, i) == Join(Split(s[i..], '\n'), "<br>")
    decreases |s| - i
  {
    if i < |s| {
      LineBreakIsSplitJoin(s, i + 1);
      var rest := Split(s[i + 1..], '\n');
      assert s[i..][1..] == s[i + 1..];
      if s[i] == '\n' {
        assert Split(s[i..], '\n') == [""] + rest;
        assert ([""] + rest)[1..] == rest;
      } else {
        assert Split(s[i..], '\n') == [[s[i]] + rest[0]] + rest[1..];
        JoinConsChar(s[i], rest, "<br>");
      }
    }
  }

  /** Putting a character in front of the first part puts it in front of the join. */
  lemma JoinConsChar(c: char, parts: seq<string>, sep: string)
    requires |parts| >= 1
    ensures Join([[c] + parts[0]] + parts[1..], sep) == [c] + Join(parts, sep)
  {
    var parts' := [[c] + parts[0]] + parts[1..];
    if |parts| > 1 {
      assert parts'[1..] == parts[1..];
    }
  }

  /** The eight passes before the line-break pass, in the order the
      renderer applies them. */
  const EarlierPasses: seq<Pass> := [H3, H2, H1, Bold, Italic, Bullet, WrapList, Numbered]

  /** The passes `ps` applied to `s`, first one first. */
  function ApplyAll(ps: seq<Pass>, s: string): string
    decreases |ps|
  {
    if |ps| == 0 then s else ApplyAll(ps[1..], Replace(ps[0], s))
  }

  /** The renderer: the nine passes in order. */
  function Render(text: string): (html: string)
    ensures '\n' !in html
  {
    var listed := ApplyAll(EarlierPasses, text);
    LineBreakLeavesNoNewline(listed, 0);
    Replace(LineBreak, listed)
  }

  /** Passes that all leave `s` as it is leave it as it is together. */
  lemma {:induction false} ApplyAllFixed(ps: seq<Pass>, s: string)
    requires forall k :: 0 <= k < |ps| ==> Replace(ps[k], s) == s
    ensures ApplyAll(ps, s) == s
    decreases |ps|
  {
    if |ps| > 0 {
      ApplyAllFixed(ps[1..], s);
    }
  }

  /** Applying `a + b` is applying `a`, then `b`. */
  lemma {:induction false} ApplyAllAppend(a: seq<Pass>, b: seq<Pass>, s: string)
    ensures ApplyAll(a + b, s) == ApplyAll(b, ApplyAll(a, s))
    decreases |a|
  {
    if |a| == 0 {
      assert a + b == b;
    } else {
      assert (a + b)[1..] == a[1..] + b;
      ApplyAllAppend(a[1..], b, Replace(a[0], s));
    }
  }

  /** Passes before `j` that leave `s` as it is can be skipped. */
  lemma {:induction false} SkipFixed(ps: seq<Pass>, j: nat, s: string)
    requires j <= |ps|
    requires forall k :: 0 <= k < j ==> Replace(ps[k], s) == s
    ensures ApplyAll(ps, s) == ApplyAll(ps[j..], s)
    decreases j
  {
    if j > 0 {
      assert ps[1..][j - 1..] == ps[j..];
      SkipFixed(ps[1..], j - 1, s);
    }
  }

  /** When only the pass at `j` changes anything, and it changes `s` into
      `h`, the passes together change `s` into `h`. */
  lemma OneChange(ps: seq<Pass>, j: nat, s: string, h: string)
    requires j < |ps|
    requires forall k :: 0 <= k < j ==> Replace(ps[k], s) == s
    requires Replace(ps[j], s) == h
    requires forall k :: j < k < |ps| ==> Replace(ps[k], h) == h
    ensures ApplyAll(ps, s) == h
  {
    SkipFixed(ps, j, s);
    assert ps[j..][0] == ps[j] && ps[j..][1..] == ps[j + 1..];
    ApplyAllFixed(ps[j + 1..], h);
  }

  /** When only the passes at `j` and `j + 1` change anything, turning `s`
      into `g` and `g` into `h`, the passes together turn `s` into `h`. */
  lemma TwoChanges(ps: seq<Pass>, j: nat, s: string, g: string, h: string)
    requires j + 1 < |ps|
    requires forall k :: 0 <= k < j ==> Replace(ps[k], s) == s
    requires Replace(ps[j], s) == g && Replace(ps[j + 1], g) == h
    requires forall k :: j + 1 < k < |ps| ==> Replace(ps[k], h) == h
    ensures ApplyAll(ps, s) == h
  {
    SkipFixed(ps, j, s);
    assert ps[j..][0] == ps[j] && ps[j..][1..] == ps[j + 1..];
    OneChange(ps[j + 1..], 0, g, h);
  }

  /** Rendering where the pass at `j` changes `s` into `h` and every other
      pass leaves what it sees as it is. */
  lemma RenderThrough(j: nat, s: string, h: string)
    requires j < |EarlierPasses|
    requires forall k :: 0 <= k < j ==> Replace(EarlierPasses[k], s) == s
    requires Replace(EarlierPasses[j], s) == h
    requires forall k :: j < k < |EarlierPasses| ==> Replace(EarlierPasses[k], h) == h
    requires Replace(LineBreak, h) == h
    ensures Render(s) == h
  {
    OneChange(EarlierPasses, j, s, h);
  }

  // ---------------------------------------------------------------------------
  // What a pass needs to fire
  // ---------------------------------------------------------------------------

  /** A literal that every match of the pass contains. */
  function Marker(p: Pass): (lit: string)
    ensures |lit| > 0
  {
    match p
    case H3 => "### "
    case H2 => "## "
    case H1 => "# "
    case Bold => "**"
    case Italic => "*"
    case Bullet => "- "
    case WrapList => "<li>"
    case Numbered => ". "
    case LineBreak => "\n"
  }

  lemma MatchHasMarker(p: Pass, s: string, i: nat)
    requires i <= |s| && MatchAt(p, s, i).Some?
    ensures Contains(s, Marker(p))
  {
    if p.Numbered? {
      assert OccursAt(s, DigitRunEnd(s, i), Marker(p));
    } else if p.LineBreak? {
      assert s[i..i + 1] == [s[i]];
      assert OccursAt(s, i, Marker(p));
    } else {
      assert OccursAt(s, i, Marker(p));
    }
  }

  /** A pass whose marker does not occur leaves the text as it is. */
  lemma {:induction false} NoMarkerNoChange(p: Pass, s: string)
    requires !Contains(s, Marker(p))
    ensures Replace(p, s) == s
  {
    forall k | 0 <= k <= |s| ensures MatchAt(p, s, k).None? {
      if MatchAt(p, s, k).Some? {
        MatchHasMarker(p, s, k);
      }
    }
    NoPassMatchNoChange(p, s);
  }

  lemma CharAbsentNoMarker(s: string, p: Pass)
    requires Marker(p)[0] !in s
    ensures !Contains(s, Marker(p))
  {
    forall k | 0 <= k <= |s| - |Marker(p)| ensures !OccursAt(s, k, Marker(p)) {
      assert s[k] in s;
      assert s[k..k + |Marker(p)|][0] == s[k];
    }
  }

  /** Text without `#`, `*`, `-`, `<` or `.`: no pass but the line-break
      pass can fire on it. */
  ghost predicate Plain(x: string) {
    forall k :: 0 <= k < |x| ==> x[k] !in "#*-<."
  }

  /** Plain text only has its newlines turned into `<br>`. */
  lemma {:induction false} RenderPlain(x: string)
    requires Plain(x)
    ensures Render(x) == Join(Split(x, '\n'), "<br>")
  {
    forall k | 0 <= k < |EarlierPasses| ensures Replace(EarlierPasses[k], x) == x {
      CharAbsentNoMarker(x, EarlierPasses[k]);
      NoMarkerNoChange(EarlierPasses[k], x);
    }
    ApplyAllFixed(EarlierPasses, x);
    LineBreakIsSplitJoin(x, 0);
    assert x[0..] == x;
  }

  /** `LineStop` finds the first line end. */
  lemma {:induction false} LineStopAt(s: string, j: nat, t: nat)
    requires j <= t <= |s| && OnOneLine(s, j, t)
    requires t == |s| || IsLineTerminator(s[t])
    ensures LineStop(s, j) == t
    decreases t - j
  {
    if j < t {
      LineStopAt(s, j + 1, t);
    }
  }

  /** `LazyClose` finds the first closing literal on the line. */
  lemma {:induction false} LazyCloseAt(s: string, j: nat, k: nat, close: string)
    requires j <= k <= |s| && OnOneLine(s, j, k) && OccursAt(s, k, close)
    requires forall t :: j <= t < k ==> !OccursAt(s, t, close)
    ensures LazyClose(s, j, close) == Some(k)
    decreases k - j
  {
    if j < k {
      LazyCloseAt(s, j + 1, k, close);
    }
  }

  /** An element whose tag does not start with `l` holds no `<li>` of its own. */
  lemma ElementHoldsNoItem(tag: string, body: string)
    requires |tag| > 0 && tag[0] != 'l' && '<' !in tag && '<' !in body
    ensures !Contains(Element(tag, body), "<li>")
  {
    var e := Element(tag, body);
    var close := |tag| + 2 + |body|;
    assert e == "<" + tag + ">" + body + "</" + tag + ">";
    forall k | 0 <= k <= |e| - 4 ensures !OccursAt(e, k, "<li>") {
      assert e[k] != '<' || e[k + 1] != 'l' by {
        if k == 0 {
          assert e[1] == tag[0];
        } else if k <= |tag| {
          assert e[k] == tag[k - 1];
        } else if k == |tag| + 1 {
          assert e[k] == '>';
        } else if k < close {
          assert e[k] == body[k - |tag| - 2];
        } else if k == close {
          assert e[k + 1] == '/';
        } else if k == close + 1 {
          assert e[k] == '/';
        } else {
          assert e[k] == tag[k - close - 2];
        }
      }
    }
  }

  /** Markers other than `<li>` need one of `#`, `*`, `-`, `.` or a
      newline, which an element with plain one-line content and a tag of
      letters and digits lacks. */
  lemma ElementHoldsNoMarker(tag: string, body: string, p: Pass)
    requires !p.WrapList?
    requires forall k :: 0 <= k < |tag| ==> IsAsciiLower(tag[k]) || IsDigit(tag[k])
    requires Plain(body) && OnOneLine(body, 0, |body|)
    ensures !Contains(Element(tag, body), Marker(p))
  {
    var e := Element(tag, body);
    assert e == "<" + tag + ">" + body + "</" + tag + ">";
    assert Marker(p)[0] in "#*-.\n";
    forall k | 0 <= k < |e| ensures e[k] !in "#*-.\n" {
      if 1 <= k <= |tag| {
        assert e[k] == tag[k - 1];
      } else if |tag| + 2 <= k < |tag| + 2 + |body| {
        assert e[k] == body[k - |tag| - 2];
      } else if |tag| + 4 + |body| <= k < 2 * |tag| + 4 + |body| {
        assert e[k] == tag[k - |tag| - 4 - |body|];
      }
    }
    CharAbsentNoMarker(e, p);
  }

  /** `open body close` with a plain one-line body is one match, replaced
      by the element: `### t` followed by a newline becomes `<h3>t</h3>`
      with the newline consumed, `**t**` becomes `<strong>t</strong>`. */
  lemma EnclosedWhole(p: Pass, body: string)
    requires Encloses(p) && Plain(body) && OnOneLine(body, 0, |body|)
    ensures Replace(p, Opener(p) + body + Closer(p)) == Element(Tag(p), body)
  {
    var o, c := Opener(p), Closer(p);
    var s := o + body + c;
    BodyAvoidsCloser(p, body);
    WholeSlice(s);
    BodyClosesAt(s, 0, o, body, c);
    MiddleSlice(o, body, c);
    EnclosedMatch(p, s, |o| + |body|, body);
  }

  /** A plain one-line body never holds a closer's first character. */
  lemma BodyAvoidsCloser(p: Pass, body: string)
    requires Encloses(p) && Plain(body) && OnOneLine(body, 0, |body|)
    ensures |Closer(p)| > 0
    ensures forall t :: 0 <= t < |body| ==> body[t] != Closer(p)[0] && !IsLineTerminator(body[t])
  {
    assert Closer(p)[0] in "*\n";
  }

  lemma WholeSlice<T>(s: seq<T>)
    ensures s[0..|s|] == s
  {
  }

  lemma MiddleSlice<T>(a: seq<T>, b: seq<T>, c: seq<T>)
    ensures (a + b + c)[|a|..|a| + |b|] == b
  {
  }

  /** A header or emphasis match that spans the whole text replaces it. */
  lemma EnclosedMatch(p: Pass, s: string, k: nat, body: string)
    requires Encloses(p) && |Opener(p)| <= k && k + |Closer(p)| == |s|
    requires OccursAt(s, 0, Opener(p)) && LazyClose(s, |Opener(p)|, Closer(p)) == Some(k)
    requires s[|Opener(p)|..k] == body
    ensures Replace(p, s) == Element(Tag(p), body)
  {
    EnclosedMatchAt(p, s, k, body);
    WholeMatch(Finder(p, s), s, Element(Tag(p), body));
  }

  lemma EnclosedMatchAt(p: Pass, s: string, k: nat, body: string)
    requires Encloses(p) && |Opener(p)| <= k && k + |Closer(p)| == |s|
    requires OccursAt(s, 0, Opener(p)) && LazyClose(s, |Opener(p)|, Closer(p)) == Some(k)
    requires s[|Opener(p)|..k] == body
    ensures MatchAt(p, s, 0) == Some(Match(|s|, Element(Tag(p), body)))
  {
    EnclosingPass(p, s, 0);
    EnclosedAtWhole(s, Opener(p), Closer(p), Tag(p), k, body);
  }

  lemma EnclosedAtWhole(s: string, open: string, close: string, tag: string, k: nat, body: string)
    requires |open| > 0 && |open| <= k && k + |close| == |s|
    requires OccursAt(s, 0, open) && LazyClose(s, |open|, close) == Some(k)
    requires s[|open|..k] == body
    ensures EnclosedAt(s, 0, open, close, tag) == Some(Match(|s|, Element(tag, body)))
  {
  }

  /** The five enclosing passes all match through `EnclosedAt`. */
  lemma EnclosingPass(p: Pass, s: string, i: nat)
    requires Encloses(p) && i <= |s|
    ensures MatchAt(p, s, i) == EnclosedAt(s, i, Opener(p), Closer(p), Tag(p))
  {
    match p
    case H3 =>
    case H2 =>
    case H1 =>
    case Bold =>
    case Italic =>
  }

  /** A match that covers the whole text is the whole output. */
  lemma WholeMatch(find: nat -> Option<Match>, s: string, r: string)
    requires Fits(find, s) && find(0) == Some(Match(|s|, r))
    ensures ReplaceWith(find, s, 0) == r
  {
    assert ReplaceWith(find, s, |s|) == "";
  }

  lemma SliceOfSlice<T>(s: seq<T>, i: nat, n: nat, a: nat, b: nat)
    requires i + n <= |s| && a <= b <= n
    ensures s[i..i + n][a..b] == s[i + a..i + b]
  {
    var l, r := s[i..i + n][a..b], s[i + a..i + b];
    assert |l| == |r|;
    forall t | 0 <= t < |l| ensures l[t] == r[t] {
      assert l[t] == s[i..i + n][a + t];
    }
  }

  /** Where `open body close` stands at `i`, with the body on one line and
      never holding the closer's first character, the lazy body stops at
      `close`. */
  lemma BodyClosesAt(s: string, i: nat, open: string, body: string, close: string)
    requires |open| > 0 && |close| > 0
    requires forall t :: 0 <= t < |body| ==> body[t] != close[0] && !IsLineTerminator(body[t])
    requires i + |open| + |body| + |close| <= |s|
    requires s[i..i + |open| + |body| + |close|] == open + body + close
    ensures OccursAt(s, i, open) && LazyClose(s, i + |open|, close) == Some(i + |open| + |body|)
  {
    var j := i + |open|;
    var k := j + |body|;
    WindowParts(s, i, open, body, close);
    forall t | j <= t < k ensures !OccursAt(s, t, close) && !IsLineTerminator(s[t]) {
      assert s[t] == body[t - j];
    }
    LazyCloseAt(s, j, k, close);
  }

  /** The three parts of `a + b + c` standing at `i` in `s`. */
  lemma WindowParts(s: string, i: nat, a: string, b: string, c: string)
    requires i + |a| + |b| + |c| <= |s|
    requires s[i..i + |a| + |b| + |c|] == a + b + c
    ensures OccursAt(s, i, a) && OccursAt(s, i + |a| + |b|, c)
    ensures forall t :: i + |a| <= t < i + |a| + |b| ==> s[t] == b[t - i - |a|]
  {
    var w := a + b + c;
    var n := |w|;
    assert OccursAt(s, i, a) by {
      SliceOfSlice(s, i, n, 0, |a|);
      assert w[0..|a|] == a;
    }
    assert OccursAt(s, i + |a| + |b|, c) by {
      SliceOfSlice(s, i, n, |a| + |b|, n);
      assert w[|a| + |b|..n] == c;
    }
    forall t | i + |a| <= t < i + |a| + |b| ensures s[t] == b[t - i - |a|] {
      assert s[t] == s[i..i + n][t - i];
      MiddleIndex(a, b, c, t - i);
    }
  }

  lemma MiddleIndex(a: string, b: string, c: string, u: nat)
    requires |a| <= u < |a| + |b|
    ensures (a + b + c)[u] == b[u - |a|]
  {
    assert (a + b + c)[u] == (a + b)[u];
  }

  /** A level-3 header on its own line comes out as `<h3>`, never `<h1>`:
      its pass runs first and takes the whole line. */
  lemma RenderHeader(t: string)
    requires Plain(t) && OnOneLine(t, 0, |t|)
    ensures Render("### " + t + "\n") == Element("h3", t)
  {
    EnclosedWhole(H3, t);
    var h := Element("h3", t);
    ElementSurvives("h3", t);
    RenderThrough(0, "### " + t + "\n", h);
  }

  /** An element with a plain one-line body and a lower-case tag other
      than `li` is left as it is by every pass that does not make it. */
  lemma ElementSurvives(tag: string, body: string)
    requires |tag| > 0 && tag[0] != 'l'
    requires forall k :: 0 <= k < |tag| ==> IsAsciiLower(tag[k]) || IsDigit(tag[k])
    requires Plain(body) && OnOneLine(body, 0, |body|)
    ensures forall p: Pass :: Replace(p, Element(tag, body)) == Element(tag, body)
  {
    var h := Element(tag, body);
    forall p: Pass ensures Replace(p, h) == h {
      if p.WrapList? {
        assert '<' !in tag;
        assert '<' !in body;
        ElementHoldsNoItem(tag, body);
      } else {
        ElementHoldsNoMarker(tag, body, p);
      }
      NoMarkerNoChange(p, h);
    }
  }

  /** Bold runs before italics, so `**t**` comes out as `<strong>t</strong>`
      and not as nested `<em>`. */
  lemma RenderBold(t: string)
    requires Plain(t) && OnOneLine(t, 0, |t|)
    ensures Render("**" + t + "**") == Element("strong", t)
  {
    BoldSurvivesHeaders(t);
    BoldPass(t);
    StrongSurvives(t);
    RenderThrough(3, "**" + t + "**", Element("strong", t));
  }

  lemma BoldPass(t: string)
    requires Plain(t) && OnOneLine(t, 0, |t|)
    ensures Replace(EarlierPasses[3], "**" + t + "**") == Element("strong", t)
  {
    EnclosedWhole(Bold, t);
  }

  lemma StrongSurvives(t: string)
    requires Plain(t) && OnOneLine(t, 0, |t|)
    ensures forall k :: 3 < k < |EarlierPasses| ==> Replace(EarlierPasses[k], Element("strong", t)) == Element("strong", t)
    ensures Replace(LineBreak, Element("strong", t)) == Element("strong", t)
  {
    ElementSurvives("strong", t);
  }

  lemma BoldSurvivesHeaders(t: string)
    requires Plain(t)
    ensures forall k :: 0 <= k < 3 ==> Replace(EarlierPasses[k], "**" + t + "**") == "**" + t + "**"
  {
    var s := "**" + t + "**";
    assert '#' !in t;
    forall k | 0 <= k < 3 ensures Replace(EarlierPasses[k], s) == s {
      CharAbsentNoMarker(s, EarlierPasses[k]);
      NoMarkerNoChange(EarlierPasses[k], s);
    }
  }

  /** Two bullet lines come out as two lists of one item each: every
      `<li>` gets its own `<ul>`. */
  lemma RenderBulletList(a: string, b: string)
    requires Plain(a) && OnOneLine(a, 0, |a|)
    requires Plain(b) && OnOneLine(b, 0, |b|)
    ensures Render("- " + a + "\n- " + b) == Element("ul", Element("li", a)) + Element("ul", Element("li", b))
  {
    var s := "- " + a + "\n- " + b;
    BulletLinesSurviveEmphasis(a, b);
    var items := BulletPassSplitsLines(a, b);
    var lists := WrapPassWrapsEach(a, b);
    ListsSurviveLastPasses(a, b);
    TwoChanges(EarlierPasses, 5, s, items, lists);
  }

  lemma BulletLinesSurviveEmphasis(a: string, b: string)
    requires Plain(a) && Plain(b)
    ensures forall k :: 0 <= k < 5 ==> Replace(EarlierPasses[k], "- " + a + "\n- " + b) == "- " + a + "\n- " + b
  {
    var s := "- " + a + "\n- " + b;
    assert '#' !in a && '#' !in b && '*' !in a && '*' !in b;
    forall k | 0 <= k < 5 ensures Replace(EarlierPasses[k], s) == s {
      CharAbsentNoMarker(s, EarlierPasses[k]);
      NoMarkerNoChange(EarlierPasses[k], s);
    }
  }

  lemma ListsSurviveLastPasses(a: string, b: string)
    requires Plain(a) && OnOneLine(a, 0, |a|)
    requires Plain(b) && OnOneLine(b, 0, |b|)
    ensures var u := Element("ul", Element("li", a)) + Element("ul", Element("li", b));
            Replace(Numbered, u) == u && Replace(LineBreak, u) == u
  {
    var u := Element("ul", Element("li", a)) + Element("ul", Element("li", b));
    forall p: Pass | p.Numbered? || p.LineBreak? ensures Replace(p, u) == u {
      var c := Marker(p)[0];
      assert c in ".\n" && c !in a && c !in b;
      ElementLacks("li", a, c);
      ElementLacks("ul", Element("li", a), c);
      ElementLacks("li", b, c);
      ElementLacks("ul", Element("li", b), c);
      CharAbsentNoMarker(u, p);
      NoMarkerNoChange(p, u);
    }
  }

  /** An element holds only the characters of its tag, its body and `</>`. */
  lemma ElementLacks(tag: string, body: string, c: char)
    requires c !in "</>" && c !in tag && c !in body
    ensures c !in Element(tag, body)
  {
  }

  /** The bullet pass on two lines: one item per line, the newline
      between them consumed. */
  lemma {:induction false} BulletPassSplitsLines(a: string, b: string) returns (items: string)
    requires Plain(a) && OnOneLine(a, 0, |a|)
    requires Plain(b) && OnOneLine(b, 0, |b|)
    ensures items == Element("li", a) + Element("li", b)
    ensures Replace(Bullet, "- " + a + "\n- " + b) == items
  {
    items := Element("li", a) + Element("li", b);
    var s := "- " + a + "\n- " + b;
    var n := |a| + 2;
    assert OccursAt(s, 0, "- ") && OccursAt(s, n + 1, "- ");
    forall t | 2 <= t < n ensures s[t] == a[t - 2] {}
    forall t | n + 3 <= t < |s| ensures s[t] == b[t - n - 3] {}
    LineStopAt(s, 2, n);
    LineStopAt(s, n + 3, |s|);
    assert s[2..n] == a && s[n + 3..|s|] == b;
    assert MatchAt(Bullet, s, 0) == Some(Match(n + 1, Element("li", a)));
    assert MatchAt(Bullet, s, n + 1) == Some(Match(|s|, Element("li", b)));
    assert ReplaceFrom(Bullet, s, |s|) == "";
    assert ReplaceFrom(Bullet, s, n + 1) == Element("li", b);
  }

  /** The list pass on two adjacent items: each is wrapped on its own, as
      the lazy `.*?` stops at the first `</li>`. */
  lemma {:induction false} WrapPassWrapsEach(a: string, b: string) returns (lists: string)
    requires Plain(a) && OnOneLine(a, 0, |a|)
    requires Plain(b) && OnOneLine(b, 0, |b|)
    ensures lists == Element("ul", Element("li", a)) + Element("ul", Element("li", b))
    ensures Replace(WrapList, Element("li", a) + Element("li", b)) == lists
  {
    lists := Element("ul", Element("li", a)) + Element("ul", Element("li", b));
    var s := Element("li", a) + Element("li", b);
    var n := |a| + 9;
    WrapFirstItem(a, b);
    WrapSecondItem(a, b);
    assert ReplaceFrom(WrapList, s, |s|) == "";
    assert ReplaceFrom(WrapList, s, n) == Element("ul", Element("li", b));
  }

  lemma WrapFirstItem(a: string, b: string)
    requires Plain(a) && OnOneLine(a, 0, |a|)
    ensures var s := Element("li", a) + Element("li", b);
            MatchAt(WrapList, s, 0) == Some(Match(|a| + 9, Element("ul", Element("li", a))))
  {
    var s := Element("li", a) + Element("li", b);
    ItemShape(a);
    ItemShape(b);
    assert s[0..|a| + 9] == Element("li", a);
    assert s[|a| + 9] == Element("li", b)[0];
    WrapItemAt(s, 0, a);
  }

  lemma WrapSecondItem(a: string, b: string)
    requires Plain(b) && OnOneLine(b, 0, |b|)
    ensures var s := Element("li", a) + Element("li", b);
            MatchAt(WrapList, s, |a| + 9) == Some(Match(|s|, Element("ul", Element("li", b))))
  {
    var s := Element("li", a) + Element("li", b);
    ItemShape(a);
    assert s[|a| + 9..|a| + 9 + |b| + 9] == Element("li", b);
    WrapItemAt(s, |a| + 9, b);
  }

  /** `<li>x</li>`: the opening tag, `x`, the closing tag. */
  lemma ItemShape(x: string)
    ensures var e := Element("li", x);
            && |e| == |x| + 9 && e[0] == '<'
            && OccursAt(e, 0, "<li>") && OccursAt(e, |x| + 4, "</li>")
            && forall t :: 0 <= t < |x| ==> e[t + 4] == x[t]
  {
    var e := Element("li", x);
    assert e == "<li>" + x + "</li>";
  }

  /** An item with a plain one-line body followed by anything but a newline
      is wrapped on its own. */
  lemma WrapItemAt(s: string, i: nat, x: string)
    requires Plain(x) && OnOneLine(x, 0, |x|)
    requires i + |x| + 9 <= |s| && s[i..i + |x| + 9] == Element("li", x)
    requires i + |x| + 9 == |s| || s[i + |x| + 9] != '\n'
    ensures WrapAt(s, i) == Some(Match(i + |x| + 9, Element("ul", Element("li", x))))
  {
    var n := i + |x| + 9;
    assert OccursAt(s, i, "<li>") && LazyClose(s, i + 4, "</li>") == Some(n - 5) by {
      ItemCloses(s, i, x);
    }
    assert NewlinesEnd(s, n) == n;
  }

  /** Inside such an item, the lazy `.*?<\/li>` stops at the item's own
      closing tag. */
  lemma ItemCloses(s: string, i: nat, x: string)
    requires Plain(x) && OnOneLine(x, 0, |x|)
    requires i + |x| + 9 <= |s| && s[i..i + |x| + 9] == Element("li", x)
    ensures OccursAt(s, i, "<li>") && LazyClose(s, i + 4, "</li>") == Some(i + |x| + 4)
  {
    assert Element("li", x) == "<li>" + x + "</li>";
    assert forall t :: 0 <= t < |x| ==> x[t] != '<' && !IsLineTerminator(x[t]);
    BodyClosesAt(s, i, "<li>", x, "</li>");
  }

  /** A numbered item becomes `<li>` after the list pass has run, so it is
      never wrapped in `<ul>`. */
  lemma RenderNumbered(d: string, x: string)
    requires |d| > 0 && AllDigits(d, 0, |d|)
    requires Plain(x) && OnOneLine(x, 0, |x|)
    ensures Render(d + ". " + x) == Element("li", x)
  {
    NumberedLineSurvivesEarlierPasses(d, x);
    NumberedPassMakesItem(d, x);
    ItemSurvivesLineBreak(x);
    RenderThrough(7, d + ". " + x, Element("li", x));
  }

  lemma ItemSurvivesLineBreak(x: string)
    requires OnOneLine(x, 0, |x|)
    ensures Replace(LineBreak, Element("li", x)) == Element("li", x)
  {
    var li := Element("li", x);
    assert '\n' !in x;
    ElementLacks("li", x, '\n');
    CharAbsentNoMarker(li, LineBreak);
    NoMarkerNoChange(LineBreak, li);
  }

  lemma NumberedLineSurvivesEarlierPasses(d: string, x: string)
    requires AllDigits(d, 0, |d|) && Plain(x)
    ensures forall k :: 0 <= k < 7 ==> Replace(EarlierPasses[k], d + ". " + x) == d + ". " + x
  {
    var s := d + ". " + x;
    var n := |d|;
    forall t | 0 <= t < |s| ensures s[t] !in "#*-<" {
      if t < n {
        assert s[t] == d[t];
      } else if t >= n + 2 {
        assert s[t] == x[t - n - 2];
      }
    }
    forall k | 0 <= k < 7 ensures Replace(EarlierPasses[k], s) == s {
      assert Marker(EarlierPasses[k])[0] in "#*-<";
      CharAbsentNoMarker(s, EarlierPasses[k]);
      NoMarkerNoChange(EarlierPasses[k], s);
    }
  }

  lemma NumberedPassMakesItem(d: string, x: string)
    requires |d| > 0 && AllDigits(d, 0, |d|)
    requires OnOneLine(x, 0, |x|)
    ensures Replace(EarlierPasses[7], d + ". " + x) == Element("li", x)
  {
    var s := d + ". " + x;
    NumberedMatch(d, x);
    WholeMatch(Finder(Numbered, s), s, Element("li", x));
  }

  /** `d. x` on its own is one numbered item. */
  lemma NumberedMatch(d: string, x: string)
    requires |d| > 0 && AllDigits(d, 0, |d|)
    requires OnOneLine(x, 0, |x|)
    ensures MatchAt(Numbered, d + ". " + x, 0) == Some(Match(|d| + 2 + |x|, Element("li", x)))
  {
    var s := d + ". " + x;
    var n := |d|;
    assert AllDigits(s, 0, n) by {
      forall t | 0 <= t < n ensures IsDigit(s[t]) {
        assert s[t] == d[t];
      }
    }
    DigitRunEndAt(s, 0, n);
    assert OccursAt(s, n, ". ");
    forall t | n + 2 <= t < |s| ensures !IsLineTerminator(s[t]) {
      assert s[t] == x[t - n - 2];
    }
    LineStopAt(s, n + 2, |s|);
    assert s[n + 2..|s|] == x;
  }
}
