/** The options page of options/options.js: the tag list typed as one
    comma-separated string, how saving turns it into the stored
    `tooltipConfig`, and how loading shows a stored list again. */
module TagSettings {
  import opened Wrappers
  import opened JsText
  import opened SeqUtil
  import Tooltip

  /** `.map(tag => tag.trim())`. */
  function TrimEach(parts: seq<string>): (r: seq<string>)
    ensures |r| == |parts|
    ensures forall k :: 0 <= k < |parts| ==> r[k] == Trim(parts[k])
  {
    if |parts| == 0 then [] else [Trim(parts[0])] + TrimEach(parts[1..])
  }

  /** `.filter(tag => tag)`: the non-empty pieces, in their order, with
      repeated pieces kept as often as they occur. */
  function DropEmpty(parts: seq<string>): (r: seq<string>)
    ensures SubsequenceOf(r, parts)
    ensures forall k :: 0 <= k < |r| ==> r[k] != ""
    ensures forall x :: x != "" ==> multiset(r)[x] == multiset(parts)[x]
  {
    if |parts| == 0 then []
    else
      var rest := DropEmpty(parts[1..]);
      assert parts == [parts[0]] + parts[1..];
      if parts[0] == "" then rest
      else
        assert ([parts[0]] + rest)[1..] == rest;
        [parts[0]] + rest
  }

  /** A tag as saving leaves it: non-empty, upper-case, trimmed, no comma. */
  predicate ValidTag(t: string) {
    t != "" && IsUpperStable(t) && IsTrimmed(t) && ',' !in t
  }

  /** The tag list the save button stores for the field's text `input`:
      upper-cased, split at commas, each piece trimmed, empty pieces dropped. */
  function ParseTags(input: string): (tags: seq<string>)
    ensures forall k :: 0 <= k < |tags| ==> ValidTag(tags[k])
  {
    var tags := DropEmpty(TrimEach(Split(ToUpper(input), ',')));
    PiecesMakeValidTags(input);
    assert forall k :: 0 <= k < |tags| ==> tags[k] in tags;
    tags
  }

  lemma PiecesMakeValidTags(input: string)
    ensures forall t :: t in DropEmpty(TrimEach(Split(ToUpper(input), ','))) ==> ValidTag(t)
  {
    var upper := ToUpper(input);
    var pieces := Split(upper, ',');
    var trimmed := TrimEach(pieces);
    ToUpperIsUpperStable(input);
    SplitKeepsUpperStable(upper, ',');
    forall k | 0 <= k < |trimmed| && trimmed[k] != "" ensures ValidTag(trimmed[k]) {
      TrimmedPieceIsValid(pieces[k]);
    }
    var tags := DropEmpty(trimmed);
    forall t | t in tags ensures ValidTag(t) {
      assert t in multiset(tags);
      assert t in trimmed;
    }
  }

  /** Every piece of an upper-case string is upper-case. */
  lemma {:induction false} SplitKeepsUpperStable(s: string, sep: char)
    requires IsUpperStable(s)
    ensures forall k :: 0 <= k < |Split(s, sep)| ==> IsUpperStable(Split(s, sep)[k])
    decreases |s|
  {
    if |s| > 0 {
      SplitKeepsUpperStable(s[1..], sep);
    }
  }

  /** A comma-free upper-case piece trims to a valid tag unless it is blank. */
  lemma TrimmedPieceIsValid(p: string)
    requires IsUpperStable(p) && ',' !in p && Trim(p) != ""
    ensures ValidTag(Trim(p))
  {
    var r := Trim(p);
    TrimOfUpperIsUpper(p);
    var a := LeadingSpace(p);
    forall i | 0 <= i < |r| ensures r[i] != ',' {
      assert r[i] == p[a + i];
      assert p[a + i] in p;
    }
  }

  /** The object the save button stores: `showText` is always `true`. */
  function SaveConfig(input: string): (cfg: Tooltip.StoredConfig)
    ensures cfg.showText == Some(true)
    ensures cfg.includeTags.Some?
    ensures forall k :: 0 <= k < |cfg.includeTags.value| ==> ValidTag(cfg.includeTags.value[k])
  {
    Tooltip.StoredConfig(Some(true), Some(ParseTags(input)))
  }

  /** What the field shows once the page has loaded: the stored tags joined
      with commas, or nothing when no list is stored. */
  function LoadField(stored: Option<Tooltip.StoredConfig>): (field: string)
    ensures stored.None? || stored.value.includeTags.None? ==> field == ""
    ensures stored.Some? && stored.value.includeTags.Some? ==> field == Join(stored.value.includeTags.value, ",")
  {
    match stored
    case None => ""
    case Some(cfg) => if cfg.includeTags.Some? then Join(cfg.includeTags.value, ",") else ""
  }

  lemma {:induction false} JoinUpperStable(parts: seq<string>, sep: string)
    requires IsUpperStable(sep)
    requires forall k :: 0 <= k < |parts| ==> IsUpperStable(parts[k])
    ensures IsUpperStable(Join(parts, sep))
    decreases |parts|
  {
    if |parts| > 1 {
      JoinUpperStable(parts[1..], sep);
    }
  }

  lemma {:induction false} TrimEachOfTrimmed(parts: seq<string>)
    requires forall k :: 0 <= k < |parts| ==> IsTrimmed(parts[k])
    ensures TrimEach(parts) == parts
  {
    forall k | 0 <= k < |parts| ensures TrimEach(parts)[k] == parts[k] {
      TrimOfTrimmed(parts[k]);
    }
  }

  lemma {:induction false} DropEmptyOfNonEmpty(parts: seq<string>)
    requires forall k :: 0 <= k < |parts| ==> parts[k] != ""
    ensures DropEmpty(parts) == parts
    decreases |parts|
  {
    if |parts| > 0 {
      DropEmptyOfNonEmpty(parts[1..]);
      assert [parts[0]] + parts[1..] == parts;
    }
  }

  /** Saving what loading shows gives the same list back: valid tags joined
      with commas parse to themselves. */
  lemma {:induction false} ParseJoinedTags(tags: seq<string>)
    requires forall k :: 0 <= k < |tags| ==> ValidTag(tags[k])
    ensures ParseTags(Join(tags, ",")) == tags
  {
    if |tags| == 0 {
      assert Split(ToUpper(""), ',') == [""];
      assert TrimEach([""]) == [""];
    } else {
      var joined := Join(tags, [',']);
      JoinUpperStable(tags, [',']);
      ToUpperIsUpperStable(joined);
      SplitJoin(tags, ',');
      TrimEachOfTrimmed(tags);
      DropEmptyOfNonEmpty(tags);
    }
  }

  /** Load, then save without editing: the stored list does not change. */
  lemma LoadThenSaveKeepsTags(input: string)
    ensures var saved := SaveConfig(input);
            SaveConfig(LoadField(Some(saved))) == saved
  {
    var t := ParseTags(input);
    var saved := SaveConfig(input);
    assert saved.includeTags == Some(t);
    assert LoadField(Some(saved)) == Join(t, ",");
    ParseJoinedTags(t);
    assert SaveConfig(Join(t, ",")) == Tooltip.StoredConfig(Some(true), Some(t));
  }

  /** Saving is idempotent on the text: what it stores, shown and saved
      again, is what it stored. */
  lemma ParseTagsIdempotent(input: string)
    ensures ParseTags(Join(ParseTags(input), ",")) == ParseTags(input)
  {
    ParseJoinedTags(ParseTags(input));
  }

  /** A field without commas whose text is not blank stores one tag: the
      text upper-cased and trimmed. */
  lemma {:induction false} SingleTag(input: string)
    requires ',' !in input && Trim(input) != ""
    ensures ParseTags(input) == [Trim(ToUpper(input))]
  {
    var upper := ToUpper(input);
    assert ',' !in upper by {
      forall i | 0 <= i < |upper| ensures upper[i] != ',' {
        assert input[i] in input;
      }
    }
    SplitOfPlain(upper, ',');
    TrimOfUpperCase(input);
  }

  /** Whether a trimmed string is empty does not depend on upper-casing. */
  lemma TrimOfUpperCase(s: string)
    ensures (Trim(ToUpper(s)) == "") <==> (Trim(s) == "")
  {
    var u := ToUpper(s);
    assert forall i :: 0 <= i < |s| ==> (IsWhitespace(u[i]) <==> IsWhitespace(s[i]));
    if Trim(s) == "" {
      assert forall i :: 0 <= i < |u| ==> IsWhitespace(u[i]);
      TrimOfBlank(u);
    } else {
      var a := LeadingSpace(s);
      assert !IsWhitespace(s[a]);
      TrimKeepsNonBlank(u, a);
    }
  }

  lemma TrimOfBlank(s: string)
    requires forall i :: 0 <= i < |s| ==> IsWhitespace(s[i])
    ensures Trim(s) == ""
  {
  }

  lemma TrimKeepsNonBlank(s: string, i: nat)
    requires i < |s| && !IsWhitespace(s[i])
    ensures Trim(s) != ""
  {
  }

  /** What the tooltip uses after a save: the saved list replaces the
      default tags, and the other switches stay as they were. */
  lemma SavedTagsReachTooltip(input: string)
    ensures var cfg := Tooltip.MergeStored(Tooltip.DefaultConfig, Some(SaveConfig(input)));
            && cfg.includeTags == ParseTags(input)
            && cfg.showText == Some(true)
            && cfg.showAnalysis && cfg.showMetrics && cfg.showSentiment
  {
  }
}
