/** Order-preserving selections from sequences. */
module SeqUtil {

  /** `r` keeps some of the entries of `xs`, in their order. */
  ghost predicate SubsequenceOf<T>(r: seq<T>, xs: seq<T>)
    decreases |xs|
  {
    if |r| == 0 then true
    else if |xs| == 0 then false
    else (r[0] == xs[0] && SubsequenceOf(r[1..], xs[1..])) || SubsequenceOf(r, xs[1..])
  }

  ghost predicate NoDuplicates<T>(xs: seq<T>) {
    forall i, j :: 0 <= i < j < |xs| ==> xs[i] != xs[j]
  }

  /** Dropping a new last entry keeps a subsequence a subsequence. */
  lemma {:induction false} SubsequenceOfSnoc<T>(r: seq<T>, xs: seq<T>, a: T)
    requires SubsequenceOf(r, xs)
    ensures SubsequenceOf(r, xs + [a])
    decreases |xs|
  {
    if |r| > 0 && |xs| > 0 {
      assert (xs + [a])[1..] == xs[1..] + [a];
      if r[0] == xs[0] && SubsequenceOf(r[1..], xs[1..]) {
        SubsequenceOfSnoc(r[1..], xs[1..], a);
      } else {
        SubsequenceOfSnoc(r, xs[1..], a);
      }
    }
  }

  /** Keeping a new last entry keeps a subsequence a subsequence. */
  lemma {:induction false} SubsequenceOfSnocBoth<T>(r: seq<T>, xs: seq<T>, a: T)
    requires SubsequenceOf(r, xs)
    ensures SubsequenceOf(r + [a], xs + [a])
    decreases |xs|
  {
    assert (xs + [a])[1..] == if |xs| > 0 then xs[1..] + [a] else [];
    if |r| == 0 {
      if |xs| > 0 {
        SubsequenceOfSnocBoth(r, xs[1..], a);
        assert SubsequenceOf(r + [a], (xs + [a])[1..]);
      } else {
        assert SubsequenceOf((r + [a])[1..], (xs + [a])[1..]);
      }
    } else {
      assert |xs| > 0;
      assert (r + [a])[1..] == r[1..] + [a];
      if r[0] == xs[0] && SubsequenceOf(r[1..], xs[1..]) {
        SubsequenceOfSnocBoth(r[1..], xs[1..], a);
      } else {
        SubsequenceOfSnocBoth(r, xs[1..], a);
      }
    }
  }
}
