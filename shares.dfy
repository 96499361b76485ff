/** Shares of a frequency table: each count divided by the total, in exact
    arithmetic. */
module Shares {
  import opened Frequency

  /** The sum of `count / total` over the entries of `r`. */
  function ShareSum(r: seq<Entry>, total: nat): real
    requires total > 0
  {
    if r == [] then 0.0
    else ShareSum(r[..|r| - 1], total) + r[|r| - 1].count as real / total as real
  }

  lemma AddFractions(a: real, b: real, t: real)
    requires t > 0.0
    ensures a / t + b / t == (a + b) / t
  {
  }

  /** The shares of a table add up to its total count over `total`. */
  lemma {:induction false} ShareSumIsTotalShare(r: seq<Entry>, total: nat)
    requires total > 0
    ensures ShareSum(r, total) == TotalCount(r) as real / total as real
  {
    if r != [] {
      var init, last := r[..|r| - 1], r[|r| - 1];
      ShareSumIsTotalShare(init, total);
      assert r == init + [last];
      TotalCountAppend(init, last);
      AddFractions(TotalCount(init) as real, last.count as real, total as real);
    }
  }

  lemma WholeShare(n: nat)
    requires n > 0
    ensures n as real / n as real == 1.0
  {
  }

  /** The shares of every key of `xs` add up to one. */
  lemma TallySharesSumToOne(xs: seq<string>)
    requires xs != []
    ensures ShareSum(Tally(xs), |xs|) == 1.0
  {
    var t, n := Tally(xs), |xs|;
    ShareSumIsTotalShare(t, n);
    TallyTotal(xs);
    WholeShare(n);
  }
}
