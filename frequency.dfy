/** Occurrence counting and the stable most-common ranking: the behaviour of
    `Counter(xs).most_common()` and of taking its first `n` keys. */
module Frequency {

  /** How many times `k` occurs in `xs`. */
  function Occurrences(xs: seq<string>, k: string): (n: nat)
    ensures n <= |xs|
    ensures n > 0 <==> k in xs
  {
    if xs == [] then 0
    else
      var init := xs[..|xs| - 1];
      assert xs == init + [xs[|xs| - 1]];
      Occurrences(init, k) + (if xs[|xs| - 1] == k then 1 else 0)
  }

  lemma OccurrencesSnoc(xs: seq<string>, x: string, k: string)
    ensures Occurrences(xs + [x], k) == Occurrences(xs, k) + (if x == k then 1 else 0)
  {
    assert (xs + [x])[..|xs|] == xs;
  }

  /** The distinct values of `xs` in order of first occurrence: the key order
      of a `Counter` built from `xs`. */
  function Distinct(xs: seq<string>): (ks: seq<string>)
    ensures forall k :: k in ks <==> k in xs
    ensures forall i, j :: 0 <= i < j < |ks| ==> ks[i] != ks[j]
  {
    if xs == [] then []
    else
      var init := xs[..|xs| - 1];
      assert xs == init + [xs[|xs| - 1]];
      if xs[|xs| - 1] in init then Distinct(init) else Distinct(init) + [xs[|xs| - 1]]
  }

  /** The index of the first occurrence of `k` in `xs`, or `|xs|` when `k`
      does not occur. */
  function FirstPos(xs: seq<string>, k: string): (p: nat)
    ensures p <= |xs|
    ensures p < |xs| <==> k in xs
    ensures p < |xs| ==> xs[p] == k
    ensures k !in xs[..p]
  {
    if xs == [] then 0
    else if xs[0] == k then 0
    else
      assert xs == [xs[0]] + xs[1..];
      1 + FirstPos(xs[1..], k)
  }

  /** `a` comes before `b` in the most-common order of `xs`: it occurs more
      often, or as often and first occurs earlier (the sort is stable). */
  predicate Outranks(xs: seq<string>, a: string, b: string)
  {
    || Occurrences(xs, a) > Occurrences(xs, b)
    || (Occurrences(xs, a) == Occurrences(xs, b) && FirstPos(xs, a) < FirstPos(xs, b))
  }

  /** A (key, count) pair of a frequency table. */
  datatype Entry = Entry(key: string, count: nat)

  function Keys(r: seq<Entry>): seq<string>
  {
    seq(|r|, i requires 0 <= i < |r| => r[i].key)
  }

  /** The sum of the counts of a table: `sum(freq.values())`. */
  function TotalCount(r: seq<Entry>): nat
  {
    if r == [] then 0 else r[0].count + TotalCount(r[1..])
  }

  /** `Counter(xs)` read as a list of items: the entries of the keys `ks`. */
  function TallyOf(xs: seq<string>, ks: seq<string>): seq<Entry>
  {
    seq(|ks|, i requires 0 <= i < |ks| => Entry(ks[i], Occurrences(xs, ks[i])))
  }

  function Tally(xs: seq<string>): seq<Entry>
  {
    TallyOf(xs, Distinct(xs))
  }

  /** Places `e` after every entry whose count is at least its own. */
  function InsertByCount(s: seq<Entry>, e: Entry): seq<Entry>
  {
    if s == [] || s[0].count < e.count then [e] + s
    else [s[0]] + InsertByCount(s[1..], e)
  }

  /** A stable sort by count, descending. */
  function SortByCount(t: seq<Entry>): seq<Entry>
  {
    if t == [] then [] else InsertByCount(SortByCount(t[..|t| - 1]), t[|t| - 1])
  }

  /** `Counter(xs).most_common()`. */
  function MostCommon(xs: seq<string>): seq<Entry>
  {
    SortByCount(Tally(xs))
  }

  /** `list(dict(Counter(xs).most_common()[:n]).keys())`. */
  function TopKeys(xs: seq<string>, n: nat): seq<string>
  {
    var r := MostCommon(xs);
    Keys(r[..if n < |r| then n else |r|])
  }

  /** Every entry is a key of `xs` with its number of occurrences. */
  predicate Faithful(xs: seq<string>, r: seq<Entry>)
  {
    forall i :: 0 <= i < |r| ==> r[i].key in xs && r[i].count == Occurrences(xs, r[i].key)
  }

  predicate InRankOrder(xs: seq<string>, r: seq<Entry>)
  {
    forall i, j :: 0 <= i < j < |r| ==> Outranks(xs, r[i].key, r[j].key)
  }

  /** `r` lists every key of `xs` once, with its count, in most-common order. */
  predicate Ranked(xs: seq<string>, r: seq<Entry>)
  {
    && Faithful(xs, r)
    && InRankOrder(xs, r)
    && (forall k :: k in xs ==> k in Keys(r))
  }

  /** `top` is what taking the first `n` keys of the most-common order gives:
      at most `n` keys (fewer only when `xs` has fewer), in most-common order,
      each outranking every key of `xs` left out. */
  predicate IsTopKeys(xs: seq<string>, n: nat, top: seq<string>)
  {
    && |top| <= n
    && (|top| == n || forall k :: k in xs ==> k in top)
    && (forall i :: 0 <= i < |top| ==> top[i] in xs)
    && (forall i, j :: 0 <= i < j < |top| ==> Outranks(xs, top[i], top[j]))
    && (forall i, k :: 0 <= i < |top| && k in xs && k !in top ==> Outranks(xs, top[i], k))
  }

  // ---------------------------------------------------------------------
  // The order

  lemma OutranksIsStrict(xs: seq<string>, a: string, b: string)
    ensures !(Outranks(xs, a, b) && Outranks(xs, b, a))
    ensures a in xs && b in xs && a != b ==> Outranks(xs, a, b) || Outranks(xs, b, a)
  {
    if a in xs && b in xs && a != b {
      assert FirstPos(xs, a) != FirstPos(xs, b);
    }
  }

  lemma FirstPosOfPrefix(xs: seq<string>, m: nat, k: string)
    requires m <= |xs|
    ensures k in xs[..m] ==> FirstPos(xs, k) == FirstPos(xs[..m], k)
    ensures k !in xs[..m] ==> FirstPos(xs, k) >= m
  {
  }

  /** The keys of a `Counter` come in order of first occurrence. */
  lemma {:induction false} DistinctInFirstOccurrenceOrder(xs: seq<string>, i: nat, j: nat)
    requires i < j < |Distinct(xs)|
    ensures FirstPos(xs, Distinct(xs)[i]) < FirstPos(xs, Distinct(xs)[j])
  {
    var n := |xs|;
    var init := xs[..n - 1];
    var d, di := Distinct(xs), Distinct(init);
    assert d[i] == di[i] && d[i] in init;
    FirstPosOfPrefix(xs, n - 1, d[i]);
    if j < |di| {
      assert d[j] == di[j];
      DistinctInFirstOccurrenceOrder(init, i, j);
      FirstPosOfPrefix(xs, n - 1, d[j]);
    } else {
      assert d[j] == xs[n - 1] && d[j] !in init;
      FirstPosOfPrefix(xs, n - 1, d[j]);
    }
  }

  // ---------------------------------------------------------------------
  // Counts add up

  lemma {:induction false} TotalCountAppend(r: seq<Entry>, e: Entry)
    ensures TotalCount(r + [e]) == TotalCount(r) + e.count
  {
    if r != [] {
      assert (r + [e])[1..] == r[1..] + [e];
      TotalCountAppend(r[1..], e);
    }
  }

  lemma {:induction false} OccurrencesOfDistinct(ks: seq<string>, x: string)
    requires forall i, j :: 0 <= i < j < |ks| ==> ks[i] != ks[j]
    ensures Occurrences(ks, x) == if x in ks then 1 else 0
  {
    if ks != [] {
      var init := ks[..|ks| - 1];
      OccurrencesOfDistinct(init, x);
      assert ks == init + [ks[|ks| - 1]];
      if ks[|ks| - 1] == x {
        assert x !in init;
      }
    }
  }

  /** Adding one more value `x` to the counted list adds, to the table of the
      keys `ks`, one for every time `x` is among `ks`. */
  lemma {:induction false} TallyOfSnoc(p: seq<string>, x: string, ks: seq<string>)
    ensures TotalCount(TallyOf(p + [x], ks)) == TotalCount(TallyOf(p, ks)) + Occurrences(ks, x)
  {
    if ks != [] {
      var init, last := ks[..|ks| - 1], ks[|ks| - 1];
      TallyOfSnoc(p, x, init);
      assert (p + [x])[..|p|] == p;
      assert TallyOf(p + [x], ks) == TallyOf(p + [x], init) + [Entry(last, Occurrences(p + [x], last))];
      assert TallyOf(p, ks) == TallyOf(p, init) + [Entry(last, Occurrences(p, last))];
      TotalCountAppend(TallyOf(p + [x], init), Entry(last, Occurrences(p + [x], last)));
      TotalCountAppend(TallyOf(p, init), Entry(last, Occurrences(p, last)));
    }
  }

  /** The counts of a `Counter` sum to the number of values counted. */
  lemma {:induction false} TallyTotal(xs: seq<string>)
    ensures TotalCount(Tally(xs)) == |xs|
  {
    if xs != [] {
      var init, x := xs[..|xs| - 1], xs[|xs| - 1];
      assert xs == init + [x];
      TallyTotal(init);
      var di := Distinct(init);
      TallyOfSnoc(init, x, di);
      OccurrencesOfDistinct(di, x);
      if x !in init {
        assert Distinct(xs) == di + [x];
        assert TallyOf(xs, Distinct(xs)) == TallyOf(xs, di) + [Entry(x, Occurrences(xs, x))];
        TotalCountAppend(TallyOf(xs, di), Entry(x, Occurrences(xs, x)));
      }
    }
  }

  // ---------------------------------------------------------------------
  // The sort yields the ranking

  /** Putting in front an entry that outranks all others keeps the rank order. */
  lemma ConsKeepsRankOrder(xs: seq<string>, a: Entry, s: seq<Entry>)
    requires Faithful(xs, s) && InRankOrder(xs, s)
    requires a.key in xs && a.count == Occurrences(xs, a.key)
    requires forall j :: 0 <= j < |s| ==> Outranks(xs, a.key, s[j].key)
    ensures Faithful(xs, [a] + s) && InRankOrder(xs, [a] + s)
    ensures TotalCount([a] + s) == a.count + TotalCount(s)
  {
    var r := [a] + s;
    assert r[1..] == s;
    forall i, j | 0 <= i < j < |r| ensures Outranks(xs, r[i].key, r[j].key) {
      if i > 0 {
        assert r[i] == s[i - 1] && r[j] == s[j - 1];
      }
    }
  }

  /** The new entry goes in front when the table is empty or its first
      count is smaller. */
  lemma InsertInFront(xs: seq<string>, s: seq<Entry>, e: Entry)
    requires Faithful(xs, s) && InRankOrder(xs, s)
    requires e.key in xs && e.count == Occurrences(xs, e.key)
    requires s == [] || s[0].count < e.count
    ensures forall i :: 0 <= i < |s| ==> Outranks(xs, e.key, s[i].key)
  {
    forall i | 0 <= i < |s| ensures Outranks(xs, e.key, s[i].key) {
      if i > 0 { assert Outranks(xs, s[0].key, s[i].key); }
    }
  }

  lemma TailKeepsRankOrder(xs: seq<string>, s: seq<Entry>)
    requires s != [] && Faithful(xs, s) && InRankOrder(xs, s)
    ensures Faithful(xs, s[1..]) && InRankOrder(xs, s[1..])
    ensures forall j :: 0 <= j < |s[1..]| ==> Outranks(xs, s[0].key, s[1..][j].key)
  {
    var tail := s[1..];
    forall i, j | 0 <= i < j < |tail| ensures Outranks(xs, tail[i].key, tail[j].key) {
      assert tail[i] == s[i + 1] && tail[j] == s[j + 1];
    }
    forall j | 0 <= j < |tail| ensures Outranks(xs, s[0].key, tail[j].key) {
      assert tail[j] == s[j + 1];
    }
  }

  lemma OutranksAllMoved(xs: seq<string>, a: string, tail: seq<Entry>, e: Entry, rest: seq<Entry>)
    requires forall j :: 0 <= j < |tail| ==> Outranks(xs, a, tail[j].key)
    requires Outranks(xs, a, e.key)
    requires multiset(rest) == multiset(tail) + multiset{e}
    ensures forall j :: 0 <= j < |rest| ==> Outranks(xs, a, rest[j].key)
  {
    forall j | 0 <= j < |rest| ensures Outranks(xs, a, rest[j].key) {
      assert rest[j] in multiset(tail) + multiset{e};
    }
  }

  lemma {:induction false} InsertKeepsRankOrder(xs: seq<string>, s: seq<Entry>, e: Entry)
    requires Faithful(xs, s) && InRankOrder(xs, s)
    requires e.key in xs && e.count == Occurrences(xs, e.key)
    requires forall i :: 0 <= i < |s| ==> FirstPos(xs, s[i].key) < FirstPos(xs, e.key)
    ensures Faithful(xs, InsertByCount(s, e)) && InRankOrder(xs, InsertByCount(s, e))
    ensures multiset(InsertByCount(s, e)) == multiset(s) + multiset{e}
    ensures TotalCount(InsertByCount(s, e)) == TotalCount(s) + e.count
  {
    if s == [] || s[0].count < e.count {
      InsertInFront(xs, s, e);
      ConsKeepsRankOrder(xs, e, s);
    } else {
      var tail := s[1..];
      TailKeepsRankOrder(xs, s);
      assert forall i :: 0 <= i < |tail| ==> FirstPos(xs, tail[i].key) < FirstPos(xs, e.key);
      InsertKeepsRankOrder(xs, tail, e);
      InsertBehindHead(xs, s, e, InsertByCount(tail, e));
    }
  }

  /** The step of the insertion that passes the head: the head stays in
      front of the tail with `e` inserted. */
  lemma InsertBehindHead(xs: seq<string>, s: seq<Entry>, e: Entry, rest: seq<Entry>)
    requires s != [] && Faithful(xs, s) && InRankOrder(xs, s)
    requires e.key in xs && e.count == Occurrences(xs, e.key)
    requires s[0].count >= e.count && FirstPos(xs, s[0].key) < FirstPos(xs, e.key)
    requires Faithful(xs, rest) && InRankOrder(xs, rest)
    requires multiset(rest) == multiset(s[1..]) + multiset{e}
    requires TotalCount(rest) == TotalCount(s[1..]) + e.count
    ensures Faithful(xs, [s[0]] + rest) && InRankOrder(xs, [s[0]] + rest)
    ensures multiset([s[0]] + rest) == multiset(s) + multiset{e}
    ensures TotalCount([s[0]] + rest) == TotalCount(s) + e.count
  {
    var tail := s[1..];
    assert s == [s[0]] + tail;
    TailKeepsRankOrder(xs, s);
    assert Outranks(xs, s[0].key, e.key);
    OutranksAllMoved(xs, s[0].key, tail, e, rest);
    ConsKeepsRankOrder(xs, s[0], rest);
  }

  /** Sorting a faithful table whose keys come in order of first occurrence
      yields the rank order. */
  lemma {:induction false} SortByCountRanks(xs: seq<string>, t: seq<Entry>)
    requires Faithful(xs, t)
    requires forall i, j :: 0 <= i < j < |t| ==> FirstPos(xs, t[i].key) < FirstPos(xs, t[j].key)
    ensures Faithful(xs, SortByCount(t)) && InRankOrder(xs, SortByCount(t))
    ensures multiset(SortByCount(t)) == multiset(t)
    ensures TotalCount(SortByCount(t)) == TotalCount(t)
  {
    if t != [] {
      var init, e := t[..|t| - 1], t[|t| - 1];
      assert t == init + [e];
      SortByCountRanks(xs, init);
      var s := SortByCount(init);
      EntriesBefore(xs, t, s);
      InsertKeepsRankOrder(xs, s, e);
      TotalCountAppend(init, e);
    }
  }

  lemma EntriesBefore(xs: seq<string>, t: seq<Entry>, s: seq<Entry>)
    requires t != []
    requires forall i, j :: 0 <= i < j < |t| ==> FirstPos(xs, t[i].key) < FirstPos(xs, t[j].key)
    requires multiset(s) == multiset(t[..|t| - 1])
    ensures forall i :: 0 <= i < |s| ==> FirstPos(xs, s[i].key) < FirstPos(xs, t[|t| - 1].key)
  {
    forall i | 0 <= i < |s| ensures FirstPos(xs, s[i].key) < FirstPos(xs, t[|t| - 1].key) {
      assert s[i] in multiset(t[..|t| - 1]);
      var j :| 0 <= j < |t| - 1 && t[..|t| - 1][j] == s[i];
      assert t[j] == s[i];
    }
  }

  /** The tally of a `Counter` is faithful, with keys in first-occurrence order. */
  lemma TallyInFirstOccurrenceOrder(xs: seq<string>)
    ensures Faithful(xs, Tally(xs))
    ensures forall i, j :: 0 <= i < j < |Tally(xs)| ==> FirstPos(xs, Tally(xs)[i].key) < FirstPos(xs, Tally(xs)[j].key)
  {
    forall i, j | 0 <= i < j < |Tally(xs)|
      ensures FirstPos(xs, Tally(xs)[i].key) < FirstPos(xs, Tally(xs)[j].key)
    {
      DistinctInFirstOccurrenceOrder(xs, i, j);
    }
  }

  /** `Counter(xs).most_common()` lists every value of `xs` exactly once, with
      its number of occurrences, by count descending and, among equal counts,
      by first occurrence; it is a rearrangement of the `Counter`'s items and
      its counts sum to `|xs|`. */
  lemma MostCommonIsRanked(xs: seq<string>)
    ensures Ranked(xs, MostCommon(xs))
    ensures multiset(MostCommon(xs)) == multiset(Tally(xs))
    ensures |MostCommon(xs)| == |Distinct(xs)|
    ensures TotalCount(MostCommon(xs)) == |xs|
  {
    var d := Distinct(xs);
    var t := Tally(xs);
    var r := MostCommon(xs);
    TallyInFirstOccurrenceOrder(xs);
    SortByCountRanks(xs, t);
    TallyTotal(xs);
    assert |r| == |multiset(r)| == |multiset(t)|;
    forall k | k in xs ensures k in Keys(t) {
      var i :| 0 <= i < |d| && d[i] == k;
      assert Keys(t)[i] == k;
    }
    SameKeys(t, r);
  }

  /** A rearrangement of a table has the same keys. */
  lemma SameKeys(t: seq<Entry>, r: seq<Entry>)
    requires multiset(r) == multiset(t)
    ensures forall k :: k in Keys(t) ==> k in Keys(r)
  {
    forall k | k in Keys(t) ensures k in Keys(r) {
      var i :| 0 <= i < |t| && t[i].key == k;
      assert t[i] in multiset(r);
      var j :| 0 <= j < |r| && r[j] == t[i];
      assert Keys(r)[j] == k;
    }
  }

  /** Taking the first `n` keys of `most_common()` gives the top `n` keys. */
  lemma TopKeysAreTop(xs: seq<string>, n: nat)
    ensures IsTopKeys(xs, n, TopKeys(xs, n))
  {
    var r := MostCommon(xs);
    MostCommonIsRanked(xs);
    PrefixOfRankedIsTop(xs, r, n);
  }

  /** The top `n` keys are min(n, number of distinct keys) keys, none
      repeated. */
  lemma TopKeysShape(xs: seq<string>, n: nat)
    ensures |TopKeys(xs, n)| == if n < |Distinct(xs)| then n else |Distinct(xs)|
    ensures forall i, j :: 0 <= i < j < |TopKeys(xs, n)| ==> TopKeys(xs, n)[i] != TopKeys(xs, n)[j]
  {
    MostCommonIsRanked(xs);
    TopKeysAreTop(xs, n);
    var top := TopKeys(xs, n);
    forall i, j | 0 <= i < j < |top| ensures top[i] != top[j] {
      OutranksIsStrict(xs, top[i], top[j]);
    }
  }

  /** The first `n` keys of any ranking of `xs` are a top-`n` list. */
  lemma PrefixOfRankedIsTop(xs: seq<string>, r: seq<Entry>, n: nat)
    requires Ranked(xs, r)
    ensures IsTopKeys(xs, n, Keys(r[..if n < |r| then n else |r|]))
  {
    var m := if n < |r| then n else |r|;
    var top := Keys(r[..m]);
    assert forall i :: 0 <= i < m ==> top[i] == r[i].key;
    if m == |r| {
      assert r[..m] == r;
    }
    forall i, k | 0 <= i < |top| && k in xs && k !in top ensures Outranks(xs, top[i], k) {
      var j :| 0 <= j < |r| && Keys(r)[j] == k;
      assert j >= m;
    }
  }

  /** Nothing but the first `n` keys of `most_common()` is a top-`n` list:
      the top keys are determined by the counts and first occurrences alone. */
  lemma TopKeysUnique(xs: seq<string>, n: nat, top: seq<string>)
    requires IsTopKeys(xs, n, top)
    ensures top == TopKeys(xs, n)
  {
    var r := MostCommon(xs);
    MostCommonIsRanked(xs);
    TopIsPrefixOfRanked(xs, r, n, top);
  }

  lemma TopIsPrefixOfRanked(xs: seq<string>, r: seq<Entry>, n: nat, top: seq<string>)
    requires IsTopKeys(xs, n, top)
    requires Ranked(xs, r)
    ensures top == Keys(r[..if n < |r| then n else |r|])
  {
    var ks := Keys(r);
    forall i | 0 <= i < |top| ensures i < |ks| && top[i] == ks[i] {
      TopAgreesWithRanking(xs, r, n, top, i);
    }
    if |top| > 0 {
      TopAgreesWithRanking(xs, r, n, top, |top| - 1);
    }
    assert top == ks[..|top|];
    var m := if n < |r| then n else |r|;
    if |top| < n {
      forall i, j | 0 <= i < j < |ks| ensures ks[i] != ks[j] {
        assert Outranks(xs, r[i].key, r[j].key);
      }
      forall k | k in ks ensures k in top {
        var i :| 0 <= i < |ks| && ks[i] == k;
        assert r[i].key in xs;
      }
      PrefixHoldingAllIsWhole(ks, top);
    }
    assert top == Keys(r[..m]);
  }

  lemma NotInEarlierPrefix(ks: seq<string>, j: nat)
    ensures (forall a, b :: 0 <= a < b < |ks| ==> ks[a] != ks[b]) && j < |ks| ==>
      ks[j] in ks && ks[j] !in ks[..j]
  {
  }

  lemma PrefixHoldingAllIsWhole(ks: seq<string>, top: seq<string>)
    requires forall i, j :: 0 <= i < j < |ks| ==> ks[i] != ks[j]
    requires |top| <= |ks| && top == ks[..|top|]
    requires forall k :: k in ks ==> k in top
    ensures |top| == |ks|
  {
    if |top| < |ks| {
      NotInEarlierPrefix(ks, |top|);
      assert false;
    }
  }

  lemma {:induction false} TopAgreesWithRanking(xs: seq<string>, r: seq<Entry>, n: nat, top: seq<string>, i: nat)
    requires IsTopKeys(xs, n, top)
    requires Ranked(xs, r)
    requires i < |top|
    ensures i < |Keys(r)| && top[i] == Keys(r)[i]
    decreases i
  {
    var ks := Keys(r);
    forall q | 0 <= q < i ensures q < |ks| && top[q] == ks[q] {
      TopAgreesWithRanking(xs, r, n, top, q);
    }
    var a := top[i];
    // ks[..i] == top[..i] and top has no repeated key, so a lies at index >= i in ks
    assert a in ks;
    var j :| 0 <= j < |ks| && ks[j] == a;
    if j < i {
      assert top[j] == a;
      OutranksIsStrict(xs, a, a);
    }
    if j > i {
      var b := ks[i];
      assert Outranks(xs, b, a);
      if b in top {
        var q :| 0 <= q < |top| && top[q] == b;
        if q < i {
          assert ks[q] == b;
          OutranksIsStrict(xs, b, b);
        } else if q == i {
          OutranksIsStrict(xs, a, a);
        } else {
          OutranksIsStrict(xs, a, b);
        }
      } else {
        OutranksIsStrict(xs, a, b);
      }
    }
  }
}
