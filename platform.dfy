/** The share breakdown of one platform's catalogue: every genre (or
    production country) with its rounded share of all occurrences, the
    small ones folded into a trailing "Other" record. */
module PlatformShares {
  import opened Rows
  import opened Frequency
  import opened Rounding
  import opened Shares

  datatype ShareRecord = ShareRecord(name: string, value: real)

  /** Genres below a 3% share are folded into "Other". */
  const GenreThreshold: real := 0.03

  /** Countries below a 2% share are folded into "Other". */
  const CountryThreshold: real := 0.02

  function Upper(c: char): char
  {
    if 'a' <= c <= 'z' then (c as int - 32) as char else c
  }

  function Lower(c: char): char
  {
    if 'A' <= c <= 'Z' then (c as int + 32) as char else c
  }

  /** `str.capitalize` on ASCII text: first character upper case, the rest
      lower case. */
  function Capitalize(s: string): (r: string)
    ensures |r| == |s|
    ensures s != [] ==> r[0] == Upper(s[0])
    ensures forall i :: 1 <= i < |s| ==> r[i] == Lower(s[i])
  {
    if s == [] then [] else [Upper(s[0])] + seq(|s| - 1, i requires 0 <= i < |s| - 1 => Lower(s[i + 1]))
  }

  /** `round(count / total, 2)`. */
  function RoundedShare(count: nat, total: nat): (share: real)
    requires total > 0
    ensures IsHundredths(share)
    ensures count <= total ==> 0.0 <= share <= 1.0
  {
    var x := count as real / total as real;
    if count <= total then
      assert x * total as real == count as real;
      Round2OfShare(x);
      Round2(x)
    else
      Round2(x)
  }

  function LabelOf(key: string, capitalize: bool): string
  {
    if capitalize then Capitalize(key) else key
  }

  /** The entries whose rounded share reaches the threshold, in table order. */
  function Passing(freq: seq<Entry>, total: nat, threshold: real): (kept: seq<Entry>)
    requires freq != [] ==> total > 0
    ensures |kept| <= |freq|
    ensures forall e :: e in kept <==> e in freq && RoundedShare(e.count, total) >= threshold
  {
    if freq == [] then []
    else
      var e := freq[|freq| - 1];
      Passing(freq[..|freq| - 1], total, threshold)
        + (if RoundedShare(e.count, total) < threshold then [] else [e])
  }

  /** The sum of the rounded shares below the threshold: the `other`
      accumulator. */
  function Folded(freq: seq<Entry>, total: nat, threshold: real): (other: real)
    requires freq != [] ==> total > 0
    ensures IsHundredths(other)
  {
    if freq == [] then
      assert 0.0 * 100.0 == 0.0;
      0.0
    else
      var s := RoundedShare(freq[|freq| - 1].count, total);
      var rest := Folded(freq[..|freq| - 1], total, threshold);
      HundredthsAdd(rest, if s < threshold then s else 0.0);
      rest + (if s < threshold then s else 0.0)
  }

  /** The record of one kept entry: its label and `round(share, 2)`. */
  function Record(e: Entry, total: nat, capitalize: bool): ShareRecord
    requires total > 0
  {
    ShareRecord(LabelOf(e.key, capitalize), Round2(RoundedShare(e.count, total)))
  }

  function Records(kept: seq<Entry>, total: nat, capitalize: bool): seq<ShareRecord>
    requires kept != [] ==> total > 0
  {
    seq(|kept|, i requires 0 <= i < |kept| => Record(kept[i], total, capitalize))
  }

  /** What the aggregation returns for the flattened values `items`: the
      records of the passing keys in most-common order, then "Other". */
  function PlatformData(items: seq<string>, threshold: real, capitalize: bool): seq<ShareRecord>
  {
    var freq := MostCommon(items);
    MostCommonIsRanked(items);
    Records(Passing(freq, |items|, threshold), |items|, capitalize)
      + [ShareRecord("Other", Round2(Folded(freq, |items|, threshold)))]
  }

  /** A table holding no entries has no items behind it. */
  lemma NonEmptyTableHasItems(items: seq<string>)
    ensures MostCommon(items) != [] ==> |items| > 0
  {
    MostCommonIsRanked(items);
    if MostCommon(items) != [] {
      assert MostCommon(items)[0].key in items;
    }
  }

  /** Appending an entry to the table appends its record when it passes and
      its share to the fold when it does not. */
  lemma {:induction false} WalkStep(freq: seq<Entry>, i: nat, total: nat, threshold: real, capitalize: bool)
    requires i < |freq| && total > 0
    ensures var share := RoundedShare(freq[i].count, total);
      && Records(Passing(freq[..i + 1], total, threshold), total, capitalize)
         == Records(Passing(freq[..i], total, threshold), total, capitalize)
            + (if share < threshold then [] else [Record(freq[i], total, capitalize)])
      && Folded(freq[..i + 1], total, threshold)
         == Folded(freq[..i], total, threshold) + (if share < threshold then share else 0.0)
  {
    assert freq[..i + 1][..i] == freq[..i];
  }

  /** The loop over the ranked table: keep the shares that reach `threshold`,
      sum the others, then append "Other" with the rounded sum. */
  method WalkTable(freq: seq<Entry>, total: nat, threshold: real, capitalize: bool) returns (data: seq<ShareRecord>)
    requires freq != [] ==> total > 0
    ensures data == Records(Passing(freq, total, threshold), total, capitalize)
      + [ShareRecord("Other", Round2(Folded(freq, total, threshold)))]
  {
    data := [];
    var other := 0.0;
    for i := 0 to |freq|
      invariant data == Records(Passing(freq[..i], total, threshold), total, capitalize)
      invariant other == Folded(freq[..i], total, threshold)
    {
      WalkStep(freq, i, total, threshold, capitalize);
      var share := Round2(freq[i].count as real / total as real);
      if share < threshold {
        other := other + share;
      } else {
        data := data + [ShareRecord(LabelOf(freq[i].key, capitalize), Round2(share))];
      }
    }
    assert freq[..|freq|] == freq;
    data := data + [ShareRecord("Other", Round2(other))];
  }

  /** The shared body of the two aggregations: count and rank the items,
      `sum(freq.values())`, then walk the table. */
  method AggregateShares(items: seq<string>, threshold: real, capitalize: bool) returns (data: seq<ShareRecord>)
    ensures data == PlatformData(items, threshold, capitalize)
  {
    var freq := MostCommon(items);
    MostCommonIsRanked(items);
    NonEmptyTableHasItems(items);
    var total := TotalCount(freq);
    data := WalkTable(freq, total, threshold, capitalize);
  }

  /** `get_platform_genres_data`: capitalized genre labels, 3% threshold. */
  method PlatformGenresData(rows: seq<Row>) returns (data: seq<ShareRecord>)
    ensures data == PlatformData(Flatten(rows, Genres), GenreThreshold, true)
  {
    var genres := Collect(rows, Genres);
    data := AggregateShares(genres, GenreThreshold, true);
  }

  /** `get_platform_countries_data`: raw country labels, 2% threshold. */
  method PlatformCountriesData(rows: seq<Row>) returns (data: seq<ShareRecord>)
    ensures data == PlatformData(Flatten(rows, ProductionCountries), CountryThreshold, false)
  {
    var countries := Collect(rows, ProductionCountries);
    data := AggregateShares(countries, CountryThreshold, false);
  }

  // ---------------------------------------------------------------------
  // Properties of the breakdown

  /** A larger count never gets a smaller rounded share. */
  lemma RoundedShareMonotone(a: nat, b: nat, total: nat)
    requires total > 0 && a <= b
    ensures RoundedShare(a, total) <= RoundedShare(b, total)
  {
    var t := total as real;
    assert a as real / t <= b as real / t by {
      assert a as real / t * t == a as real;
      assert b as real / t * t == b as real;
    }
    Round2Monotone(a as real / t, b as real / t);
  }

  predicate CountsDescending(t: seq<Entry>)
  {
    forall i, j :: 0 <= i < j < |t| ==> t[i].count >= t[j].count
  }

  /** Filtering keeps a table's descending count order. */
  lemma {:induction false} PassingKeepsOrder(freq: seq<Entry>, total: nat, threshold: real)
    requires freq != [] ==> total > 0
    requires CountsDescending(freq)
    ensures CountsDescending(Passing(freq, total, threshold))
  {
    if freq != [] {
      var init, e := freq[..|freq| - 1], freq[|freq| - 1];
      PassingKeepsOrder(init, total, threshold);
      var before := Passing(init, total, threshold);
      var kept := Passing(freq, total, threshold);
      if RoundedShare(e.count, total) >= threshold {
        assert kept == before + [e];
        forall i, j | 0 <= i < j < |kept| ensures kept[i].count >= kept[j].count {
          if j == |before| {
            assert kept[i] in init;
            var k :| 0 <= k < |init| && init[k] == kept[i];
            assert init[k] == freq[k];
          } else {
            assert kept[i] == before[i] && kept[j] == before[j];
          }
        }
      } else {
        assert kept == before;
      }
    }
  }

  /** Filtering keeps the most-common order of a ranked table. */
  lemma {:induction false} PassingKeepsRankOrder(xs: seq<string>, freq: seq<Entry>, total: nat, threshold: real)
    requires freq != [] ==> total > 0
    requires InRankOrder(xs, freq)
    ensures InRankOrder(xs, Passing(freq, total, threshold))
  {
    if freq != [] {
      var init, e := freq[..|freq| - 1], freq[|freq| - 1];
      assert InRankOrder(xs, init) by {
        assert forall i :: 0 <= i < |init| ==> init[i] == freq[i];
      }
      PassingKeepsRankOrder(xs, init, total, threshold);
      var before := Passing(init, total, threshold);
      var kept := Passing(freq, total, threshold);
      if RoundedShare(e.count, total) >= threshold {
        assert kept == before + [e];
        forall i, j | 0 <= i < j < |kept| ensures Outranks(xs, kept[i].key, kept[j].key) {
          if j == |before| {
            assert kept[i] in init;
            var k :| 0 <= k < |init| && init[k] == kept[i];
            assert init[k] == freq[k];
          } else {
            assert kept[i] == before[i] && kept[j] == before[j];
          }
        }
      } else {
        assert kept == before;
      }
    }
  }

  /** In exact arithmetic the fold is already a whole number of hundredths,
      so the final `round(other, 2)` leaves it unchanged. */
  lemma OtherIsFold(items: seq<string>, threshold: real, capitalize: bool)
    ensures MostCommon(items) != [] ==> |items| > 0
    ensures PlatformData(items, threshold, capitalize)[|PlatformData(items, threshold, capitalize)| - 1].value
      == Folded(MostCommon(items), |items|, threshold)
  {
    NonEmptyTableHasItems(items);
    Round2OfHundredths(Folded(MostCommon(items), |items|, threshold));
  }

  function RecordSum(data: seq<ShareRecord>): real
  {
    if data == [] then 0.0 else RecordSum(data[..|data| - 1]) + data[|data| - 1].value
  }

  /** The sum of every rounded share of the table. */
  function RoundedSum(freq: seq<Entry>, total: nat): real
    requires freq != [] ==> total > 0
  {
    if freq == [] then 0.0
    else RoundedSum(freq[..|freq| - 1], total) + RoundedShare(freq[|freq| - 1].count, total)
  }

  lemma RecordSumSnoc(data: seq<ShareRecord>, r: ShareRecord)
    ensures RecordSum(data + [r]) == RecordSum(data) + r.value
  {
    assert (data + [r])[..|data|] == data;
  }

  lemma RecordsSnoc(kept: seq<Entry>, e: Entry, total: nat, capitalize: bool)
    requires total > 0
    ensures Records(kept + [e], total, capitalize) == Records(kept, total, capitalize) + [Record(e, total, capitalize)]
  {
  }

  /** Every rounded share lands either in a kept record or in the fold. */
  lemma {:induction false} KeptPlusFolded(freq: seq<Entry>, total: nat, threshold: real, capitalize: bool)
    requires freq != [] ==> total > 0
    ensures RecordSum(Records(Passing(freq, total, threshold), total, capitalize)) + Folded(freq, total, threshold)
            == RoundedSum(freq, total)
  {
    if freq != [] {
      var init, e := freq[..|freq| - 1], freq[|freq| - 1];
      KeptPlusFolded(init, total, threshold, capitalize);
      var s := RoundedShare(e.count, total);
      var before := Passing(init, total, threshold);
      var kept := Passing(freq, total, threshold);
      var sumBefore := RecordSum(Records(before, total, capitalize));
      assert RoundedSum(freq, total) == RoundedSum(init, total) + s;
      if s >= threshold {
        assert kept == before + [e];
        RecordsSnoc(before, e, total, capitalize);
        RecordSumSnoc(Records(before, total, capitalize), Record(e, total, capitalize));
        Round2OfHundredths(s);
        assert RecordSum(Records(kept, total, capitalize)) == sumBefore + s;
        assert Folded(freq, total, threshold) == Folded(init, total, threshold);
      } else {
        assert kept == before;
        assert Folded(freq, total, threshold) == Folded(init, total, threshold) + s;
      }
    }
  }

  /** Rounding each share moves the sum by at most half a hundredth per key. */
  lemma {:induction false} RoundedSumNearExact(freq: seq<Entry>, total: nat)
    requires total > 0
    ensures -0.005 * |freq| as real <= RoundedSum(freq, total) - ShareSum(freq, total) <= 0.005 * |freq| as real
  {
    if freq != [] {
      RoundedSumNearExact(freq[..|freq| - 1], total);
    }
  }

  /** Kept records reach the threshold and their values never increase. */
  predicate KeptInOrder(records: seq<ShareRecord>, threshold: real)
  {
    && (forall i :: 0 <= i < |records| ==> records[i].value >= threshold)
    && (forall i, j :: 0 <= i < j < |records| ==> records[i].value >= records[j].value)
  }

  lemma KeptRecordsInOrder(freq: seq<Entry>, total: nat, threshold: real, capitalize: bool)
    requires total > 0 && CountsDescending(freq)
    ensures KeptInOrder(Records(Passing(freq, total, threshold), total, capitalize), threshold)
  {
    var kept := Passing(freq, total, threshold);
    var records := Records(kept, total, capitalize);
    forall i | 0 <= i < |kept| ensures records[i].value >= threshold {
      assert kept[i] in freq;
      Round2Idempotent(kept[i].count as real / total as real);
    }
    PassingKeepsOrder(freq, total, threshold);
    forall i, j | 0 <= i < j < |kept| ensures records[i].value >= records[j].value {
      RoundedShareMonotone(kept[j].count, kept[i].count, total);
      Round2Monotone(RoundedShare(kept[j].count, total), RoundedShare(kept[i].count, total));
    }
  }

  lemma MostCommonDescending(items: seq<string>)
    ensures CountsDescending(MostCommon(items))
  {
    var freq := MostCommon(items);
    MostCommonIsRanked(items);
    forall i, j | 0 <= i < j < |freq| ensures freq[i].count >= freq[j].count {
      assert Outranks(items, freq[i].key, freq[j].key);
    }
  }

  /** The breakdown of `items`: one record per key whose rounded share
      reaches the threshold, labelled with the (capitalized) key, in
      most-common order, then exactly one "Other" record. Kept values reach
      the threshold and never increase along the list; empty input gives
      just "Other" at 0. */
  lemma PlatformDataShape(items: seq<string>, threshold: real, capitalize: bool)
    ensures |PlatformData(items, threshold, capitalize)| == |Passing(MostCommon(items), |items|, threshold)| + 1
    ensures PlatformData(items, threshold, capitalize)[|Passing(MostCommon(items), |items|, threshold)|].name == "Other"
    ensures forall i :: 0 <= i < |Passing(MostCommon(items), |items|, threshold)| ==>
      PlatformData(items, threshold, capitalize)[i].name
        == LabelOf(Passing(MostCommon(items), |items|, threshold)[i].key, capitalize)
    ensures KeptInOrder(PlatformData(items, threshold, capitalize)[..|Passing(MostCommon(items), |items|, threshold)|],
                        threshold)
    ensures items == [] ==> PlatformData(items, threshold, capitalize) == [ShareRecord("Other", 0.0)]
  {
    var freq := MostCommon(items);
    MostCommonIsRanked(items);
    NonEmptyTableHasItems(items);
    var data := PlatformData(items, threshold, capitalize);
    var kept := Passing(freq, |items|, threshold);
    if items == [] {
      assert freq == [];
      Round2OfHundredths(0.0);
    } else {
      MostCommonDescending(items);
      KeptRecordsInOrder(freq, |items|, threshold, capitalize);
      assert data[..|kept|] == Records(kept, |items|, capitalize);
    }
  }

  /** "Other" holds, rounded, whatever the kept records leave of the sum of
      all rounded shares. */
  lemma OtherIsRest(items: seq<string>, threshold: real, capitalize: bool)
    ensures MostCommon(items) != [] ==> |items| > 0
    ensures PlatformData(items, threshold, capitalize)[|PlatformData(items, threshold, capitalize)| - 1].value
      == Round2(RoundedSum(MostCommon(items), |items|)
                - RecordSum(PlatformData(items, threshold, capitalize)[..|PlatformData(items, threshold, capitalize)| - 1]))
  {
    var freq := MostCommon(items);
    NonEmptyTableHasItems(items);
    var kept := Records(Passing(freq, |items|, threshold), |items|, capitalize);
    var data := PlatformData(items, threshold, capitalize);
    assert data[..|data| - 1] == kept;
    KeptPlusFolded(freq, |items|, threshold, capitalize);
  }

  /** A key gets its own record exactly when it occurs and its rounded share
      reaches the threshold. */
  lemma PassingKeys(items: seq<string>, threshold: real, k: string)
    ensures k in Keys(Passing(MostCommon(items), |items|, threshold))
      <==> k in items && RoundedShare(Occurrences(items, k), |items|) >= threshold
  {
    MostCommonIsRanked(items);
    NonEmptyTableHasItems(items);
    if items != [] {
      PassingKeysOfTable(items, MostCommon(items), |items|, threshold, k);
    }
  }

  lemma PassingKeysOfTable(xs: seq<string>, freq: seq<Entry>, total: nat, threshold: real, k: string)
    requires total > 0 && Faithful(xs, freq) && forall x :: x in xs ==> x in Keys(freq)
    ensures k in Keys(Passing(freq, total, threshold))
      <==> k in xs && RoundedShare(Occurrences(xs, k), total) >= threshold
  {
    var kept := Passing(freq, total, threshold);
    if k in Keys(kept) {
      KeptKeyPasses(xs, freq, total, threshold, k);
    }
    if k in xs && RoundedShare(Occurrences(xs, k), total) >= threshold {
      PassingKeyKept(xs, freq, total, threshold, k);
    }
  }

  lemma KeptKeyPasses(xs: seq<string>, freq: seq<Entry>, total: nat, threshold: real, k: string)
    requires total > 0 && Faithful(xs, freq)
    requires k in Keys(Passing(freq, total, threshold))
    ensures k in xs && RoundedShare(Occurrences(xs, k), total) >= threshold
  {
    var kept := Passing(freq, total, threshold);
    var i :| 0 <= i < |kept| && kept[i].key == k;
    assert kept[i] in freq;
  }

  lemma PassingKeyKept(xs: seq<string>, freq: seq<Entry>, total: nat, threshold: real, k: string)
    requires total > 0 && Faithful(xs, freq) && k in Keys(freq)
    requires RoundedShare(Occurrences(xs, k), total) >= threshold
    ensures k in Keys(Passing(freq, total, threshold))
  {
    var kept := Passing(freq, total, threshold);
    var i :| 0 <= i < |freq| && freq[i].key == k;
    assert freq[i] in kept;
    var j :| 0 <= j < |kept| && kept[j] == freq[i];
    assert Keys(kept)[j] == k;
  }

  /** The emitted values, "Other" included, add up to one within half a
      hundredth per distinct key plus half a hundredth for "Other". */
  lemma SharesSumNearOne(items: seq<string>, threshold: real, capitalize: bool)
    requires items != []
    ensures -0.005 * (|Distinct(items)| + 1) as real
            <= RecordSum(PlatformData(items, threshold, capitalize)) - 1.0
            <= 0.005 * (|Distinct(items)| + 1) as real
  {
    var freq := MostCommon(items);
    var total := |items|;
    MostCommonIsRanked(items);
    var kept := Records(Passing(freq, total, threshold), total, capitalize);
    var folded := Folded(freq, total, threshold);
    var other := ShareRecord("Other", Round2(folded));
    assert PlatformData(items, threshold, capitalize) == kept + [other];
    RecordSumSnoc(kept, other);
    KeptPlusFolded(freq, total, threshold, capitalize);
    RoundedSumNearExact(freq, total);
    ShareSumIsTotalShare(freq, total);
    WholeShare(total);
  }
}
