/** Per-year genre profiles: for every release year, in ascending order, the
    share of each main genre among that year's main-genre occurrences. */
module YearlyGenres {
  import opened Rows
  import opened Frequency
  import opened Rounding
  import opened Shares

  // ---------------------------------------------------------------------
  // `str(year)`

  function DigitChar(d: nat): char
    requires d < 10
  {
    (48 + d) as char
  }

  /** The decimal digits of `n`, most significant first. */
  function Decimal(n: nat): (s: string)
    ensures |s| >= 1
    ensures forall i :: 0 <= i < |s| ==> '0' <= s[i] <= '9'
    ensures s[0] == '0' <==> n == 0
    ensures |s| > 1 ==> s[0] != '0'
    decreases n
  {
    if n < 10 then [DigitChar(n)] else Decimal(n / 10) + [DigitChar(n % 10)]
  }

  function ParseDecimal(s: string): int
  {
    if s == [] then 0 else 10 * ParseDecimal(s[..|s| - 1]) + (s[|s| - 1] as int - 48)
  }

  /** `str(year)`: an optional minus sign, then the decimal digits. */
  function YearString(year: int): (s: string)
    ensures ParseYear(s) == year
    ensures |s| >= 1 && (s[0] == '-' <==> year < 0)
    ensures var d := if year < 0 then 1 else 0;
      d < |s| && (forall i :: d <= i < |s| ==> '0' <= s[i] <= '9')
    ensures var d := if year < 0 then 1 else 0;
      d < |s| && (s[d] == '0' <==> year == 0) && (|s| > d + 1 ==> s[d] != '0')
  {
    if year < 0 then
      DecimalRoundTrip(-year);
      var s := "-" + Decimal(-year);
      assert s[1..] == Decimal(-year);
      s
    else
      DecimalRoundTrip(year);
      Decimal(year)
  }

  function ParseYear(s: string): int
  {
    if s != [] && s[0] == '-' then -ParseDecimal(s[1..]) else ParseDecimal(s)
  }

  lemma {:induction false} DecimalRoundTrip(n: nat)
    ensures ParseDecimal(Decimal(n)) == n
    decreases n
  {
    if n >= 10 {
      DecimalRoundTrip(n / 10);
      var s := Decimal(n);
      assert s[..|s| - 1] == Decimal(n / 10);
    }
  }

  // ---------------------------------------------------------------------
  // `sorted(df.release_year.unique())` and `df[df.release_year == year]`

  predicate Increasing(ys: seq<int>)
  {
    forall i, j :: 0 <= i < j < |ys| ==> ys[i] < ys[j]
  }

  function InsertYear(ys: seq<int>, y: int): (r: seq<int>)
    requires Increasing(ys)
    ensures Increasing(r)
    ensures forall z :: z in r <==> z in ys || z == y
  {
    if ys == [] then [y]
    else if y < ys[0] then [y] + ys
    else if y == ys[0] then ys
    else
      var rest := InsertYear(ys[1..], y);
      InsertedAbove(ys, y, rest);
      [ys[0]] + rest
  }

  lemma InsertedAbove(ys: seq<int>, y: int, rest: seq<int>)
    requires Increasing(ys) && ys != [] && ys[0] < y
    requires forall z :: z in rest <==> z in ys[1..] || z == y
    ensures forall i :: 0 <= i < |rest| ==> ys[0] < rest[i]
  {
    forall i | 0 <= i < |rest| ensures ys[0] < rest[i] {
      if rest[i] != y {
        assert rest[i] in ys[1..];
        var j :| 0 <= j < |ys[1..]| && ys[1..][j] == rest[i];
        assert ys[j + 1] == rest[i];
      }
    }
  }

  /** The distinct release years, ascending. */
  function SortedYears(rows: seq<Row>): (ys: seq<int>)
    ensures Increasing(ys)
    ensures forall y :: y in ys <==> exists i :: 0 <= i < |rows| && rows[i].releaseYear == y
  {
    if rows == [] then []
    else
      var init := rows[..|rows| - 1];
      assert forall i :: 0 <= i < |init| ==> init[i] == rows[i];
      InsertYear(SortedYears(init), rows[|rows| - 1].releaseYear)
  }

  /** The rows released in `year`, in table order. */
  function RowsOfYear(rows: seq<Row>, year: int): seq<Row>
  {
    if rows == [] then []
    else
      var row := rows[|rows| - 1];
      RowsOfYear(rows[..|rows| - 1], year) + (if row.releaseYear == year then [row] else [])
  }

  /** A row is selected exactly when it is in the table and released in
      `year`. */
  lemma {:induction false} RowsOfYearMembers(rows: seq<Row>, year: int)
    ensures forall row :: row in RowsOfYear(rows, year) <==> row in rows && row.releaseYear == year
  {
    if rows != [] {
      var init := rows[..|rows| - 1];
      RowsOfYearMembers(init, year);
      assert rows == init + [rows[|rows| - 1]];
    }
  }

  /** The filter keeps every row released in `year` as often as the table
      holds it, and no other row. */
  lemma {:induction false} RowsOfYearCounts(rows: seq<Row>, year: int, r: Row)
    ensures multiset(RowsOfYear(rows, year))[r] == if r.releaseYear == year then multiset(rows)[r] else 0
  {
    if rows != [] {
      var init, last := rows[..|rows| - 1], rows[|rows| - 1];
      RowsOfYearCounts(init, year, r);
      assert rows == init + [last];
    }
  }

  // ---------------------------------------------------------------------
  // Gathering a year's main genres

  /** The occurrences of `xs` that are main genres, in order. */
  function KeepMain(xs: seq<string>, main: seq<string>): seq<string>
  {
    if xs == [] then []
    else
      var x := xs[|xs| - 1];
      KeepMain(xs[..|xs| - 1], main) + (if x in main then [x] else [])
  }

  /** An occurrence is kept exactly when it is a main genre. */
  lemma {:induction false} KeepMainMembers(xs: seq<string>, main: seq<string>)
    ensures forall x :: x in KeepMain(xs, main) <==> x in xs && x in main
  {
    if xs != [] {
      var init := xs[..|xs| - 1];
      KeepMainMembers(init, main);
      assert xs == init + [xs[|xs| - 1]];
    }
  }

  /** A main genre keeps all its occurrences. */
  lemma {:induction false} KeepMainCounts(xs: seq<string>, main: seq<string>, k: string)
    requires k in main
    ensures Occurrences(KeepMain(xs, main), k) == Occurrences(xs, k)
  {
    if xs != [] {
      var init, x := xs[..|xs| - 1], xs[|xs| - 1];
      KeepMainCounts(init, main, k);
      var kept := KeepMain(init, main);
      assert Occurrences(xs, k) == Occurrences(init, k) + (if x == k then 1 else 0);
      if x in main {
        assert KeepMain(xs, main) == kept + [x];
        OccurrencesSnoc(kept, x, k);
      } else {
        assert KeepMain(xs, main) == kept;
      }
    }
  }

  lemma KeepMainSnoc(xs: seq<string>, x: string, main: seq<string>)
    ensures KeepMain(xs + [x], main) == KeepMain(xs, main) + (if x in main then [x] else [])
  {
    var ys := xs + [x];
    assert ys[..|ys| - 1] == xs;
  }

  /** `genres_by_year` for the rows `rows`. */
  function YearGenres(rows: seq<Row>, main: seq<string>, year: int): seq<string>
  {
    KeepMain(Flatten(RowsOfYear(rows, year), Genres), main)
  }

  /** The inner loop: append the main genres of one row's `genres` to the
      main genres `gs` gathered from the codes `before`. */
  method AppendMainGenres(gs: seq<string>, ghost before: seq<string>, genres: seq<string>, main: seq<string>)
    returns (out: seq<string>)
    requires gs == KeepMain(before, main)
    ensures out == KeepMain(before + genres, main)
  {
    out := gs;
    assert before + genres[..0] == before;
    for j := 0 to |genres|
      invariant out == KeepMain(before + genres[..j], main)
    {
      assert before + genres[..j + 1] == (before + genres[..j]) + [genres[j]];
      KeepMainSnoc(before + genres[..j], genres[j], main);
      if genres[j] in main {
        out := out + [genres[j]];
      }
    }
    assert genres[..|genres|] == genres;
  }

  /** The nested loop that gathers the main genres of every row. */
  method CollectMainGenres(rows: seq<Row>, main: seq<string>) returns (gs: seq<string>)
    ensures gs == KeepMain(Flatten(rows, Genres), main)
  {
    gs := [];
    for i := 0 to |rows|
      invariant gs == KeepMain(Flatten(rows[..i], Genres), main)
    {
      assert rows[..i + 1][..i] == rows[..i];
      gs := AppendMainGenres(gs, Flatten(rows[..i], Genres), rows[i].genres, main);
    }
    assert rows[..|rows|] == rows;
  }

  // ---------------------------------------------------------------------
  // One year's record

  /** A record value: a genre share, or the year label. */
  datatype Cell = Share(value: real) | Label(text: string)

  function MaybeRound(x: real, rounded: bool): real
  {
    if rounded then Round2(x) else x
  }

  /** The share of genre `k` among the main-genre occurrences `gs`: its count
      over `len(gs)`, rounded when `rounded`; 0 for a genre that does not
      occur. */
  function GenreShare(gs: seq<string>, k: string, rounded: bool): real
  {
    if k in gs then MaybeRound(Occurrences(gs, k) as real / |gs| as real, rounded) else 0.0
  }

  /** The value the record gives key `k`. */
  function RecordValue(gs: seq<string>, k: string, year: int, rounded: bool): Cell
  {
    if k == "year" then Label(YearString(year)) else Share(GenreShare(gs, k, rounded))
  }

  function RecordKeys(gs: seq<string>, main: seq<string>): set<string>
  {
    (set g | g in gs) + (set g | g in main) + {"year"}
  }

  /** The record of one year. */
  function YearRecord(gs: seq<string>, main: seq<string>, year: int, rounded: bool): map<string, Cell>
  {
    map k | k in RecordKeys(gs, main) :: RecordValue(gs, k, year, rounded)
  }

  /** The first `i` keys hold their shares, the others still their counts. */
  predicate RewrittenUpTo(record: map<string, Cell>, gs: seq<string>, keys: seq<string>, i: nat, rounded: bool)
  {
    && record.Keys == (set k | k in gs)
    && (forall j :: 0 <= j < i <= |keys| && keys[j] in record ==> record[keys[j]] == Share(GenreShare(gs, keys[j], rounded)))
    && (forall j :: i <= j < |keys| && keys[j] in record ==> record[keys[j]] == Share(Occurrences(gs, keys[j]) as real))
  }

  lemma RewriteStep(record: map<string, Cell>, gs: seq<string>, keys: seq<string>, i: nat, rounded: bool)
    requires i < |keys| && keys[i] in gs
    requires forall a, b :: 0 <= a < b < |keys| ==> keys[a] != keys[b]
    requires RewrittenUpTo(record, gs, keys, i, rounded)
    ensures keys[i] in record
    ensures var k := keys[i];
      RewrittenUpTo(record[k := Share(MaybeRound(record[k].value / |gs| as real, rounded))], gs, keys, i + 1, rounded)
  {
    var k := keys[i];
    assert k in gs;
    var v := Share(MaybeRound(record[k].value / |gs| as real, rounded));
    assert v == Share(GenreShare(gs, k, rounded));
    var next := record[k := v];
    assert next.Keys == record.Keys;
    forall j | 0 <= j < i + 1 && keys[j] in next
      ensures next[keys[j]] == Share(GenreShare(gs, keys[j], rounded))
    {
      if j < i {
        assert keys[j] != k;
      }
    }
    forall j | i + 1 <= j < |keys| && keys[j] in next
      ensures next[keys[j]] == Share(Occurrences(gs, keys[j]) as real)
    {
      assert keys[j] != k;
    }
  }

  /** `dict(Counter(gs))`, then the loop that rewrites every count in place
      as its share of `sum(counts)`. */
  method CountsToShares(gs: seq<string>, rounded: bool) returns (record: map<string, Cell>)
    ensures record.Keys == set k | k in gs
    ensures forall k :: k in record ==> record[k] == Share(GenreShare(gs, k, rounded))
  {
    var total := TotalCount(Tally(gs));
    TallyTotal(gs);
    var keys := Distinct(gs);
    record := map k | k in gs :: Share(Occurrences(gs, k) as real);
    for i := 0 to |keys|
      invariant RewrittenUpTo(record, gs, keys, i, rounded)
    {
      RewriteStep(record, gs, keys, i, rounded);
      var k := keys[i];
      var oldValue := record[k].value;
      record := record[k := Share(MaybeRound(oldValue / total as real, rounded))];
    }
    forall k | k in record ensures record[k] == Share(GenreShare(gs, k, rounded)) {
      var j :| 0 <= j < |keys| && keys[j] == k;
    }
  }

  /** The state of the zero-filling loop: `filled` and the genres still
      missing together make up the record's keys, and every value present is
      the record's value. */
  predicate Filling(filled: map<string, Cell>, zeros: set<string>, gs: seq<string>, main: seq<string>, year: int, rounded: bool)
  {
    && filled.Keys + zeros == RecordKeys(gs, main)
    && filled.Keys !! zeros
    && (set g | g in gs) + {"year"} <= filled.Keys
    && forall k :: k in filled ==> filled[k] == RecordValue(gs, k, year, rounded)
  }

  lemma ZeroStep(filled: map<string, Cell>, zeros: set<string>, g: string, gs: seq<string>, main: seq<string>, year: int, rounded: bool)
    requires Filling(filled, zeros, gs, main, year, rounded) && g in zeros
    ensures Filling(filled[g := Share(0.0)], zeros - {g}, gs, main, year, rounded)
  {
    assert g !in gs && g != "year";
    AbsentGenreIsZero(gs, g, year, rounded);
  }

  /** The loop over `set(main) - set(record.keys())` that gives each missing
      main genre a zero. */
  method FillZeros(record: map<string, Cell>, gs: seq<string>, main: seq<string>, year: int, rounded: bool)
    returns (filled: map<string, Cell>)
    requires record.Keys == (set g | g in gs) + {"year"}
    requires forall k :: k in record ==> record[k] == RecordValue(gs, k, year, rounded)
    ensures filled == YearRecord(gs, main, year, rounded)
  {
    filled := record;
    var zeros := (set g | g in main) - filled.Keys;
    while zeros != {}
      invariant Filling(filled, zeros, gs, main, year, rounded)
      decreases |zeros|
    {
      var g :| g in zeros;
      ZeroStep(filled, zeros, g, gs, main, year, rounded);
      filled := filled[g := Share(0.0)];
      zeros := zeros - {g};
    }
    RecordFromValues(filled, gs, main, year, rounded);
  }

  lemma AbsentGenreIsZero(gs: seq<string>, g: string, year: int, rounded: bool)
    requires g !in gs && g != "year"
    ensures RecordValue(gs, g, year, rounded) == Share(0.0)
  {
  }

  /** A map with the record's keys and the record's value at each is the
      record. */
  lemma RecordFromValues(m: map<string, Cell>, gs: seq<string>, main: seq<string>, year: int, rounded: bool)
    requires m.Keys == RecordKeys(gs, main)
    requires forall k :: k in m ==> m[k] == RecordValue(gs, k, year, rounded)
    ensures m == YearRecord(gs, main, year, rounded)
  {
  }

  /** Builds one year's record the way the source does: the counts rewritten
      as shares, then the year label, then a zero for each main genre that
      is still missing. */
  method BuildYearRecord(gs: seq<string>, main: seq<string>, year: int, rounded: bool)
    returns (record: map<string, Cell>)
    ensures record == YearRecord(gs, main, year, rounded)
  {
    record := CountsToShares(gs, rounded);
    record := record["year" := Label(YearString(year))];
    record := FillZeros(record, gs, main, year, rounded);
  }

  // ---------------------------------------------------------------------
  // The yearly series

  /** `f` applied to each of `years`, in order. */
  function PerYear<T>(f: int -> T, years: seq<int>): seq<T>
  {
    if years == [] then [] else PerYear(f, years[..|years| - 1]) + [f(years[|years| - 1])]
  }

  lemma {:induction false} PerYearAt<T>(f: int -> T, years: seq<int>)
    ensures |PerYear(f, years)| == |years|
    ensures forall j :: 0 <= j < |years| ==> PerYear(f, years)[j] == f(years[j])
  {
    if years != [] {
      var init := years[..|years| - 1];
      PerYearAt(f, init);
      assert forall j :: 0 <= j < |init| ==> init[j] == years[j];
    }
  }

  /** The record of each year, built from that year's rows. */
  function RecordOfYearFn(rows: seq<Row>, main: seq<string>, rounded: bool): int -> map<string, Cell>
  {
    year => YearRecord(YearGenres(rows, main, year), main, year, rounded)
  }

  /** The yearly series: one record per distinct release year, ascending. */
  function Series(rows: seq<Row>, main: seq<string>, rounded: bool): seq<map<string, Cell>>
  {
    PerYear(RecordOfYearFn(rows, main, rounded), SortedYears(rows))
  }

  /** One pass of the year loop: the rows of `year`, their main genres, and
      the record built from them. */
  method RecordOfYear(rows: seq<Row>, main: seq<string>, year: int, rounded: bool)
    returns (record: map<string, Cell>)
    ensures record == RecordOfYearFn(rows, main, rounded)(year)
  {
    var yearRows := RowsOfYear(rows, year);
    var gs := CollectMainGenres(yearRows, main);
    record := BuildYearRecord(gs, main, year, rounded);
  }

  /** The loop over the years: one record per year, in the order given. */
  method RecordsOfYears(rows: seq<Row>, main: seq<string>, years: seq<int>, rounded: bool)
    returns (data: seq<map<string, Cell>>)
    ensures data == PerYear(RecordOfYearFn(rows, main, rounded), years)
  {
    ghost var f := RecordOfYearFn(rows, main, rounded);
    data := [];
    for i := 0 to |years|
      invariant data == PerYear(f, years[..i])
    {
      var record := RecordOfYear(rows, main, years[i], rounded);
      assert years[..i + 1][..i] == years[..i];
      data := data + [record];
    }
    assert years[..|years|] == years;
  }

  /** The shared body of the movie and show variants: the years ascending,
      then a record for each. */
  method GenresByYear(rows: seq<Row>, main: seq<string>, rounded: bool) returns (data: seq<map<string, Cell>>)
    ensures data == Series(rows, main, rounded)
  {
    var years := SortedYears(rows);
    data := RecordsOfYears(rows, main, years, rounded);
  }

  /** `get_movie_genres_data`: shares rounded to two places. */
  method MovieGenresData(rows: seq<Row>, mainGenres: seq<string>) returns (data: seq<map<string, Cell>>)
    ensures data == Series(rows, mainGenres, true)
  {
    data := GenresByYear(rows, mainGenres, true);
  }

  /** `get_show_genres_data`: shares left unrounded. */
  method ShowGenresData(rows: seq<Row>, mainGenres: seq<string>) returns (data: seq<map<string, Cell>>)
    ensures data == Series(rows, mainGenres, false)
  {
    data := GenresByYear(rows, mainGenres, false);
  }

  /** The series has one record per distinct release year, the years
      ascending; each record's keys are the main genres and "year", and
      "year" holds that year's label. */
  lemma SeriesShape(rows: seq<Row>, main: seq<string>, rounded: bool)
    ensures |Series(rows, main, rounded)| == |SortedYears(rows)|
    ensures Increasing(SortedYears(rows))
    ensures forall y :: y in SortedYears(rows) <==> exists i :: 0 <= i < |rows| && rows[i].releaseYear == y
    ensures forall j :: 0 <= j < |Series(rows, main, rounded)| ==>
      Series(rows, main, rounded)[j].Keys == (set g | g in main) + {"year"}
      && Series(rows, main, rounded)[j]["year"] == Label(YearString(SortedYears(rows)[j]))
  {
    var years := SortedYears(rows);
    var series := Series(rows, main, rounded);
    PerYearAt(RecordOfYearFn(rows, main, rounded), years);
    forall j | 0 <= j < |series|
      ensures series[j].Keys == (set g | g in main) + {"year"} && series[j]["year"] == Label(YearString(years[j]))
    {
      var gs := YearGenres(rows, main, years[j]);
      KeepMainMembers(Flatten(RowsOfYear(rows, years[j]), Genres), main);
      YearRecordShape(gs, main, years[j], rounded);
      assert series[j] == YearRecord(gs, main, years[j], rounded);
    }
  }

  // ---------------------------------------------------------------------
  // Properties of the records

  /** A count over a larger total is a share in [0, 1]. */
  lemma ShareInUnitInterval(count: nat, total: nat, rounded: bool)
    requires 0 < total && count <= total
    ensures 0.0 <= MaybeRound(count as real / total as real, rounded) <= 1.0
  {
    var x := count as real / total as real;
    assert x * total as real == count as real;
    assert 0.0 <= x <= 1.0;
    if rounded {
      Round2OfShare(x);
    }
  }

  /** A year's record when every gathered genre is a main genre: its keys are
      exactly the main genres and "year", "year" holds the year label, every
      other value is a share in [0, 1], and a year without main-genre
      occurrences is all zeros. */
  lemma YearRecordShape(gs: seq<string>, main: seq<string>, year: int, rounded: bool)
    requires forall g :: g in gs ==> g in main
    ensures YearRecord(gs, main, year, rounded).Keys == (set g | g in main) + {"year"}
    ensures YearRecord(gs, main, year, rounded)["year"] == Label(YearString(year))
    ensures forall k :: k in YearRecord(gs, main, year, rounded) && k != "year" ==>
      YearRecord(gs, main, year, rounded)[k].Share?
      && 0.0 <= YearRecord(gs, main, year, rounded)[k].value <= 1.0
    ensures gs == [] ==> forall k :: k in YearRecord(gs, main, year, rounded) && k != "year" ==>
      YearRecord(gs, main, year, rounded)[k] == Share(0.0)
  {
    var record := YearRecord(gs, main, year, rounded);
    forall k | k in record && k != "year" ensures record[k].Share? && 0.0 <= record[k].value <= 1.0 {
      if k in gs {
        ShareInUnitInterval(Occurrences(gs, k), |gs|, rounded);
      }
    }
  }

  /** The sum of the share values a record holds for the keys `ks`. */
  function CellSum(record: map<string, Cell>, ks: seq<string>): real
  {
    if ks == [] then 0.0
    else
      var k := ks[|ks| - 1];
      CellSum(record, ks[..|ks| - 1]) + (if k in record && record[k].Share? then record[k].value else 0.0)
  }

  lemma {:induction false} CellSumIsShareSum(gs: seq<string>, main: seq<string>, year: int, ks: seq<string>)
    requires gs != []
    requires forall k :: k in ks ==> k in gs && k != "year"
    ensures CellSum(YearRecord(gs, main, year, false), ks) == ShareSum(TallyOf(gs, ks), |gs|)
  {
    if ks != [] {
      var init := ks[..|ks| - 1];
      CellSumIsShareSum(gs, main, year, init);
      assert TallyOf(gs, ks)[..|ks| - 1] == TallyOf(gs, init);
    }
  }

  /** Without rounding, the shares of the genres a year has add up to one. */
  lemma UnroundedSharesSumToOne(gs: seq<string>, main: seq<string>, year: int)
    requires gs != [] && "year" !in gs
    ensures CellSum(YearRecord(gs, main, year, false), Distinct(gs)) == 1.0
  {
    CellSumIsShareSum(gs, main, year, Distinct(gs));
    TallySharesSumToOne(gs);
  }

  /** The genres gathered for a year are main genres, each with all its
      occurrences in that year's rows. */
  lemma YearGenresCounts(rows: seq<Row>, main: seq<string>, year: int, k: string)
    ensures k in YearGenres(rows, main, year) <==> k in main && k in Flatten(RowsOfYear(rows, year), Genres)
    ensures Occurrences(YearGenres(rows, main, year), k)
      == if k in main then Occurrences(Flatten(RowsOfYear(rows, year), Genres), k) else 0
  {
    KeepMainMembers(Flatten(RowsOfYear(rows, year), Genres), main);
    if k in main {
      KeepMainCounts(Flatten(RowsOfYear(rows, year), Genres), main, k);
    }
  }
}
