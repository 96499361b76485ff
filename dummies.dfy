/** Dummy (one-hot) encoding of the country and genre columns. The columns are
    created from the caller's top-ten list but filled from a fixed ten-key
    vocabulary; the "other" flag is taken against the caller's list. */
module Dummies {
  import opened Rows

  /** The vocabulary `countries_dummy_dict` fills, in the order it fills it. */
  const CountryVocabulary: seq<string> := ["US", "GB", "IN", "CA", "FR", "DE", "JP", "ES", "IT", "AU"]

  /** The vocabulary `genres_dummy_dict` fills, in the order it fills it. */
  const GenreVocabulary: seq<string> :=
    ["drama", "comedy", "thriller", "action", "romance", "crime", "family", "fantasy", "european", "scifi"]

  /** The outcome of an encoding: the column table, or the `KeyError` raised
      when a vocabulary column was never created. */
  datatype Encoding = Table(columns: map<string, seq<int>>) | KeyError(key: string)

  function ColumnName(key: string): string
  {
    "dummy_" + key
  }

  function Indicator(b: bool): int
  {
    if b then 1 else 0
  }

  /** The 0/1 column of `key`: 1 exactly in the rows holding `key`. */
  function Column(rows: seq<Row>, field: Field, key: string): (col: seq<int>)
    ensures |col| == |rows|
    ensures forall i :: 0 <= i < |rows| ==> (col[i] == 1 <==> key in Values(rows[i], field))
    ensures forall i :: 0 <= i < |rows| ==> (col[i] == 0 <==> key !in Values(rows[i], field))
  {
    seq(|rows|, i requires 0 <= i < |rows| => Indicator(key in Values(rows[i], field)))
  }

  /** A row holds a key outside the caller's list. */
  predicate HasOther(row: seq<string>, top: seq<string>)
  {
    exists c :: c in row && c !in top
  }

  /** The 0/1 "other" column. */
  function OtherColumn(rows: seq<Row>, field: Field, top: seq<string>): (col: seq<int>)
    ensures |col| == |rows|
    ensures forall i :: 0 <= i < |rows| ==> (col[i] == 1 <==> HasOther(Values(rows[i], field), top))
    ensures forall i :: 0 <= i < |rows| ==> (col[i] == 0 <==> !HasOther(Values(rows[i], field), top))
  {
    seq(|rows|, i requires 0 <= i < |rows| => Indicator(HasOther(Values(rows[i], field), top)))
  }

  /** The index of the first vocabulary key missing from `top`, or
      `|vocabulary|` when none is. */
  function FirstMissing(vocabulary: seq<string>, top: seq<string>): (n: nat)
    ensures n <= |vocabulary|
    ensures forall j :: 0 <= j < n ==> vocabulary[j] in top
    ensures n < |vocabulary| ==> vocabulary[n] !in top
  {
    if vocabulary == [] || vocabulary[0] !in top then 0
    else 1 + FirstMissing(vocabulary[1..], top)
  }

  lemma ColumnNameInjective(a: string, b: string)
    ensures ColumnName(a) == ColumnName(b) ==> a == b
  {
    if ColumnName(a) == ColumnName(b) {
      assert a == ColumnName(a)[6..] && b == ColumnName(b)[6..];
    }
  }

  lemma ColumnGrows(done: seq<Row>, row: Row, field: Field, key: string)
    ensures Column(done + [row], field, key) == Column(done, field, key) + [Indicator(key in Values(row, field))]
  {
  }

  lemma OtherColumnGrows(done: seq<Row>, row: Row, field: Field, top: seq<string>)
    ensures OtherColumn(done + [row], field, top) == OtherColumn(done, field, top) + [Indicator(HasOther(Values(row, field), top))]
  {
  }

  /** `len(set(row) - set(top)) > 0` holds exactly when the row has a key
      outside `top`. */
  lemma SetDifferenceNonEmpty(row: seq<string>, top: seq<string>)
    ensures |(set c | c in row) - (set c | c in top)| > 0 <==> HasOther(row, top)
  {
    var others := (set c | c in row) - (set c | c in top);
    if HasOther(row, top) {
      var c :| c in row && c !in top;
      assert c in others;
    }
  }

  function ColumnNames(top: seq<string>): set<string>
  {
    set k | k in top :: ColumnName(k)
  }

  /** `columns` is the table after the rows `done`: a column per key of `top`
      and the "other" column, the vocabulary columns marking the rows that
      hold their key, the "other" column marking the rows that hold a key
      outside `top`, and the columns of keys outside the vocabulary empty. */
  predicate Filled(columns: map<string, seq<int>>, done: seq<Row>, field: Field, vocabulary: seq<string>,
                   top: seq<string>, otherKey: string)
  {
    && columns.Keys == ColumnNames(top) + {otherKey}
    && (forall k :: k in vocabulary && k in top ==> columns[ColumnName(k)] == Column(done, field, k))
    && columns[otherKey] == OtherColumn(done, field, top)
    && (forall k :: k in top && k !in vocabulary && ColumnName(k) != otherKey ==> columns[ColumnName(k)] == [])
  }

  /** What encoding `rows` must give: a `KeyError` naming the first
      vocabulary key that has no column, as soon as there is a row to fill;
      otherwise the filled table. */
  predicate Encodes(rows: seq<Row>, field: Field, vocabulary: seq<string>, top: seq<string>, otherKey: string,
                    result: Encoding)
  {
    && (result.KeyError? <==> |rows| > 0 && exists k :: k in vocabulary && k !in top)
    && (result.KeyError? ==> result.key == ColumnName(vocabulary[FirstMissing(vocabulary, top)]))
    && (result.Table? ==> Filled(result.columns, rows, field, vocabulary, top, otherKey))
  }

  /** The column set-up loop: `dummies_dict['dummy_' + i] = []` for every key
      of `top`, then the empty "other" column. */
  method CreateColumns(top: seq<string>, otherKey: string) returns (columns: map<string, seq<int>>)
    ensures columns.Keys == ColumnNames(top) + {otherKey}
    ensures forall name :: name in columns ==> columns[name] == []
  {
    columns := map[];
    for j := 0 to |top|
      invariant columns.Keys == ColumnNames(top[..j])
      invariant forall name :: name in columns ==> columns[name] == []
    {
      assert top[..j + 1] == top[..j] + [top[j]];
      columns := columns[ColumnName(top[j]) := []];
    }
    assert top[..|top|] == top;
    columns := columns[otherKey := []];
  }

  /** The vocabulary part of one pass of the row loop: append the row's
      entry to every vocabulary column, in vocabulary order. A vocabulary key
      without a column raises `KeyError`. */
  method FillVocabulary(columns: map<string, seq<int>>, done: seq<Row>, row: Row, field: Field,
                        vocabulary: seq<string>, top: seq<string>, otherKey: string)
    returns (result: Encoding)
    requires forall i, j :: 0 <= i < j < |vocabulary| ==> vocabulary[i] != vocabulary[j]
    requires forall k :: k in vocabulary ==> ColumnName(k) != otherKey
    requires Filled(columns, done, field, vocabulary, top, otherKey)
    ensures result.KeyError? <==> exists k :: k in vocabulary && k !in top
    ensures result.KeyError? ==> result.key == ColumnName(vocabulary[FirstMissing(vocabulary, top)])
    ensures result.Table? ==> result.columns.Keys == columns.Keys
    ensures result.Table? ==>
      forall k :: k in vocabulary ==> result.columns[ColumnName(k)] == Column(done + [row], field, k)
    ensures result.Table? ==> result.columns[otherKey] == columns[otherKey]
    ensures result.Table? ==>
      forall k :: k in top && k !in vocabulary && ColumnName(k) != otherKey ==> result.columns[ColumnName(k)] == []
  {
    var next := columns;
    for v := 0 to |vocabulary|
      invariant next.Keys == columns.Keys
      invariant forall j :: 0 <= j < v ==> vocabulary[j] in top
      invariant forall k :: k in vocabulary[..v] ==>
        ColumnName(k) in next && next[ColumnName(k)] == Column(done + [row], field, k)
      invariant forall j :: v <= j < |vocabulary| && vocabulary[j] in top ==>
        next[ColumnName(vocabulary[j])] == Column(done, field, vocabulary[j])
      invariant next[otherKey] == columns[otherKey]
      invariant forall k :: k in top && k !in vocabulary && ColumnName(k) != otherKey ==> next[ColumnName(k)] == []
    {
      var key := vocabulary[v];
      var name := ColumnName(key);
      if name !in next {
        assert key !in top;
        assert FirstMissing(vocabulary, top) == v;
        return KeyError(name);
      }
      assert key in top by {
        assert name in ColumnNames(top);
        var k :| k in top && ColumnName(k) == name;
        ColumnNameInjective(k, key);
      }
      assert key !in vocabulary[..v];
      forall k | k != key ensures ColumnName(k) != name {
        ColumnNameInjective(k, key);
      }
      next := Append(next, done, row, field, vocabulary, top, otherKey, v);
    }
    assert vocabulary[..|vocabulary|] == vocabulary;
    result := Table(next);
  }

  /** One step of the vocabulary loop: the column of `vocabulary[v]` gains
      the row's entry and no other column changes. */
  method Append(next: map<string, seq<int>>, done: seq<Row>, row: Row, field: Field,
                vocabulary: seq<string>, top: seq<string>, otherKey: string, v: nat)
    returns (after: map<string, seq<int>>)
    requires v < |vocabulary| && ColumnName(vocabulary[v]) in next
    requires ColumnName(vocabulary[v]) != otherKey
    requires vocabulary[v] !in vocabulary[..v]
    requires next[ColumnName(vocabulary[v])] == Column(done, field, vocabulary[v])
    requires forall k :: k in vocabulary[..v] ==>
      ColumnName(k) in next && next[ColumnName(k)] == Column(done + [row], field, k)
    ensures after.Keys == next.Keys
    ensures forall k :: k in vocabulary[..v + 1] ==>
      ColumnName(k) in after && after[ColumnName(k)] == Column(done + [row], field, k)
    ensures forall name :: name in next && name != ColumnName(vocabulary[v]) ==> after[name] == next[name]
  {
    var key := vocabulary[v];
    var name := ColumnName(key);
    ColumnGrows(done, row, field, key);
    after := next[name := next[name] + [Indicator(key in Values(row, field))]];
    assert vocabulary[..v + 1] == vocabulary[..v] + [key];
    forall k | k in vocabulary[..v + 1] ensures after[ColumnName(k)] == Column(done + [row], field, k) {
      ColumnNameInjective(k, key);
    }
  }
  /** One pass of the row loop: the vocabulary columns, then the "other"
      column, which gains a 1 when `set(row) - set(top)` is non-empty. */
  method EncodeRow(columns: map<string, seq<int>>, done: seq<Row>, row: Row, field: Field,
                   vocabulary: seq<string>, top: seq<string>, otherKey: string)
    returns (result: Encoding)
    requires forall i, j :: 0 <= i < j < |vocabulary| ==> vocabulary[i] != vocabulary[j]
    requires forall k :: k in vocabulary ==> ColumnName(k) != otherKey
    requires Filled(columns, done, field, vocabulary, top, otherKey)
    ensures result.KeyError? <==> exists k :: k in vocabulary && k !in top
    ensures result.KeyError? ==> result.key == ColumnName(vocabulary[FirstMissing(vocabulary, top)])
    ensures result.Table? ==> Filled(result.columns, done + [row], field, vocabulary, top, otherKey)
  {
    result := FillVocabulary(columns, done, row, field, vocabulary, top, otherKey);
    if result.KeyError? {
      return;
    }
    var next := result.columns;
    var values := Values(row, field);
    var others := (set c | c in values) - (set c | c in top);
    SetDifferenceNonEmpty(values, top);
    OtherColumnGrows(done, row, field, top);
    next := next[otherKey := next[otherKey] + [Indicator(|others| > 0)]];
    result := Table(next);
  }

  /** The shared body of `countries_dummy_dict` and `genres_dummy_dict`. */
  method DummyDict(rows: seq<Row>, field: Field, vocabulary: seq<string>, top: seq<string>, otherKey: string)
    returns (result: Encoding)
    requires forall i, j :: 0 <= i < j < |vocabulary| ==> vocabulary[i] != vocabulary[j]
    requires forall k :: k in vocabulary ==> ColumnName(k) != otherKey
    ensures Encodes(rows, field, vocabulary, top, otherKey, result)
  {
    var columns := CreateColumns(top, otherKey);
    for i := 0 to |rows|
      invariant i > 0 ==> forall k :: k in vocabulary ==> k in top
      invariant Filled(columns, rows[..i], field, vocabulary, top, otherKey)
    {
      var step := EncodeRow(columns, rows[..i], rows[i], field, vocabulary, top, otherKey);
      if step.KeyError? {
        return step;
      }
      TakeOneMore(rows, i);
      columns := step.columns;
    }
    assert rows[..|rows|] == rows;
    result := Table(columns);
  }

  /** `countries_dummy_dict`. */
  method CountriesDummyDict(rows: seq<Row>, countriesTop10: seq<string>) returns (result: Encoding)
    ensures Encodes(rows, ProductionCountries, CountryVocabulary, countriesTop10, "dummy_OTHER_countries", result)
  {
    result := DummyDict(rows, ProductionCountries, CountryVocabulary, countriesTop10, "dummy_OTHER_countries");
  }

  /** `genres_dummy_dict`. */
  method GenresDummyDict(rows: seq<Row>, genresTop10: seq<string>) returns (result: Encoding)
    ensures Encodes(rows, Genres, GenreVocabulary, genresTop10, "dummy_OTHER_genres", result)
  {
    result := DummyDict(rows, Genres, GenreVocabulary, genresTop10, "dummy_OTHER_genres");
  }
}
