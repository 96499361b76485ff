/** The catalogue table the dashboard aggregates: one row per title, with the
    multi-valued columns read as sequences of category codes. */
module Rows {

  /** One title. `genres` and `productionCountries` keep the order of the
      dataset's lists; `runtime` is in minutes. */
  datatype Row = Row(
    genres: seq<string>,
    productionCountries: seq<string>,
    releaseYear: int,
    runtime: real)

  /** The two multi-valued columns the aggregations read. */
  datatype Field = Genres | ProductionCountries

  function Values(row: Row, field: Field): seq<string>
  {
    match field
    case Genres => row.genres
    case ProductionCountries => row.productionCountries
  }

  /** Every code of a multi-valued column, row after row, as a list grown with
      `extend` over the column. */
  function Flatten(rows: seq<Row>, field: Field): seq<string>
  {
    if rows == [] then [] else Flatten(rows[..|rows| - 1], field) + Values(rows[|rows| - 1], field)
  }

  /** A code is in the flattened column exactly when some row lists it. */
  lemma {:induction false} FlattenMembers(rows: seq<Row>, field: Field)
    ensures forall x :: x in Flatten(rows, field) <==> exists i :: 0 <= i < |rows| && x in Values(rows[i], field)
  {
    if rows != [] {
      var init := rows[..|rows| - 1];
      FlattenMembers(init, field);
      assert forall i :: 0 <= i < |init| ==> init[i] == rows[i];
    }
  }

  /** Extending a prefix of `s` by one element. */
  lemma TakeOneMore<T>(s: seq<T>, i: nat)
    requires i < |s|
    ensures s[..i + 1] == s[..i] + [s[i]]
  {
  }

  /** The `extend` loop over one column. */
  method Collect(rows: seq<Row>, field: Field) returns (xs: seq<string>)
    ensures xs == Flatten(rows, field)
  {
    xs := [];
    for i := 0 to |rows|
      invariant xs == Flatten(rows[..i], field)
    {
      assert rows[..i + 1][..i] == rows[..i];
      xs := xs + Values(rows[i], field);
    }
    assert rows[..|rows|] == rows;
  }
}
