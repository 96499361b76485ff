/** The top-N selections: the eight main genres of movies and of shows, and
    the ten most frequent countries and genres used as dummy vocabularies. */
module Ranking {
  import opened Rows
  import opened Frequency

  function Min(a: nat, b: nat): nat
  {
    if a < b then a else b
  }

  /** `common_genres`: the genre lists of both tables are gathered pairwise,
      as `zip` does, so only the first min(#movies, #shows) rows of each count;
      each result is the top eight of its list. */
  method CommonGenres(movies: seq<Row>, shows: seq<Row>) returns (mainMovie: seq<string>, mainShow: seq<string>)
    ensures var m := Min(|movies|, |shows|);
      && mainMovie == TopKeys(Flatten(movies[..m], Genres), 8)
      && mainShow == TopKeys(Flatten(shows[..m], Genres), 8)
      && IsTopKeys(Flatten(movies[..m], Genres), 8, mainMovie)
      && IsTopKeys(Flatten(shows[..m], Genres), 8, mainShow)
  {
    var movieGenres: seq<string> := [];
    var showGenres: seq<string> := [];
    var i := 0;
    while i < |movies| && i < |shows|
      invariant i <= |movies| && i <= |shows|
      invariant movieGenres == Flatten(movies[..i], Genres)
      invariant showGenres == Flatten(shows[..i], Genres)
    {
      assert movies[..i + 1][..i] == movies[..i];
      assert shows[..i + 1][..i] == shows[..i];
      movieGenres := movieGenres + movies[i].genres;
      showGenres := showGenres + shows[i].genres;
      i := i + 1;
    }
    mainMovie := TopKeys(movieGenres, 8);
    mainShow := TopKeys(showGenres, 8);
    TopKeysAreTop(movieGenres, 8);
    TopKeysAreTop(showGenres, 8);
  }

  /** `top10_countries`: the ten most frequent production countries. */
  method Top10Countries(rows: seq<Row>) returns (top: seq<string>)
    ensures IsTopKeys(Flatten(rows, ProductionCountries), 10, top)
  {
    var countries := Collect(rows, ProductionCountries);
    top := TopKeys(countries, 10);
    TopKeysAreTop(countries, 10);
  }

  /** `top10_genres`: the ten most frequent genres. */
  method Top10Genres(rows: seq<Row>) returns (top: seq<string>)
    ensures IsTopKeys(Flatten(rows, Genres), 10, top)
  {
    var genres := Collect(rows, Genres);
    top := TopKeys(genres, 10);
    TopKeysAreTop(genres, 10);
  }
}
