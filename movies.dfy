/**
 * internal/data/movies.go: the movie record, its validation, and the
 * behaviour of the movie table behind `Get`, `Update` and `Delete`, with the
 * table held in memory as a map from id to record.
 */
module Movies {
  import opened Wrappers
  import opened Decimal
  import opened Validator

  /**
   * `Movie`, without its creation timestamp. `genres == None` is a nil slice,
   * which the validation tells apart from an empty one.
   */
  datatype Movie = Movie(id: Int64, title: string, year: Int32, runtime: Int32, genres: Option<seq<string>>, version: int)

  /** The genres slice as Go's `len` and `Unique` see it: nil reads as empty. */
  function GenreList(genres: Option<seq<string>>): (g: seq<string>)
    ensures genres.Some? ==> g == genres.value
    ensures genres.None? ==> g == []
  {
    if genres.Some? then genres.value else []
  }

  const FirstFilmYear: int := 1888
  const MaxTitleBytes: int := 500
  const MaxGenres: int := 5

  function TitleError(title: string): (r: Option<string>)
    ensures r.None? <==> title != "" && |title| <= MaxTitleBytes
  {
    if title == "" then Some("must be provided")
    else if |title| > MaxTitleBytes then Some("must not be more than 500 bytes long")
    else None
  }

  function YearError(year: int, currentYear: int): (r: Option<string>)
    ensures r.None? <==> FirstFilmYear <= year <= currentYear
  {
    if year == 0 then Some("must be provided")
    else if year < FirstFilmYear then Some("must be greater than 1888")
    else if year > currentYear then Some("must not be in the future")
    else None
  }

  function RuntimeError(runtime: int): (r: Option<string>)
    ensures r.None? <==> runtime > 0
  {
    if runtime == 0 then Some("must be provided")
    else if runtime < 0 then Some("must be a positive integer")
    else None
  }

  function GenresError(genres: Option<seq<string>>): (r: Option<string>)
    ensures r.None? <==> genres.Some? && 1 <= |genres.value| <= MaxGenres && NoDuplicates(genres.value)
  {
    if genres.None? then Some("must be provided")
    else if |genres.value| < 1 then Some("must be provided at least 1 genre")
    else if |genres.value| > MaxGenres then Some("must not contain more than 5 genres")
    else if !NoDuplicates(genres.value) then Some("must contain only unique values")
    else None
  }

  /** The errors `ValidateMovie` records on an empty validator: the first failing check of each field. */
  function MovieErrors(m: Movie, currentYear: int): (e: map<string, string>)
    ensures e.Keys <= {"title", "year", "runtime", "genres"}
  {
    Entry("genres", GenresError(m.genres))
      + Entry("runtime", RuntimeError(m.runtime))
      + Entry("year", YearError(m.year, currentYear))
      + Entry("title", TitleError(m.title))
  }

  /** The two title checks in a row record the title's first failure. */
  lemma TitleChecks(errors: map<string, string>, title: string)
    ensures Checked(Checked(errors, title != "", "title", "must be provided"),
                    |title| <= MaxTitleBytes, "title", "must not be more than 500 bytes long")
         == Entry("title", TitleError(title)) + errors
  {
    assert Entry("title", None) + errors == errors;
    CheckedEntry(errors, "title", None, title != "", "must be provided");
    var first := FirstFailure(None, title != "", "must be provided");
    CheckedEntry(errors, "title", first, |title| <= MaxTitleBytes, "must not be more than 500 bytes long");
  }

  /** The three year checks in a row record the year's first failure. */
  lemma YearChecks(errors: map<string, string>, year: int, currentYear: int)
    ensures Checked(Checked(Checked(errors, year != 0, "year", "must be provided"),
                            year >= FirstFilmYear, "year", "must be greater than 1888"),
                    year <= currentYear, "year", "must not be in the future")
         == Entry("year", YearError(year, currentYear)) + errors
  {
    assert Entry("year", None) + errors == errors;
    CheckedEntry(errors, "year", None, year != 0, "must be provided");
    var first := FirstFailure(None, year != 0, "must be provided");
    CheckedEntry(errors, "year", first, year >= FirstFilmYear, "must be greater than 1888");
    first := FirstFailure(first, year >= FirstFilmYear, "must be greater than 1888");
    CheckedEntry(errors, "year", first, year <= currentYear, "must not be in the future");
  }

  /** The two runtime checks in a row record the runtime's first failure. */
  lemma RuntimeChecks(errors: map<string, string>, runtime: int)
    ensures Checked(Checked(errors, runtime != 0, "runtime", "must be provided"),
                    runtime > 0, "runtime", "must be a positive integer")
         == Entry("runtime", RuntimeError(runtime)) + errors
  {
    assert Entry("runtime", None) + errors == errors;
    CheckedEntry(errors, "runtime", None, runtime != 0, "must be provided");
    var first := FirstFailure(None, runtime != 0, "must be provided");
    CheckedEntry(errors, "runtime", first, runtime > 0, "must be a positive integer");
  }

  /** The four genre checks in a row record the genres' first failure. */
  lemma GenresChecks(errors: map<string, string>, genres: Option<seq<string>>)
    ensures Checked(Checked(Checked(Checked(errors, genres.Some?, "genres", "must be provided"),
                                    |GenreList(genres)| >= 1, "genres", "must be provided at least 1 genre"),
                            |GenreList(genres)| <= MaxGenres, "genres", "must not contain more than 5 genres"),
                    NoDuplicates(GenreList(genres)), "genres", "must contain only unique values")
         == Entry("genres", GenresError(genres)) + errors
  {
    var g := GenreList(genres);
    assert Entry("genres", None) + errors == errors;
    CheckedEntry(errors, "genres", None, genres.Some?, "must be provided");
    var first := FirstFailure(None, genres.Some?, "must be provided");
    CheckedEntry(errors, "genres", first, |g| >= 1, "must be provided at least 1 genre");
    first := FirstFailure(first, |g| >= 1, "must be provided at least 1 genre");
    CheckedEntry(errors, "genres", first, |g| <= MaxGenres, "must not contain more than 5 genres");
    first := FirstFailure(first, |g| <= MaxGenres, "must not contain more than 5 genres");
    CheckedEntry(errors, "genres", first, NoDuplicates(g), "must contain only unique values");
  }

  /** The four fields' entries, added one after the other, make up `MovieErrors`. */
  lemma MovieEntries(m: Movie, currentYear: int, before: map<string, string>)
    ensures var g, r, y, t := Entry("genres", GenresError(m.genres)), Entry("runtime", RuntimeError(m.runtime)),
                              Entry("year", YearError(m.year, currentYear)), Entry("title", TitleError(m.title));
            g + (r + (y + (t + before))) == MovieErrors(m, currentYear) + before
  {
    var g, r, y, t := Entry("genres", GenresError(m.genres)), Entry("runtime", RuntimeError(m.runtime)),
                      Entry("year", YearError(m.year, currentYear)), Entry("title", TitleError(m.title));
    UnionAssociative(y, t, before);
    UnionAssociative(r, y + t, before);
    UnionAssociative(g, r + y + t, before);
    UnionAssociative(r, y, t);
    UnionAssociative(g, r + y, t);
    UnionAssociative(g, r, y);
  }

  /**
   * `ValidateMovie(v, movie)`, with the current year (read from the clock in
   * the source) as a parameter. Adds the movie's errors to `v`, keeping any
   * message a field already had.
   */
  method ValidateMovie(v: Validator, movie: Movie, currentYear: Int32)
    modifies v
    ensures v.errors == MovieErrors(movie, currentYear) + old(v.errors)
  {
    ghost var before := v.errors;

    // Title
    v.Check(movie.title != "", "title", "must be provided");
    v.Check(|movie.title| <= MaxTitleBytes, "title", "must not be more than 500 bytes long");
    TitleChecks(before, movie.title);
    ghost var afterTitle := v.errors;

    // Year
    v.Check(movie.year != 0, "year", "must be provided");
    v.Check(movie.year >= FirstFilmYear, "year", "must be greater than 1888");
    v.Check(movie.year <= currentYear, "year", "must not be in the future");
    YearChecks(afterTitle, movie.year, currentYear);
    ghost var afterYear := v.errors;

    // Runtime
    v.Check(movie.runtime != 0, "runtime", "must be provided");
    v.Check(movie.runtime > 0, "runtime", "must be a positive integer");
    RuntimeChecks(afterYear, movie.runtime);
    ghost var afterRuntime := v.errors;

    // Genres
    var genres := GenreList(movie.genres);
    v.Check(movie.genres.Some?, "genres", "must be provided");
    v.Check(|genres| >= 1, "genres", "must be provided at least 1 genre");
    v.Check(|genres| <= MaxGenres, "genres", "must not contain more than 5 genres");
    var unique := Unique(genres);
    v.Check(unique, "genres", "must contain only unique values");
    GenresChecks(afterRuntime, movie.genres);

    MovieEntries(movie, currentYear, before);
  }

  /** No error is recorded exactly when every field is acceptable. */
  lemma MovieValid(m: Movie, currentYear: int)
    ensures MovieErrors(m, currentYear) == map[] <==>
      && m.title != "" && |m.title| <= MaxTitleBytes
      && FirstFilmYear <= m.year <= currentYear
      && m.runtime > 0
      && m.genres.Some? && 1 <= |m.genres.value| <= MaxGenres && NoDuplicates(m.genres.value)
  {
    var e := MovieErrors(m, currentYear);
    if TitleError(m.title).Some? { assert "title" in e; }
    if YearError(m.year, currentYear).Some? { assert "year" in e; }
    if RuntimeError(m.runtime).Some? { assert "runtime" in e; }
    if GenresError(m.genres).Some? { assert "genres" in e; }
  }

  /**
   * A year of 0 is reported as missing: the later "must be greater than 1888"
   * check also fails, but the first message recorded for the field stays.
   */
  lemma YearZeroIsMissing(m: Movie, currentYear: int)
    requires m.year == 0
    ensures MovieErrors(m, currentYear)["year"] == "must be provided"
  {
  }

  /** A missing, empty, overlong or repetitive genre list is reported under `genres`. */
  lemma GenresReported(m: Movie, currentYear: int)
    requires m.genres.None? || |m.genres.value| == 0 || |m.genres.value| > MaxGenres || !NoDuplicates(m.genres.value)
    ensures "genres" in MovieErrors(m, currentYear)
  {
  }

  /** The movie fixtures of the create-movie test: the valid one passes, the one without a title fails on the title alone. */
  lemma MovieFixtures(currentYear: Int32)
    requires currentYear >= 2001
    ensures MovieErrors(Movie(1, "Lord of the Rings", 2001, 228, Some(["fantasy", "epic"]), 1), currentYear) == map[]
    ensures MovieErrors(Movie(2, "", 2001, 228, Some(["fantasy", "epic"]), 1), currentYear) == map["title" := "must be provided"]
  {
    assert NoDuplicates(["fantasy", "epic"]);
  }

  /** `ErrRecordNotFound` and `ErrEditConflict`. */
  datatype StoreError = ErrRecordNotFound | ErrEditConflict

  /**
   * The caller's `*Movie` that `Update` writes the new version back into.
   */
  class MovieRecord {
    var id: Int64
    var title: string
    var year: Int32
    var runtime: Int32
    var genres: Option<seq<string>>
    var version: int

    constructor (m: Movie)
      ensures Value() == m
    {
      id, title, year, runtime, genres, version := m.id, m.title, m.year, m.runtime, m.genres, m.version;
    }

    function Value(): Movie
      reads this
    {
      Movie(id, title, year, runtime, genres, version)
    }
  }

  /** The movies table, keyed by id. */
  class MovieStore {
    var movies: map<int, Movie>

    /** Every stored record sits under its own id, which is positive. */
    ghost predicate Valid()
      reads this
    {
      forall id :: id in movies ==> id >= 1 && movies[id].id == id
    }

    constructor ()
      ensures Valid() && movies == map[]
    {
      movies := map[];
    }

    /** `Get(id)`: the record with that id; an id below 1 is not found without looking. */
    method Get(id: Int64) returns (r: Result<Movie, StoreError>)
      requires Valid()
      ensures id < 1 ==> r == Err(ErrRecordNotFound)
      ensures r.Ok? <==> id in movies
      ensures r.Ok? ==> r.value == movies[id] && r.value.id == id
      ensures r.Err? ==> r.error == ErrRecordNotFound
    {
      if id < 1 {
        return Err(ErrRecordNotFound);
      }
      if id in movies {
        r := Ok(movies[id]);
      } else {
        r := Err(ErrRecordNotFound);
      }
    }

    /**
     * `Update(movie)`: optimistic locking. The stored record with the movie's
     * id is replaced only if it still has the movie's version; it then gets
     * the new fields and the next version, which is also written back into
     * `movie`. Otherwise nothing changes and the result is `ErrEditConflict`.
     */
    method Update(movie: MovieRecord) returns (err: Option<StoreError>)
      requires Valid()
      modifies this, movie`version
      ensures Valid()
      ensures var m := old(movie.Value());
              if m.id in old(movies) && old(movies)[m.id].version == m.version then
                && err == None
                && movies == old(movies)[m.id := m.(version := m.version + 1)]
                && movie.Value() == m.(version := m.version + 1)
              else
                && err == Some(ErrEditConflict)
                && movies == old(movies)
                && movie.Value() == m
    {
      var m := movie.Value();
      if m.id in movies && movies[m.id].version == m.version {
        var updated := m.(version := m.version + 1);
        movies := movies[m.id := updated];
        movie.version := updated.version;
        err := None;
      } else {
        err := Some(ErrEditConflict);
      }
    }

    /** `Delete(id)`: removes the record with that id and nothing else; a missing or non-positive id is not found. */
    method Delete(id: Int64) returns (err: Option<StoreError>)
      requires Valid()
      modifies this
      ensures Valid()
      ensures id < 1 ==> err == Some(ErrRecordNotFound) && movies == old(movies)
      ensures err.None? <==> id in old(movies)
      ensures err.None? ==> movies == old(movies) - {id}
      ensures err.Some? ==> err == Some(ErrRecordNotFound) && movies == old(movies)
    {
      if id < 1 {
        return Some(ErrRecordNotFound);
      }
      if id in movies {
        movies := movies - {id};
        err := None;
      } else {
        err := Some(ErrRecordNotFound);
      }
    }
  }

  /** Two updates sent with the same version: the second one conflicts and changes nothing. */
  method UpdateTwice(store: MovieStore, first: MovieRecord, second: MovieRecord) returns (e1: Option<StoreError>, e2: Option<StoreError>)
    requires store.Valid() && first != second
    requires first.id == second.id && first.version == second.version
    requires first.id in store.movies && store.movies[first.id].version == first.version
    modifies store, first`version, second`version
    ensures e1 == None && e2 == Some(ErrEditConflict)
  {
    e1 := store.Update(first);
    e2 := store.Update(second);
  }
}
