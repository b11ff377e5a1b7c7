/** The records of the titles table: a row as loaded from the CSV export and
    a row after cleaning, when `date_added` has become a date and the derived
    `year_added` column exists. */
module Titles {
  import opened Wrappers

  /** The placeholder written into missing non-essential cells. */
  const Unknown: string := "Unknown"

  /** The selector value that turns the type filter off. */
  const All: string := "All"

  /** The two values of the `type` column that the duration step splits on. */
  const Movie: string := "Movie"
  const TvShow: string := "TV Show"

  /** A calendar date as produced by the date parser. */
  datatype Date = Date(year: int, month: int, day: int)

  /** The columns of one CSV row that the cleaning stage and the dashboard
      touch, plus `title` and `release_year`, which are carried but never
      read. `show_id` and `description` are not represented. Every cell may
      be missing. `kind` is the `type` column (a Dafny keyword). */
  datatype Row = Row(
    kind: Option<string>,
    title: Option<string>,
    director: Option<string>,
    cast: Option<string>,
    country: Option<string>,
    dateAdded: Option<string>,
    releaseYear: Option<int>,
    rating: Option<string>,
    duration: Option<string>,
    listedIn: Option<string>)

  /** One row after cleaning: `dateAdded` holds a parsed date or is missing,
      and `yearAdded` is the derived column. */
  datatype CleanRow = CleanRow(
    kind: Option<string>,
    title: Option<string>,
    director: Option<string>,
    cast: Option<string>,
    country: Option<string>,
    dateAdded: Option<Date>,
    releaseYear: Option<int>,
    rating: Option<string>,
    duration: Option<string>,
    listedIn: Option<string>,
    yearAdded: Option<int>)

  /** The columns whose absence deletes a row. */
  predicate HasEssentials(r: Row) {
    r.rating.Some? && r.duration.Some?
  }

  /** What every row of the cleaned table satisfies. */
  predicate IsClean(c: CleanRow) {
    && c.rating.Some? && c.duration.Some?
    && c.director.Some? && c.cast.Some? && c.country.Some?
    && (c.yearAdded.Some? <==> c.dateAdded.Some?)
    && (c.dateAdded.Some? ==> c.yearAdded.value == c.dateAdded.value.year)
  }
}
