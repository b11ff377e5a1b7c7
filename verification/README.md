# Netflix titles dashboard: the data pipeline

This project models the data pipeline of the Netflix titles dashboard. The
dashboard is a Streamlit script. It loads the titles CSV and cleans it. It then
filters the rows on the sidebar's type choice and computes the aggregates that
its charts show. The model keeps the pure part of that script and states its
rules as Dafny contracts and lemmas:

- **Cleaning** (`Cleaning`). Missing `director`, `cast`, `country` and
  `date_added` cells get the placeholder `"Unknown"`. Then rows missing
  `rating` or `duration` are dropped. Then a `date_added` equal to
  `"Unknown"` becomes missing again and the rest are parsed as dates.
  Finally `year_added` is derived from the parsed date.
- **Type filter** (`TypeFilter`). The selector offers `"All"` followed by the
  distinct types. `"All"` keeps the table. Any other choice keeps the rows of
  that type, in order.
- **Comma lists** (`Tokens`, `Counting`, `Dashboard`). `country` and
  `listed_in` are split on `,`, each piece is stripped, and the lists are
  flattened in row order. The tokens are then ranked like
  `Counter.most_common(10)`: by count, with ties in order of first appearance.
  Directors other than `"Unknown"` are ranked by the number of rows they
  directed.
- **Durations** (`Durations`). The table is split into `"Movie"` and
  `"TV Show"` rows. Each `duration` text yields the value of its first run of
  decimal digits, or nothing when it holds no digit.

A row is `Titles.Row` with `Option` cells; `None` is pandas' missing value.
The cleaned row is `Titles.CleanRow`: its `dateAdded` is a parsed `Date` and it
has the extra `yearAdded` column. The date parser (`pd.to_datetime` with
`errors='coerce'`) is a parameter `parse: string -> Option<Date>`. Pandas
infers one date format for the whole column. For one run this is still a
function from cell text to an optional date, so the parameter covers it. The
sidebar choice is a parameter too (`Option<string>`, because `unique()` can
offer the missing value). `Dashboard.Run` composes the stages. Its `table` is
the table the script writes to `netflix_titles_cleaned.csv`: the filtered
rows with `year_added` added.

Two behaviours of the code are worth stating plainly:

- `date_added` can be missing after cleaning: line 22 turns the placeholder
  back into a missing value, and a cell the parser rejects is missing as well.
- The regex `(\d+)` takes the first run of digits anywhere in the `duration`
  text, not only a run at its start (`Durations.NumberAfterPrefix`).

Some behaviour of the code is easy to miss, and the model states it:

- `country` is filled before it is tokenised. A title without a country is
  therefore counted as a country named `"Unknown"`
  (`Dashboard.MissingCountryCountedAsUnknown`). The director ranking excludes
  the placeholder; the country ranking does not.
- A raw cell whose text is `"Unknown"` cannot be told apart from a filled one
  (`Cleaning.UnknownDateIsMissing`, `Dashboard.UnknownDirectorNotRanked`).
- `"A,"` splits into `"A"` and an empty token, and the empty token is counted
  (`Tokens.TrailingComma`).

## Model

| member | source | states |
|---|---|---|
| Wrappers.Option.ValueOr | netflix-project.py:15-16 | a present cell keeps its value and a missing one takes the fill value |
| Cleaning.FillRow | netflix-project.py:15-16 | afterwards director, cast, country and date_added are present; a present cell is unchanged, a missing one is "Unknown"; every other column is unchanged |
| Cleaning.Fill | netflix-project.py:15-16 | the fill neither adds nor removes rows: row i of the result is row i of the input, filled |
| Cleaning.FillIdempotent | netflix-project.py:15-16 | filling a filled row changes nothing |
| Cleaning.DropIncomplete | netflix-project.py:19 | every kept row has rating and duration; a row is kept exactly when both are present, as often as it occurs; kept rows stay in order |
| Cleaning.ConvertDate | netflix-project.py:22-23 | the date is present exactly when the cell is present, is not "Unknown" and parses, and then it is the parsed date |
| Cleaning.YearOf | netflix-project.py:26 | the year is present exactly when the date is, and is the date's year |
| Cleaning.ConvertRow | netflix-project.py:22-26 | a kept row's date is the converted cell and its year_added is that date's year; the nine other columns are copied unchanged |
| Cleaning.Clean | netflix-project.py:15-26 | every cleaned row has rating, duration, director, cast and country, and year_added is present exactly when date_added is, and equals its year |
| Cleaning.CleanOne | netflix-project.py:15-26 | for one raw row: date_added is missing exactly when it was missing, was "Unknown" or does not parse; the three filled columns carry the raw value or "Unknown"; all other columns are unchanged |
| Cleaning.FillThenDrop | netflix-project.py:15-19 | dropping incomplete rows after the fill is the same as filling the complete rows |
| Cleaning.CleanIsRowwise | netflix-project.py:15-26 | the cleaned table is, in order, the cleaned form of exactly the raw rows that have rating and duration |
| Cleaning.UnknownDateIsMissing | netflix-project.py:15-23 | a raw date "Unknown" and a missing date give the same cleaned row, with no year |
| Cleaning.MissingDateKeepsRow | netflix-project.py:15-26 | a row without date_added is kept, with neither a date nor a year |
| Cleaning.MissingEssentialDropsRow | netflix-project.py:19 | a row without rating or duration is removed |
| Cleaning.ParsedDateGivesYear | netflix-project.py:23-26 | a date that parses becomes the row's date, and its year becomes year_added |
| TypeFilter.SelectOptions | netflix-project.py:30 | the options start with "All", followed by each type present in the table exactly once and by nothing else |
| Seqs.Distinct | netflix-project.py:30 | `unique()`: each value of the column once, and no other value |
| Seqs.DistinctOrder | netflix-project.py:30 | distinct values are listed in order of first appearance |
| Seqs.DistinctSize | netflix-project.py:30 | there is one entry per distinct value |
| TypeFilter.FilterType | netflix-project.py:30-32 | "All" returns the table unchanged; any other choice returns, in order, every row whose type equals the choice and no other row |
| TypeFilter.AbsentTypeSelectsNothing | netflix-project.py:31-32 | a choice that no row has yields the empty table |
| TypeFilter.SelectionsDisjoint | netflix-project.py:31-32 | two different types select no common row |
| Seqs.Keep | netflix-project.py:32 | boolean-mask selection keeps, in order, exactly the rows meeting the mask, each as often as it occurs |
| Seqs.KeepMap | netflix-project.py:15-19 | selecting after a row-wise map equals mapping after selecting, when the map does not change the selection |
| Seqs.KeepAppend | netflix-project.py:32 | selecting from two tables in sequence is selecting from each and concatenating |
| Tokens.Split | netflix-project.py:53 | a cell splits into one more piece than it has commas, and no piece holds a comma |
| Tokens.JoinSplit | netflix-project.py:53 | joining the pieces with commas gives the cell back |
| Tokens.SplitJoin | netflix-project.py:53 | comma-free pieces joined with commas split back into the same pieces |
| Tokens.LeadingSpaces | netflix-project.py:53 | counts the whitespace prefix of a piece: it is all whitespace and is followed by a non-whitespace character or the end |
| Tokens.RStrip | netflix-project.py:53 | removes exactly the whitespace suffix |
| Tokens.Strip | netflix-project.py:53 | the result is the part of the text between its leading and trailing whitespace and has no whitespace at either end |
| Tokens.StripPadded | netflix-project.py:53 | stripping whitespace-padded trimmed text gives that text |
| Tokens.StripIdempotent | netflix-project.py:53 | stripping twice equals stripping once |
| Tokens.CellTokens | netflix-project.py:53 | a cell yields commas + 1 tokens, each without surrounding whitespace or commas |
| Tokens.CellTokensOfJoin | netflix-project.py:53 | the tokens of a cell are its comma-separated pieces, each stripped, in order |
| Tokens.SingleName | netflix-project.py:53 | a trimmed cell without a comma is one token, itself |
| Tokens.TwoPieces | netflix-project.py:53 | "x,y" yields x and y, each stripped |
| Tokens.SpaceAfterComma | netflix-project.py:53 | the blank after a comma does not reach the token |
| Tokens.TwoNames | netflix-project.py:53 | "a, b" yields exactly the two names |
| Tokens.TrailingComma | netflix-project.py:53 | "a," yields the name and an empty token |
| Tokens.ColumnTokens | netflix-project.py:53-54 | flattening a column yields only trimmed, comma-free tokens |
| Tokens.ColumnTokensAppend | netflix-project.py:54 | the flattened list is the in-order concatenation of the row lists |
| Tokens.ColumnTokensCount | netflix-project.py:54-55 | a token's count over a table is the sum of its counts over the parts |
| Counting.BeforeTotal | netflix-project.py:56 | most_common order ranks any two different items one way or the other |
| Counting.Insert | netflix-project.py:56 | inserting a new item into a ranked list keeps it ranked and adds exactly that item |
| Counting.Rank | netflix-project.py:56 | distinct items are arranged in most_common order with none lost or added |
| Counting.TopItems | netflix-project.py:55-56 | the first n items in ranked order; any omitted item ranks below the last one listed |
| Counting.MostCommon | netflix-project.py:55-56 | min(n, distinct items) entries with distinct items; each count is the item's occurrence count; counts do not increase; equal counts are in first-appearance order; an omitted item is counted at most as often as the last listed one, and comes later on a tie |
| Dashboard.TopCountries | netflix-project.py:53-56 | at most 10 trimmed, comma-free countries with their occurrence counts, in most_common order; as many entries as there are distinct countries, up to 10; an omitted country has at most the last listed count, and on a tie it first appears after the last listed one |
| Dashboard.TopGenres | netflix-project.py:64-67 | the same for listed_in; rows without listed_in contribute nothing |
| Dashboard.MissingCountryCountedAsUnknown | netflix-project.py:16 | a title without a country adds one "Unknown" token to the country counts |
| Dashboard.DirectorNames | netflix-project.py:75 | never holds "Unknown", and holds each other director as often as rows have that director |
| Dashboard.TopDirectors | netflix-project.py:75 | exactly min(10, number of distinct named directors) distinct directors, each of whom directed a row, never "Unknown", with counts equal to their row counts, non-increasing; an omitted director has at most the last count |
| Dashboard.UnknownDirectorNotRanked | netflix-project.py:75 | a director that was missing or written "Unknown" adds nothing to the ranking |
| Durations.DecimalRoundTrip | netflix-project.py:86 | the value read from the decimal digits of any number is that number, so every number written in decimal is recovered exactly |
| Durations.FirstDigit | netflix-project.py:86 | the position of the first digit: none before it, a digit at it unless it is the end |
| Durations.RunEnd | netflix-project.py:86 | a run of digits extends to the first non-digit or the end |
| Durations.FirstRunUnique | netflix-project.py:86 | the first maximal run of digits is unique |
| Durations.ExtractNumber | netflix-project.py:86-87 | nothing exactly when the text has no digit; otherwise the value of the first maximal run of digits, wherever it starts |
| Durations.LeadingNumber | netflix-project.py:86 | "90 min"-shaped text yields its number |
| Durations.NumberAfterPrefix | netflix-project.py:86 | digits after a digit-free prefix are found too |
| Durations.DurationNumber | netflix-project.py:86-87 | a missing duration gives nothing; a present one gives nothing exactly when it holds no digit, and otherwise the value of its first digit run |
| Durations.Movies | netflix-project.py:84 | exactly the "Movie" rows, in order, each as often as it occurs |
| Durations.TvShows | netflix-project.py:85 | exactly the "TV Show" rows, in order, each as often as it occurs |
| Durations.DurationColumn | netflix-project.py:86-87 | one extracted value per row of the partition, in row order |
| Durations.PartitionsDisjoint | netflix-project.py:84-85 | no row is in both partitions, and a row of another type is in neither |
| Dashboard.Run | netflix-project.py:12-102 | the written table holds only clean rows; it is the cleaned table for "All" and otherwise a subsequence of it with only the chosen type; every cleaned row of the chosen type is written, as often as it occurs; the three rankings and the two duration columns are computed from the written table |

## Left out

- Loading the CSV (line 12), including which cell texts `read_csv` reads as missing: the model starts from rows whose missing cells are `None`.
- Writing the CSV (lines 101-102): `Dashboard.Run` returns the table that would be written; file output is not modelled.
- The Streamlit page, title, sidebar, subheaders and success message (lines 7-9, 28, 35, 43, 52, 63, 74, 83, 103): user-interface side effects.
- Plot 1 (type counts, line 37) and plot 2 (titles per year and type, lines 42-49): these counts are computed inside the charting calls and are not modelled.
- All plotting, histogram binning and density estimation (lines 36-39, 45-49, 57-60, 68-71, 77-80, 89-98): rendering and floating point.
- The internals of `pd.to_datetime`: it is the `parse` parameter.
- `.astype(float)` on the extracted durations (lines 86-87): the value is an exact natural number, so very long digit runs that a float would round are not modelled.
- `Durations.IsDigit` accepts the ASCII digits only. Python's `\d` also matches other Unicode decimal digits, and those are not modelled.
- `fillna(..., inplace=True)` on a column selection (line 16) is modelled as updating the table, as pandas 2 does. Under pandas' copy-on-write mode it would leave the table unchanged.
- Dashboard.TopDirectors: the contract does not state the order of directors with equal counts, because `value_counts` does not document one. The function ranks them like the other rankings, in order of first appearance.
- Reloading the written CSV is not modelled: it goes through file I/O and pandas' CSV parser.
- `show_id` and `description` are not part of `Titles.Row`. `title` and `release_year` are carried in it but never read. No step of the script changes any of these four columns, so they are written to the CSV exactly as read.
