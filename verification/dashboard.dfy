/** The aggregates the dashboard draws from the filtered table, and the whole
    run from the raw rows, the date parser and the sidebar choice to the table
    that is written back and the aggregates that are plotted. */
module Dashboard {
  import opened Wrappers
  import opened Titles
  import opened Seqs
  import opened Cleaning
  import opened TypeFilter
  import opened Tokens
  import opened Counting
  import opened Durations

  /** Every ranking on the page shows ten entries at most. */
  const TopN: nat := 10

  function CountryColumn(t: seq<CleanRow>): seq<Option<string>> {
    seq(|t|, i requires 0 <= i < |t| => t[i].country)
  }

  function GenreColumn(t: seq<CleanRow>): seq<Option<string>> {
    seq(|t|, i requires 0 <= i < |t| => t[i].listedIn)
  }

  /** A ranking drawn from tokenised cells holds only tokenised names. */
  lemma RankedTokensClean(tokens: seq<string>, r: seq<(string, nat)>)
    requires forall k :: 0 <= k < |tokens| ==> Trimmed(tokens[k]) && ',' !in tokens[k]
    requires forall i :: 0 <= i < |r| ==> r[i].0 in tokens
    ensures forall i :: 0 <= i < |r| ==> Trimmed(r[i].0) && ',' !in r[i].0
  {
    forall i | 0 <= i < |r| ensures Trimmed(r[i].0) && ',' !in r[i].0 {
      var k :| 0 <= k < |tokens| && tokens[k] == r[i].0;
    }
  }

  /** "Top 10 Countries": most common stripped tokens of `country`. */
  function TopCountries(t: seq<CleanRow>): (r: seq<(string, nat)>)
    ensures |r| <= TopN
    ensures IsMostCommon(ColumnTokens(CountryColumn(t)), TopN, r)
    ensures forall i :: 0 <= i < |r| ==> Trimmed(r[i].0) && ',' !in r[i].0
  {
    var tokens := ColumnTokens(CountryColumn(t));
    var r := MostCommon(tokens, TopN);
    RankedTokensClean(tokens, r);
    r
  }

  /** "Top 10 Genres": most common stripped tokens of `listed_in`; rows with
      no `listed_in` contribute nothing. */
  function TopGenres(t: seq<CleanRow>): (r: seq<(string, nat)>)
    ensures |r| <= TopN
    ensures IsMostCommon(ColumnTokens(GenreColumn(t)), TopN, r)
    ensures forall i :: 0 <= i < |r| ==> Trimmed(r[i].0) && ',' !in r[i].0
  {
    var tokens := ColumnTokens(GenreColumn(t));
    var r := MostCommon(tokens, TopN);
    RankedTokensClean(tokens, r);
    r
  }

  /** A row was attributed to director `d`. */
  predicate DirectedBy(d: string, c: CleanRow) {
    c.director == Some(d)
  }

  /** Number of rows attributed to director `d`. */
  function TitlesBy(t: seq<CleanRow>, d: string): nat {
    |Keep(t, c => DirectedBy(d, c))|
  }

  /** `df[df['director'] != 'Unknown']['director']` with missing values dropped. */
  function DirectorNames(t: seq<CleanRow>): (names: seq<string>)
    ensures Unknown !in names
    ensures forall d :: d != Unknown ==> multiset(names)[d] == TitlesBy(t, d)
  {
    if |t| == 0 then []
    else
      var rest := DirectorNames(t[1..]);
      assert t == [t[0]] + t[1..];
      var first := if t[0].director.Some? && t[0].director.value != Unknown
                   then [t[0].director.value] else [];
      first + rest
  }

  /** "Top 10 Directors": the placeholder is never ranked, and each listed
      count is the number of rows attributed to that director. */
  function TopDirectors(t: seq<CleanRow>): (r: seq<(string, nat)>)
    ensures |r| <= TopN
    ensures |r| == Min(TopN, |set d | d in DirectorNames(t)|)
    ensures forall i :: 0 <= i < |r| ==> r[i].0 in DirectorNames(t)
    ensures forall i :: 0 <= i < |r| ==> r[i].0 != Unknown && r[i].1 == TitlesBy(t, r[i].0)
    ensures forall i, j :: 0 <= i < j < |r| ==> r[i].0 != r[j].0
    ensures forall i, j :: 0 <= i < j < |r| ==> r[i].1 >= r[j].1
    ensures forall d :: d in DirectorNames(t) && d !in Keys(r) ==>
      |r| == TopN && TitlesBy(t, d) <= r[TopN - 1].1
  {
    var names := DirectorNames(t);
    MostCommon(names, TopN)
  }

  /** Everything one run of the dashboard produces. */
  datatype Output = Output(
    table: seq<CleanRow>,
    topCountries: seq<(string, nat)>,
    topGenres: seq<(string, nat)>,
    topDirectors: seq<(string, nat)>,
    movieMinutes: seq<Option<nat>>,
    showSeasons: seq<Option<nat>>)

  /** The type filter only drops rows, so a clean table stays clean. */
  lemma FilterKeepsClean(t: seq<CleanRow>, sel: Option<string>)
    requires forall i :: 0 <= i < |t| ==> IsClean(t[i])
    ensures forall i :: 0 <= i < |FilterType(t, sel)| ==> IsClean(FilterType(t, sel)[i])
  {
    var r := FilterType(t, sel);
    forall i | 0 <= i < |r| ensures IsClean(r[i]) {
      assert multiset(r)[r[i]] > 0;
      assert r[i] in t;
    }
  }

  /** One run: clean, filter on the sidebar choice, aggregate. `table` is the
      table written to the cleaned CSV file. */
  function Run(raw: seq<Row>, parse: string -> Option<Date>, sel: Option<string>): (o: Output)
    ensures forall i :: 0 <= i < |o.table| ==> IsClean(o.table[i])
    ensures sel == Some(All) ==> o.table == Clean(raw, parse)
    ensures sel != Some(All) ==> forall i :: 0 <= i < |o.table| ==> o.table[i].kind == sel
    ensures sel != Some(All) ==>
      forall c :: multiset(o.table)[c] == if c.kind == sel && sel.Some? then multiset(Clean(raw, parse))[c] else 0
    ensures IsSubsequence(o.table, Clean(raw, parse))
    ensures |o.movieMinutes| == |Movies(o.table)| && |o.showSeasons| == |TvShows(o.table)|
    ensures |o.topCountries| <= TopN && |o.topGenres| <= TopN && |o.topDirectors| <= TopN
    ensures o.topCountries == TopCountries(o.table) && o.topGenres == TopGenres(o.table)
    ensures o.topDirectors == TopDirectors(o.table)
    ensures o.movieMinutes == DurationColumn(Movies(o.table)) && o.showSeasons == DurationColumn(TvShows(o.table))
  {
    var cleaned := Clean(raw, parse);
    var table := FilterType(cleaned, sel);
    FilterKeepsClean(cleaned, sel);
    Output(table, TopCountries(table), TopGenres(table), TopDirectors(table),
           DurationColumn(Movies(table)), DurationColumn(TvShows(table)))
  }

  /** A raw director written "Unknown" and a missing director are treated
      alike: after cleaning neither contributes to the director ranking. */
  lemma UnknownDirectorNotRanked(r: Row, parse: string -> Option<Date>)
    requires HasEssentials(r)
    requires r.director.None? || r.director == Some(Unknown)
    ensures DirectorNames([CleanOne(r, parse)]) == []
  {
    var c := CleanOne(r, parse);
    assert [c][1..] == [];
  }

  /** The country column is filled before it is tokenised, so a row without
      a country is counted under the placeholder "Unknown". */
  lemma MissingCountryCountedAsUnknown(r: Row, parse: string -> Option<Date>)
    requires HasEssentials(r) && r.country.None?
    ensures ColumnTokens(CountryColumn([CleanOne(r, parse)])) == [Unknown]
  {
    var c := CleanOne(r, parse);
    var col := CountryColumn([c]);
    assert col == [Some(Unknown)];
    assert col[1..] == [];
    SingleName(Unknown);
  }
}
