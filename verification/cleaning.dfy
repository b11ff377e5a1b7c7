/** The cleaning stage: sentinel fill of the non-essential columns, removal of
    rows missing an essential column, conversion of `date_added` to a date and
    derivation of `year_added`, in that order. The date parser is a parameter
    of type `string -> Option<Date>`: `None` is a value it cannot parse. */
module Cleaning {
  import opened Wrappers
  import opened Titles
  import opened Seqs

  /** Fill of `director`, `cast`, `country` and `date_added`. */
  function FillRow(r: Row): (f: Row)
    ensures f.director.Some? && f.cast.Some? && f.country.Some? && f.dateAdded.Some?
    ensures r.director.Some? ==> f.director == r.director
    ensures r.cast.Some? ==> f.cast == r.cast
    ensures r.country.Some? ==> f.country == r.country
    ensures r.dateAdded.Some? ==> f.dateAdded == r.dateAdded
    ensures r.director.None? ==> f.director == Some(Unknown)
    ensures r.cast.None? ==> f.cast == Some(Unknown)
    ensures r.country.None? ==> f.country == Some(Unknown)
    ensures r.dateAdded.None? ==> f.dateAdded == Some(Unknown)
    ensures f.kind == r.kind && f.title == r.title && f.releaseYear == r.releaseYear
    ensures f.rating == r.rating && f.duration == r.duration && f.listedIn == r.listedIn
  {
    r.(director := Some(r.director.ValueOr(Unknown)), cast := Some(r.cast.ValueOr(Unknown)),
       country := Some(r.country.ValueOr(Unknown)), dateAdded := Some(r.dateAdded.ValueOr(Unknown)))
  }

  /** The fill applied to every row of the table. */
  function Fill(t: seq<Row>): (f: seq<Row>)
    ensures |f| == |t|
    ensures forall i :: 0 <= i < |t| ==> f[i] == FillRow(t[i])
  {
    Map(t, FillRow)
  }

  /** Removal of every row whose `rating` or `duration` is missing. */
  function DropIncomplete(t: seq<Row>): (d: seq<Row>)
    ensures forall i :: 0 <= i < |d| ==> d[i].rating.Some? && d[i].duration.Some?
    ensures forall r :: multiset(d)[r] == if HasEssentials(r) then multiset(t)[r] else 0
    ensures IsSubsequence(d, t)
  {
    Keep(t, HasEssentials)
  }

  /** The placeholder is turned back into a missing value, then the parser runs;
      a value it cannot parse becomes missing too. */
  function ConvertDate(v: Option<string>, parse: string -> Option<Date>): (d: Option<Date>)
    ensures d.Some? <==> v.Some? && v.value != Unknown && parse(v.value).Some?
    ensures d.Some? ==> d == parse(v.value)
  {
    match v
    case None => None
    case Some(s) => if s == Unknown then None else parse(s)
  }

  /** The calendar year of a date; a missing date has no year. */
  function YearOf(d: Option<Date>): (y: Option<int>)
    ensures y.Some? <==> d.Some?
    ensures d.Some? ==> y.value == d.value.year
  {
    match d
    case None => None
    case Some(date) => Some(date.year)
  }

  /** Date conversion and year derivation of one row that survived the drop. */
  function ConvertRow(f: Row, parse: string -> Option<Date>): (c: CleanRow)
    ensures c.dateAdded == ConvertDate(f.dateAdded, parse)
    ensures c.yearAdded == YearOf(c.dateAdded)
    ensures c.kind == f.kind && c.title == f.title && c.director == f.director
    ensures c.cast == f.cast && c.country == f.country && c.releaseYear == f.releaseYear
    ensures c.rating == f.rating && c.duration == f.duration && c.listedIn == f.listedIn
  {
    var d := ConvertDate(f.dateAdded, parse);
    CleanRow(f.kind, f.title, f.director, f.cast, f.country, d, f.releaseYear,
             f.rating, f.duration, f.listedIn, YearOf(d))
  }

  /** The whole cleaning stage: fill, then drop, then convert the dates. */
  function Clean(t: seq<Row>, parse: string -> Option<Date>): (c: seq<CleanRow>)
    ensures forall i :: 0 <= i < |c| ==> IsClean(c[i])
  {
    var kept := DropIncomplete(Fill(t));
    seq(|kept|, i requires 0 <= i < |kept| => ConvertRow(kept[i], parse))
  }

  /** What cleaning makes of one raw row that has its essential columns. */
  function CleanOne(r: Row, parse: string -> Option<Date>): (c: CleanRow)
    requires HasEssentials(r)
    ensures IsClean(c)
    ensures c.dateAdded.None? <==>
      r.dateAdded.None? || r.dateAdded == Some(Unknown) || parse(r.dateAdded.value).None?
    ensures c.dateAdded.Some? ==> c.dateAdded == parse(r.dateAdded.value)
    ensures c.yearAdded.Some? <==> c.dateAdded.Some?
    ensures c.director == Some(r.director.ValueOr(Unknown))
    ensures c.cast == Some(r.cast.ValueOr(Unknown))
    ensures c.country == Some(r.country.ValueOr(Unknown))
    ensures c.kind == r.kind && c.title == r.title && c.releaseYear == r.releaseYear
    ensures c.rating == r.rating && c.duration == r.duration && c.listedIn == r.listedIn
  {
    ConvertRow(FillRow(r), parse)
  }

  /** Filling never touches `rating` or `duration`, so dropping the incomplete
      rows of the filled table is filling the complete rows. */
  lemma FillThenDrop(t: seq<Row>)
    ensures DropIncomplete(Fill(t)) == Fill(Keep(t, HasEssentials))
  {
    KeepMap(t, FillRow, HasEssentials, HasEssentials);
  }

  /** The cleaned table is, row for row and in order, the cleaned form of the
      raw rows that have both essential columns; every other raw row is dropped. */
  lemma CleanIsRowwise(t: seq<Row>, parse: string -> Option<Date>)
    ensures |Clean(t, parse)| == |Keep(t, HasEssentials)|
    ensures forall i :: 0 <= i < |Clean(t, parse)| ==>
      Clean(t, parse)[i] == CleanOne(Keep(t, HasEssentials)[i], parse)
  {
    FillThenDrop(t);
  }

  /** A raw `date_added` equal to the placeholder text cannot be told apart from
      a missing one: both rows clean to the same record. */
  lemma UnknownDateIsMissing(r: Row, parse: string -> Option<Date>)
    requires HasEssentials(r)
    ensures CleanOne(r.(dateAdded := Some(Unknown)), parse) == CleanOne(r.(dateAdded := None), parse)
    ensures CleanOne(r.(dateAdded := None), parse).yearAdded == None
  {
  }

  /** Filling an already filled row changes nothing. */
  lemma FillIdempotent(r: Row)
    ensures FillRow(FillRow(r)) == FillRow(r)
  {
  }

  /** A row without `date_added` is kept, with no date and no year. */
  lemma MissingDateKeepsRow(r: Row, parse: string -> Option<Date>)
    requires HasEssentials(r) && r.dateAdded.None?
    ensures Clean([r], parse) == [CleanOne(r, parse)]
    ensures CleanOne(r, parse).dateAdded.None? && CleanOne(r, parse).yearAdded.None?
  {
    CleanIsRowwise([r], parse);
    assert Keep([r], HasEssentials) == [r];
  }

  /** A row without `rating` or without `duration` disappears. */
  lemma MissingEssentialDropsRow(r: Row, parse: string -> Option<Date>)
    requires !HasEssentials(r)
    ensures Clean([r], parse) == []
  {
    CleanIsRowwise([r], parse);
    assert Keep([r], HasEssentials) == [];
  }

  /** A parsable date yields its calendar year. */
  lemma ParsedDateGivesYear(r: Row, parse: string -> Option<Date>, s: string, d: Date)
    requires HasEssentials(r) && r.dateAdded == Some(s) && s != Unknown && parse(s) == Some(d)
    ensures CleanOne(r, parse).dateAdded == Some(d)
    ensures CleanOne(r, parse).yearAdded == Some(d.year)
  {
  }
}
