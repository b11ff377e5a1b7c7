/** The duration step: the table is split into the "Movie" rows and the
    "TV Show" rows, and from each row's `duration` text the first run of
    decimal digits is read as a number (`str.extract('(\d+)')`), or nothing
    when the text holds no digit. */
module Durations {
  import opened Wrappers
  import opened Titles
  import opened Seqs

  predicate IsDigit(c: char) {
    '0' <= c <= '9'
  }

  predicate AllDigits(s: string) {
    forall k :: 0 <= k < |s| ==> IsDigit(s[k])
  }

  predicate NoDigit(s: string) {
    forall k :: 0 <= k < |s| ==> !IsDigit(s[k])
  }

  /** Decimal value of a digit string, most significant digit first. */
  function DigitsValue(ds: string): nat
    requires AllDigits(ds)
  {
    if |ds| == 0 then 0
    else DigitsValue(ds[..|ds| - 1]) * 10 + (ds[|ds| - 1] as int - '0' as int)
  }

  /** The decimal digits of `n`, without leading zeros ("0" for zero). */
  function Decimal(n: nat): (ds: string)
    ensures |ds| >= 1 && AllDigits(ds)
    ensures |ds| > 1 ==> ds[0] != '0'
  {
    var last := ['0' + ((n % 10) as char)];
    if n < 10 then last else Decimal(n / 10) + last
  }

  /** Reading the digits of a number gives the number back. */
  lemma {:induction false} DecimalRoundTrip(n: nat)
    ensures DigitsValue(Decimal(n)) == n
  {
    var ds := Decimal(n);
    if n >= 10 {
      DecimalRoundTrip(n / 10);
      assert ds[..|ds| - 1] == Decimal(n / 10);
    }
  }

  /** `s[i..j]` is the first maximal run of digits in `s`. */
  predicate IsFirstRun(s: string, i: nat, j: nat) {
    && i < j <= |s|
    && NoDigit(s[..i])
    && AllDigits(s[i..j])
    && (j == |s| || !IsDigit(s[j]))
  }

  /** Position of the first digit, or `|s|` when there is none. */
  function FirstDigit(s: string): (i: nat)
    ensures i <= |s|
    ensures NoDigit(s[..i])
    ensures i < |s| ==> IsDigit(s[i])
  {
    if |s| == 0 || IsDigit(s[0]) then 0
    else
      var i := 1 + FirstDigit(s[1..]);
      assert s[..i] == [s[0]] + s[1..][..i - 1];
      i
  }

  /** End of the run of digits that starts at `i`. */
  function RunEnd(s: string, i: nat): (j: nat)
    requires i <= |s|
    ensures i <= j <= |s|
    ensures AllDigits(s[i..j])
    ensures j < |s| ==> !IsDigit(s[j])
    decreases |s| - i
  {
    if i < |s| && IsDigit(s[i]) then
      RunEnd(s, i + 1)
    else i
  }

  /** The first run of digits, when there is one, is the run at `FirstDigit`. */
  lemma FirstRunUnique(s: string, i: nat, j: nat)
    requires IsFirstRun(s, i, j)
    ensures i == FirstDigit(s) && j == RunEnd(s, i)
  {
    var e := RunEnd(s, i);
    assert forall k :: i <= k < j ==> IsDigit(s[k]) by {
      forall k | i <= k < j ensures IsDigit(s[k]) {
        assert s[i..j][k - i] == s[k];
      }
    }
    assert forall k :: i <= k < e ==> IsDigit(s[k]) by {
      forall k | i <= k < e ensures IsDigit(s[k]) {
        assert s[i..e][k - i] == s[k];
      }
    }
  }

  /** `str.extract('(\d+)')` on one text, as a number. */
  function ExtractNumber(s: string): (v: Option<nat>)
    ensures v.None? <==> NoDigit(s)
    ensures forall i: nat, j: nat :: IsFirstRun(s, i, j) ==> v == Some(DigitsValue(s[i..j]))
    ensures v.Some? ==> exists i: nat, j: nat :: IsFirstRun(s, i, j)
  {
    var i := FirstDigit(s);
    if i == |s| then
      assert s[..i] == s;
      None
    else
      var j := RunEnd(s, i + 1);
      assert AllDigits(s[i..j]) by {
        forall k | 0 <= k < j - i ensures IsDigit(s[i..j][k]) {
          if k > 0 { assert s[i..j][k] == s[i + 1..j][k - 1]; }
        }
      }
      assert IsFirstRun(s, i, j);
      assert forall i': nat, j': nat :: IsFirstRun(s, i', j') ==> i' == i && j' == j by {
        forall i': nat, j': nat | IsFirstRun(s, i', j') ensures i' == i && j' == j {
          FirstRunUnique(s, i', j');
          FirstRunUnique(s, i, j);
        }
      }
      assert !NoDigit(s);
      Some(DigitsValue(s[i..j]))
  }

  /** A text that starts with a number followed by a non-digit, such as
      "90 min" or "3 Seasons", yields that number. */
  lemma LeadingNumber(n: nat, unit: string)
    requires |unit| == 0 || !IsDigit(unit[0])
    ensures ExtractNumber(Decimal(n) + unit) == Some(n)
  {
    var ds := Decimal(n);
    var s := ds + unit;
    assert s[..0] == [];
    assert s[0..|ds|] == ds;
    assert IsFirstRun(s, 0, |ds|);
    DecimalRoundTrip(n);
  }

  /** The number need not be at the start: digits after a digit-free prefix are found. */
  lemma NumberAfterPrefix(prefix: string, n: nat, unit: string)
    requires NoDigit(prefix)
    requires |unit| == 0 || !IsDigit(unit[0])
    ensures ExtractNumber(prefix + Decimal(n) + unit) == Some(n)
  {
    var ds := Decimal(n);
    var s := prefix + ds + unit;
    assert s[..|prefix|] == prefix;
    assert s[|prefix|..|prefix| + |ds|] == ds;
    assert IsFirstRun(s, |prefix|, |prefix| + |ds|);
    DecimalRoundTrip(n);
  }

  /** The numeric duration of a row; a missing duration gives nothing. */
  function DurationNumber(d: Option<string>): (v: Option<nat>)
    ensures d.None? ==> v.None?
    ensures d.Some? ==> (v.None? <==> NoDigit(d.value))
    ensures d.Some? ==> v == ExtractNumber(d.value)
    ensures forall i: nat, j: nat :: d.Some? && IsFirstRun(d.value, i, j) ==> v == Some(DigitsValue(d.value[i..j]))
  {
    match d
    case None => None
    case Some(s) => ExtractNumber(s)
  }

  predicate IsMovie(c: CleanRow) {
    c.kind == Some(Movie)
  }

  predicate IsTvShow(c: CleanRow) {
    c.kind == Some(TvShow)
  }

  /** `df[df['type'] == 'Movie']`. */
  function Movies(t: seq<CleanRow>): (m: seq<CleanRow>)
    ensures forall i :: 0 <= i < |m| ==> m[i].kind == Some(Movie)
    ensures forall c :: multiset(m)[c] == if IsMovie(c) then multiset(t)[c] else 0
    ensures IsSubsequence(m, t)
  {
    Keep(t, IsMovie)
  }

  /** `df[df['type'] == 'TV Show']`. */
  function TvShows(t: seq<CleanRow>): (v: seq<CleanRow>)
    ensures forall i :: 0 <= i < |v| ==> v[i].kind == Some(TvShow)
    ensures forall c :: multiset(v)[c] == if IsTvShow(c) then multiset(t)[c] else 0
    ensures IsSubsequence(v, t)
  {
    Keep(t, IsTvShow)
  }

  /** The `duration_int` column of a partition, one entry per row, in row order. */
  function DurationColumn(rows: seq<CleanRow>): (col: seq<Option<nat>>)
    ensures |col| == |rows|
    ensures forall i :: 0 <= i < |rows| ==> col[i] == DurationNumber(rows[i].duration)
  {
    seq(|rows|, i requires 0 <= i < |rows| => DurationNumber(rows[i].duration))
  }

  /** No row is in both partitions, and a row of any other type is in neither. */
  lemma PartitionsDisjoint(t: seq<CleanRow>, c: CleanRow)
    ensures !(c in Movies(t) && c in TvShows(t))
    ensures c.kind != Some(Movie) && c.kind != Some(TvShow) ==> c !in Movies(t) && c !in TvShows(t)
  {
    if c in Movies(t) {
      assert multiset(Movies(t))[c] > 0;
    }
    if c in TvShows(t) {
      assert multiset(TvShows(t))[c] > 0;
    }
  }
}
