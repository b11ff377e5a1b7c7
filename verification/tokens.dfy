/** Tokenising of the comma-separated list columns (`country`, `listed_in`):
    each cell is split on ',' with Python's `str.split(',')`, every piece is
    passed through `str.strip()`, and the per-row lists are flattened in row
    order. Missing cells are skipped (`dropna`). */
module Tokens {
  import opened Wrappers
  import opened Seqs

  /** The characters Python's `str.isspace()` accepts, which `str.strip()` removes. */
  predicate IsSpace(c: char) {
    || c == ' '
    || ('\t' <= c <= '\r')
    || ('\U{1C}' <= c <= '\U{1F}')
    || c == '\U{85}' || c == '\U{A0}' || c == '\U{1680}'
    || ('\U{2000}' <= c <= '\U{200A}')
    || c == '\U{2028}' || c == '\U{2029}' || c == '\U{202F}' || c == '\U{205F}'
    || c == '\U{3000}'
  }

  predicate AllSpace(s: string) {
    forall k :: 0 <= k < |s| ==> IsSpace(s[k])
  }

  /** No whitespace at either end. */
  predicate Trimmed(s: string) {
    |s| == 0 || (!IsSpace(s[0]) && !IsSpace(s[|s| - 1]))
  }

  /** Number of separators in a cell. */
  function Commas(s: string): nat {
    multiset(s)[',']
  }

  /** The pieces glued back together with ',' between them. */
  function Join(parts: seq<string>): string
    requires |parts| >= 1
  {
    if |parts| == 1 then parts[0] else parts[0] + "," + Join(parts[1..])
  }

  /** `s.split(',')`: one more piece than there are commas, and none holding a
      comma. An empty cell gives one empty piece. */
  function Split(s: string): (r: seq<string>)
    ensures |r| == Commas(s) + 1
    ensures forall k :: 0 <= k < |r| ==> ',' !in r[k]
    decreases |s|
  {
    if ',' !in s then [s]
    else
      var i := FirstIndex(s, ',');
      assert s == s[..i] + [','] + s[i + 1..];
      assert ',' !in s[..i];
      [s[..i]] + Split(s[i + 1..])
  }

  /** Joining the pieces with ',' gives the cell back. */
  lemma {:induction false} JoinSplit(s: string)
    ensures Join(Split(s)) == s
    decreases |s|
  {
    if ',' in s {
      var i := FirstIndex(s, ',');
      JoinSplit(s[i + 1..]);
      assert s == s[..i] + "," + s[i + 1..];
    }
  }

  /** Splitting `p + "," + s`, where `p` holds no comma, gives `p` then the pieces of `s`. */
  lemma SplitPrefix(p: string, s: string)
    requires ',' !in p
    ensures Split(p + "," + s) == [p] + Split(s)
  {
    var t := p + "," + s;
    assert t[|p|] == ',';
    assert FirstIndex(t, ',') == |p|;
    assert t[..|p|] == p && t[|p| + 1..] == s;
  }

  /** Splitting pieces that hold no comma after joining them gives the pieces back. */
  lemma {:induction false} SplitJoin(parts: seq<string>)
    requires |parts| >= 1
    requires forall k :: 0 <= k < |parts| ==> ',' !in parts[k]
    ensures Split(Join(parts)) == parts
  {
    if |parts| > 1 {
      var tail := Join(parts[1..]);
      assert Join(parts) == parts[0] + "," + tail;
      SplitJoin(parts[1..]);
      SplitPrefix(parts[0], tail);
      assert parts == [parts[0]] + parts[1..];
    } else {
      assert Join(parts) == parts[0];
    }
  }

  /** Number of whitespace characters at the front of `s`. */
  function LeadingSpaces(s: string): (n: nat)
    ensures n <= |s|
    ensures AllSpace(s[..n])
    ensures n < |s| ==> !IsSpace(s[n])
  {
    if |s| > 0 && IsSpace(s[0]) then 1 + LeadingSpaces(s[1..]) else 0
  }

  /** Drops whitespace at the end. */
  function RStrip(s: string): (r: string)
    ensures |r| <= |s| && r == s[..|r|]
    ensures AllSpace(s[|r|..])
    ensures |r| > 0 ==> !IsSpace(r[|r| - 1])
  {
    if |s| > 0 && IsSpace(s[|s| - 1]) then
      var r := RStrip(s[..|s| - 1]);
      assert s[|r|..] == s[..|s| - 1][|r|..] + [s[|s| - 1]];
      r
    else s
  }

  /** `str.strip()`: the part of `s` between its leading and trailing whitespace. */
  function Strip(s: string): (r: string)
    ensures Trimmed(r)
    ensures LeadingSpaces(s) + |r| <= |s|
    ensures r == s[LeadingSpaces(s)..LeadingSpaces(s) + |r|]
    ensures AllSpace(s[LeadingSpaces(s) + |r|..])
  {
    var n := LeadingSpaces(s);
    var r := RStrip(s[n..]);
    assert |r| > 0 ==> r[0] == s[n];
    r
  }

  /** Stripping removes characters and adds none. */
  lemma StripKeepsOut(s: string, c: char)
    requires c !in s
    ensures c !in Strip(s)
  {
    var n := LeadingSpaces(s);
    var t := Strip(s);
    forall i | 0 <= i < |t| ensures t[i] != c {
      assert t[i] == s[n + i];
    }
  }

  /** The stripped pieces of one cell. */
  function CellTokens(s: string): (r: seq<string>)
    ensures |r| == Commas(s) + 1
    ensures forall k :: 0 <= k < |r| ==> Trimmed(r[k]) && ',' !in r[k]
  {
    var parts := Split(s);
    var r := seq(|parts|, k requires 0 <= k < |parts| => Strip(parts[k]));
    assert forall k :: 0 <= k < |r| ==> ',' !in r[k] by {
      forall k | 0 <= k < |r| ensures ',' !in r[k] {
        StripKeepsOut(parts[k], ',');
      }
    }
    r
  }

  /** The tokens of a column: missing cells are skipped and the per-row lists
      are concatenated in row order. */
  function ColumnTokens(col: seq<Option<string>>): (r: seq<string>)
    ensures forall k :: 0 <= k < |r| ==> Trimmed(r[k]) && ',' !in r[k]
  {
    if |col| == 0 then []
    else
      var first := if col[0].Some? then CellTokens(col[0].value) else [];
      first + ColumnTokens(col[1..])
  }

  /** Tokenising a table is tokenising its parts and concatenating. */
  lemma {:induction false} ColumnTokensAppend(a: seq<Option<string>>, b: seq<Option<string>>)
    ensures ColumnTokens(a + b) == ColumnTokens(a) + ColumnTokens(b)
  {
    if |a| == 0 {
      assert a + b == b;
    } else {
      assert (a + b)[1..] == a[1..] + b;
      ColumnTokensAppend(a[1..], b);
    }
  }

  /** How often a token occurs in a column is the sum over the rows. */
  lemma ColumnTokensCount(a: seq<Option<string>>, b: seq<Option<string>>, x: string)
    ensures multiset(ColumnTokens(a + b))[x] ==
      multiset(ColumnTokens(a))[x] + multiset(ColumnTokens(b))[x]
  {
    ColumnTokensAppend(a, b);
  }

  /** Leading whitespace followed by text that does not start with whitespace. */
  lemma {:induction false} LeadingSpacesOf(ws: string, b: string)
    requires AllSpace(ws)
    requires |b| == 0 || !IsSpace(b[0])
    ensures LeadingSpaces(ws + b) == |ws|
  {
    if |ws| > 0 {
      assert (ws + b)[1..] == ws[1..] + b;
      LeadingSpacesOf(ws[1..], b);
    } else {
      assert ws + b == b;
    }
  }

  /** Stripping whitespace-padded trimmed text gives the text. */
  lemma StripPadded(ws: string, b: string)
    requires AllSpace(ws)
    requires Trimmed(b)
    ensures Strip(ws + b) == b
  {
    LeadingSpacesOf(ws, b);
    assert (ws + b)[|ws|..] == b;
  }

  /** Stripping twice is stripping once. */
  lemma StripIdempotent(s: string)
    ensures Strip(Strip(s)) == Strip(s)
  {
    StripPadded("", Strip(s));
    assert "" + Strip(s) == Strip(s);
  }

  /** The tokens of a cell are its comma-separated pieces, each stripped. */
  lemma CellTokensOfJoin(parts: seq<string>)
    requires |parts| >= 1
    requires forall k :: 0 <= k < |parts| ==> ',' !in parts[k]
    ensures |CellTokens(Join(parts))| == |parts|
    ensures forall k :: 0 <= k < |parts| ==> CellTokens(Join(parts))[k] == Strip(parts[k])
  {
    SplitJoin(parts);
  }

  /** A trimmed cell without a comma is a single token. */
  lemma SingleName(a: string)
    requires Trimmed(a) && ',' !in a
    ensures CellTokens(a) == [a]
  {
    StripPadded("", a);
    assert "" + a == a;
  }

  /** "a, b" with trimmed comma-free names gives exactly the two names, so each
      of them is counted once. */
  lemma TwoNames(a: string, b: string)
    requires Trimmed(a) && Trimmed(b) && ',' !in a && ',' !in b
    ensures CellTokens(a + ", " + b) == [a, b]
  {
    SpaceAfterComma(a, b);
    assert a + ", " + b == a + "," + (" " + b);
  }

  /** The blank after the comma is stripped from the second token. */
  lemma SpaceAfterComma(a: string, b: string)
    requires Trimmed(a) && Trimmed(b) && ',' !in a && ',' !in b
    ensures CellTokens(a + "," + (" " + b)) == [a, b]
  {
    var c := " " + b;
    assert ',' !in c;
    TwoPieces(a, c);
    StripPadded("", a);
    assert "" + a == a;
    StripPadded(" ", b);
  }

  /** The tokens of "x,y" are x and y, stripped. */
  lemma TwoPieces(x: string, y: string)
    requires ',' !in x && ',' !in y
    ensures CellTokens(x + "," + y) == [Strip(x), Strip(y)]
  {
    var parts := [x, y];
    assert Join(parts) == x + "," + y by {
      assert parts[1..] == [y];
    }
    CellTokensOfJoin(parts);
  }

  /** A trailing comma yields an empty token, which is counted like any other. */
  lemma TrailingComma(a: string)
    requires Trimmed(a) && ',' !in a
    ensures CellTokens(a + ",") == [a, ""]
  {
    assert a + "," == a + "," + "";
    TwoPieces(a, "");
    StripPadded("", a);
    assert "" + a == a;
    StripPadded("", "");
  }
}
