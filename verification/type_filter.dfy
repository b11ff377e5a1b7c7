/** The sidebar type filter. The selector offers "All" followed by the
    distinct values of the `type` column in order of appearance; a missing
    type is offered too, as the missing value. Any choice other than "All"
    keeps the rows whose type equals it; a missing value equals nothing, so
    choosing it keeps no row. */
module TypeFilter {
  import opened Wrappers
  import opened Titles
  import opened Seqs

  /** The `type` column of the table. */
  function Kinds(t: seq<CleanRow>): (k: seq<Option<string>>)
    ensures |k| == |t|
    ensures forall i :: 0 <= i < |t| ==> k[i] == t[i].kind
  {
    seq(|t|, i requires 0 <= i < |t| => t[i].kind)
  }

  /** The choices of the selector. */
  function SelectOptions(t: seq<CleanRow>): (o: seq<Option<string>>)
    ensures |o| >= 1 && o[0] == Some(All)
    ensures forall v :: v in o[1..] <==> exists i :: 0 <= i < |t| && t[i].kind == v
    ensures NoDuplicates(o[1..])
  {
    var k := Kinds(t);
    assert forall v :: v in k <==> exists i :: 0 <= i < |t| && t[i].kind == v by {
      forall v | v in k ensures exists i :: 0 <= i < |t| && t[i].kind == v {
        var i :| 0 <= i < |k| && k[i] == v;
      }
    }
    [Some(All)] + Distinct(k)
  }

  /** A row passes a selection other than "All" when its type equals it. */
  predicate Matches(sel: Option<string>, c: CleanRow) {
    sel.Some? && c.kind == sel
  }

  /** The table the rest of the dashboard sees. */
  function FilterType(t: seq<CleanRow>, sel: Option<string>): (r: seq<CleanRow>)
    ensures sel == Some(All) ==> r == t
    ensures sel != Some(All) ==> forall i :: 0 <= i < |r| ==> r[i].kind.Some? && r[i].kind == sel
    ensures sel != Some(All) ==>
      forall c :: multiset(r)[c] == if c.kind == sel && sel.Some? then multiset(t)[c] else 0
    ensures IsSubsequence(r, t)
  {
    if sel == Some(All) then
      SubsequenceRefl(t);
      t
    else
      Keep(t, c => Matches(sel, c))
  }

  /** Choosing a type no row has yields the empty table. */
  lemma AbsentTypeSelectsNothing(t: seq<CleanRow>, sel: Option<string>)
    requires sel != Some(All)
    requires forall i :: 0 <= i < |t| ==> t[i].kind != sel
    ensures FilterType(t, sel) == []
  {
    KeepNone(t, c => Matches(sel, c));
  }

  /** Two different selections keep disjoint sets of rows. */
  lemma SelectionsDisjoint(t: seq<CleanRow>, a: string, b: string)
    requires a != All && b != All && a != b
    ensures forall c :: c in FilterType(t, Some(a)) ==> c !in FilterType(t, Some(b))
  {
    forall c | c in FilterType(t, Some(a))
      ensures c !in FilterType(t, Some(b))
    {
      assert multiset(FilterType(t, Some(a)))[c] > 0;
    }
  }
}
