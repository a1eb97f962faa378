/** How the sums over an entry's lines react to changes of the lines table. */
module LedgerSums {
  import opened Options
  import opened Sql
  import opened Table
  import opened Ledger

  lemma {:induction false} SumSnoc(s: seq<Row<Line>>, l: Row<Line>, entry: Id, side: Side, scope: Scope)
    ensures Sum(s + [l], entry, side, scope) == Sum(s, entry, side, scope) + Weigh(l.cols, entry, side, scope)
  {
    assert (s + [l])[..|s|] == s;
  }

  lemma {:induction false} SumSame(s: seq<Row<Line>>, t: seq<Row<Line>>, entry: Id, side: Side, scope: Scope)
    requires |s| == |t|
    requires forall i | 0 <= i < |s| ::
               Weigh(s[i].cols, entry, side, scope) == Weigh(t[i].cols, entry, side, scope)
    ensures Sum(s, entry, side, scope) == Sum(t, entry, side, scope)
  {
    if |s| > 0 {
      SumSame(s[..|s| - 1], t[..|t| - 1], entry, side, scope);
    }
  }

  lemma {:induction false} SumAppend(s: seq<Row<Line>>, t: seq<Row<Line>>, entry: Id, side: Side, scope: Scope)
    ensures Sum(s + t, entry, side, scope) == Sum(s, entry, side, scope) + Sum(t, entry, side, scope)
  {
    if |t| == 0 {
      assert s + t == s;
    } else {
      var n := |t| - 1;
      assert (s + t)[..|s + t| - 1] == s + t[..n];
      SumAppend(s, t[..n], entry, side, scope);
    }
  }

  lemma {:induction false} SumNoLines(s: seq<Row<Line>>, entry: Id, side: Side, scope: Scope)
    requires !HasLines(s, entry)
    ensures Sum(s, entry, side, scope) == 0
  {
    if |s| > 0 {
      var n := |s| - 1;
      assert forall i | 0 <= i < n :: s[..n][i] == s[i];
      SumNoLines(s[..n], entry, side, scope);
    }
  }

  /** Removing lines of other entries changes no sum of this one. */
  lemma {:induction false} SumDrop(s: seq<Row<Line>>, ids: seq<Id>, entry: Id, side: Side, scope: Scope)
    requires forall i | 0 <= i < |s| && s[i].id in ids :: s[i].cols.entry != entry
    ensures Sum(Drop(s, ids), entry, side, scope) == Sum(s, entry, side, scope)
  {
    if |s| > 0 {
      var n := |s| - 1;
      forall i | 0 <= i < n && s[..n][i].id in ids ensures s[..n][i].cols.entry != entry {
        assert s[..n][i] == s[i];
      }
      SumDrop(s[..n], ids, entry, side, scope);
      SumSnoc(Drop(s[..n], ids), s[n], entry, side, scope);
    }
  }

  lemma {:induction false} SumDropEntries(s: seq<Row<Line>>, entries: seq<Id>, entry: Id, side: Side, scope: Scope)
    requires entry !in entries
    ensures Sum(DropEntries(s, entries), entry, side, scope) == Sum(s, entry, side, scope)
  {
    if |s| > 0 {
      var n := |s| - 1;
      SumDropEntries(s[..n], entries, entry, side, scope);
      SumSnoc(DropEntries(s[..n], entries), s[n], entry, side, scope);
    }
  }

  lemma {:induction false} SumRemove(t: seq<Row<Line>>, k: nat, entry: Id, side: Side, scope: Scope)
    requires k < |t|
    ensures Sum(t, entry, side, scope)
         == Sum(t[..k] + t[k + 1..], entry, side, scope) + Weigh(t[k].cols, entry, side, scope)
  {
    assert t == (t[..k] + [t[k]]) + t[k + 1..];
    SumAppend(t[..k] + [t[k]], t[k + 1..], entry, side, scope);
    SumSnoc(t[..k], t[k], entry, side, scope);
    SumAppend(t[..k], t[k + 1..], entry, side, scope);
  }

  /** A sum does not depend on the order of the lines. */
  lemma {:induction false} SumPermuted(s: seq<Row<Line>>, t: seq<Row<Line>>, entry: Id, side: Side, scope: Scope)
    requires multiset(s) == multiset(t)
    ensures Sum(s, entry, side, scope) == Sum(t, entry, side, scope)
    decreases |s|
  {
    if |s| == 0 {
      assert |multiset(t)| == 0;
    } else {
      var n := |s| - 1;
      assert s[n] in multiset(s);
      assert s[n] in multiset(t);
      var k :| 0 <= k < |t| && t[k] == s[n];
      RemoveOne(s, n);
      RemoveOne(t, k);
      SumPermuted(s[..n] + s[n + 1..], t[..k] + t[k + 1..], entry, side, scope);
      SumRemove(s, n, entry, side, scope);
      SumRemove(t, k, entry, side, scope);
    }
  }

  lemma {:induction false} RemoveOne<T>(t: seq<T>, k: nat)
    requires k < |t|
    ensures multiset(t[..k] + t[k + 1..]) == multiset(t) - multiset{t[k]}
  {
    assert t == t[..k] + [t[k]] + t[k + 1..];
  }
}
