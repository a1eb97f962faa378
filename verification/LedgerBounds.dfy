/** What holds in every run, line moves included: a header's totals bound its active sums. */
module LedgerBounds {
  import opened Options
  import opened Sql
  import opened Table
  import opened Ledger
  import opened LedgerSums
  import opened LedgerInvariants
  import opened LedgerPosting
  import opened LedgerAgreement
  import opened LedgerMoves

  predicate TotalsCover(h: Header, lines: seq<Row<Line>>, entry: Id) {
    TotalsSet(h) ==>
      && Sum(lines, entry, Debit, ActiveOnly) <= h.totalDebit.value
      && Sum(lines, entry, Credit, ActiveOnly) <= h.totalCredit.value
  }

  /** No header with both totals set has active lines that exceed them. */
  predicate TotalsBound(db: Db) {
    forall i | 0 <= i < |db.headers| :: TotalsCover(db.headers[i].cols, db.lines, db.headers[i].id)
  }

  lemma {:induction false} SumNotNegative(lines: seq<Row<Line>>, entry: Id, side: Side, scope: Scope)
    requires forall i | 0 <= i < |lines| :: LineOk(lines[i].cols)
    ensures Sum(lines, entry, side, scope) >= 0
  {
    if |lines| > 0 {
      SumNotNegative(lines[..|lines| - 1], entry, side, scope);
    }
  }

  lemma {:induction false} TakenIn(lines: seq<Row<Line>>, ids: seq<Id>)
    ensures forall l | l in Taken(lines, ids) :: l in lines
  {
    if |lines| > 0 {
      TakenIn(lines[..|lines| - 1], ids);
    }
  }

  /** A sum that does not grow stays covered. */
  lemma {:induction false} StaysCovered(h: Header, s: seq<Row<Line>>, t: seq<Row<Line>>, entry: Id)
    requires TotalsCover(h, s, entry)
    requires forall side :: Sum(t, entry, side, ActiveOnly) <= Sum(s, entry, side, ActiveOnly)
    ensures TotalsCover(h, t, entry)
  {
    assert Sum(t, entry, Debit, ActiveOnly) <= Sum(s, entry, Debit, ActiveOnly);
    assert Sum(t, entry, Credit, ActiveOnly) <= Sum(s, entry, Credit, ActiveOnly);
  }

  lemma {:induction false} CoveredAfterInsertLines(db: Db, rows: seq<Row<Line>>, i: nat)
    requires Consistent(db) && TotalsBound(db) && AcceptsInsertLines(db, rows) && i < |db.headers|
    ensures TotalsCover(db.headers[i].cols, db.lines + rows, db.headers[i].id)
  {
    hide Sum;
    var e := db.headers[i].id;
    FindUnique(db.headers, i);
    if k :| 0 <= k < |rows| && rows[k].cols.entry == e {
      assert EntryMatches(db.headers, db.lines + rows, rows[k].cols.entry);
    } else {
      forall side ensures Sum(db.lines + rows, e, side, ActiveOnly) == Sum(db.lines, e, side, ActiveOnly) {
        SumAppend(db.lines, rows, e, side, ActiveOnly);
        SumNoLines(rows, e, side, ActiveOnly);
      }
      StaysCovered(db.headers[i].cols, db.lines, db.lines + rows, e);
    }
  }

  /** Lines that leave an entry only lower its sums, because amounts are not negative. */
  lemma {:induction false} CoveredAfterUpdateLines(db: Db, rows: seq<Row<Line>>, i: nat)
    requires Consistent(db) && TotalsBound(db) && LineVersionsOk(db, rows) && i < |db.headers|
    ensures TotalsCover(db.headers[i].cols, PutAll(db.lines, rows), db.headers[i].id)
  {
    hide Sum, PutAll, Taken, LineOk, HeaderOk;
    var e := db.headers[i].id;
    FindUnique(db.headers, i);
    if k :| 0 <= k < |rows| && rows[k].cols.entry == e {
      assert EntryMatches(db.headers, PutAll(db.lines, rows), rows[k].cols.entry);
    } else {
      var taken := Taken(db.lines, Ids(rows));
      TakenIn(db.lines, Ids(rows));
      forall j | 0 <= j < |taken| ensures LineOk(taken[j].cols) {
        assert taken[j] in taken;
      }
      forall side ensures Sum(PutAll(db.lines, rows), e, side, ActiveOnly) <= Sum(db.lines, e, side, ActiveOnly) {
        SumLeft(db.lines, rows, e, side);
        SumNotNegative(taken, e, side, ActiveOnly);
      }
      StaysCovered(db.headers[i].cols, db.lines, PutAll(db.lines, rows), e);
    }
  }

  lemma {:induction false} CoveredAfterDeleteLines(db: Db, ids: seq<Id>, i: nat)
    requires Consistent(db) && TotalsBound(db) && AcceptsDeleteLines(db, ids) && i < |db.headers|
    ensures TotalsCover(db.headers[i].cols, Drop(db.lines, ids), db.headers[i].id)
  {
    hide Sum;
    var e := db.headers[i].id;
    FindUnique(db.headers, i);
    if j :| 0 <= j < |db.lines| && db.lines[j].id in ids && db.lines[j].cols.entry == e {
      assert EntryMatches(db.headers, Drop(db.lines, ids), db.lines[j].cols.entry);
    } else {
      forall side ensures Sum(Drop(db.lines, ids), e, side, ActiveOnly) == Sum(db.lines, e, side, ActiveOnly) {
        SumDrop(db.lines, ids, e, side, ActiveOnly);
      }
      StaysCovered(db.headers[i].cols, db.lines, Drop(db.lines, ids), e);
    }
  }

  lemma {:induction false} BoundAfterDeleteHeaders(db: Db, ids: seq<Id>)
    requires TotalsBound(db)
    ensures TotalsBound(Effect(db, DeleteHeaders(ids)))
  {
    hide Sum;
    var after := Effect(db, DeleteHeaders(ids));
    forall i | 0 <= i < |after.headers|
      ensures TotalsCover(after.headers[i].cols, after.lines, after.headers[i].id)
    {
      var e := after.headers[i].id;
      assert after.headers[i] in after.headers;
      var m :| 0 <= m < |db.headers| && db.headers[m] == after.headers[i];
      forall side ensures Sum(after.lines, e, side, ActiveOnly) == Sum(db.lines, e, side, ActiveOnly) {
        SumDropEntries(db.lines, ids, e, side, ActiveOnly);
      }
      StaysCovered(db.headers[m].cols, db.lines, after.lines, e);
    }
  }

  lemma {:induction false} BoundAfterHeaders(db: Db, s: Stmt)
    requires Consistent(db) && TotalsBound(db) && Accepts(db, s) && (s.InsertHeaders? || s.UpdateHeaders?)
    ensures TotalsBound(Effect(db, s))
  {
    hide Sum;
    var after := Effect(db, s);
    forall i | 0 <= i < |after.headers|
      ensures TotalsCover(after.headers[i].cols, db.lines, after.headers[i].id)
    {
      if s.UpdateHeaders? {
        PutAllCases(db.headers, s.headerVersions, i);
      } else if i >= |db.headers| {
        NewHeaderHasNoLines(db, s.newHeaders, i);
        SumNoLines(db.lines, after.headers[i].id, Debit, ActiveOnly);
        SumNoLines(db.lines, after.headers[i].id, Credit, ActiveOnly);
        assert HeaderOk(s.newHeaders[i - |db.headers|].cols);
      }
    }
  }

  lemma {:induction false} TotalsBoundNext(db: Db, s: Stmt)
    requires Consistent(db) && TotalsBound(db)
    ensures TotalsBound(Next(db, s))
  {
    hide TotalsCover;
    if Accepts(db, s) {
      match s
      case InsertHeaders(_) | UpdateHeaders(_) => BoundAfterHeaders(db, s);
      case DeleteHeaders(ids) => BoundAfterDeleteHeaders(db, ids);
      case InsertLines(rows) =>
        forall i | 0 <= i < |db.headers| { CoveredAfterInsertLines(db, rows, i); }
      case UpdateLines(rows) =>
        forall i | 0 <= i < |db.headers| { CoveredAfterUpdateLines(db, rows, i); }
      case DeleteLines(ids) =>
        forall i | 0 <= i < |db.headers| { CoveredAfterDeleteLines(db, ids, i); }
      case _ =>
    }
  }

  /** In every run of any statements, line moves included, the active sums of an entry never
      exceed totals that are both set. */
  lemma {:induction false} TotalsBoundRun(db: Db, stmts: seq<Stmt>)
    requires Consistent(db) && TotalsBound(db)
    ensures Consistent(Run(db, stmts)) && TotalsBound(Run(db, stmts))
  {
    ConsistentRun(db, stmts);
    if |stmts| > 0 {
      var n := |stmts| - 1;
      TotalsBoundRun(db, stmts[..n]);
      TotalsBoundNext(Run(db, stmts[..n]), stmts[n]);
    }
  }

  /** So the sums of an entry with both totals set always fit into numeric(14,2), unrounded. */
  lemma {:induction false} SumsFit(stmts: seq<Stmt>, i: nat, side: Side)
    requires i < |Run(EMPTY, stmts).headers| && TotalsSet(Run(EMPTY, stmts).headers[i].cols)
    ensures var db := Run(EMPTY, stmts);
            0 <= Sum(db.lines, db.headers[i].id, side, ActiveOnly) <= 99_999_999_999_999
  {
    TotalsBoundRun(EMPTY, stmts);
    var db := Run(EMPTY, stmts);
    SumNotNegative(db.lines, db.headers[i].id, side, ActiveOnly);
    assert HeaderOk(db.headers[i].cols);
    assert TotalsCover(db.headers[i].cols, db.lines, db.headers[i].id);
  }

  /** An entry whose active lines exceed numeric(14,2) on one side cannot be given both totals. */
  lemma {:induction false} BeyondRangeStaysUnset(db: Db, rows: seq<Row<Header>>, k: nat, side: Side)
    requires Accepts(db, UpdateHeaders(rows)) && k < |rows|
    requires Sum(db.lines, rows[k].id, side, ActiveOnly) > 99_999_999_999_999
    ensures !TotalsSet(rows[k].cols)
  {
    assert HeaderRowOk(db, rows[k]);
  }

  /** In every run such an entry has an unset total. */
  lemma {:induction false} BeyondRangeUnset(stmts: seq<Stmt>, i: nat, side: Side)
    requires i < |Run(EMPTY, stmts).headers|
    requires Sum(Run(EMPTY, stmts).lines, Run(EMPTY, stmts).headers[i].id, side, ActiveOnly) > 99_999_999_999_999
    ensures !TotalsSet(Run(EMPTY, stmts).headers[i].cols)
  {
    if TotalsSet(Run(EMPTY, stmts).headers[i].cols) {
      SumsFit(stmts, i, side);
    }
  }
}
