/** Agreement of headers with their active lines, and the statements that keep it by their form. */
module LedgerAgreement {
  import opened Options
  import opened Sql
  import opened Table
  import opened Ledger
  import opened LedgerSums
  import opened LedgerInvariants

  /** Every header with both totals set has no lines, or active lines that add up to them. */
  predicate TotalsAgree(db: Db) {
    forall i | 0 <= i < |db.headers| ::
      HasLines(db.lines, db.headers[i].id) ==> TotalsMatch(db.headers[i].cols, db.lines, db.headers[i].id)
  }

  lemma {:induction false} SumsSame(s: seq<Row<Line>>, t: seq<Row<Line>>, h: Header, entry: Id)
    requires forall side :: Sum(s, entry, side, ActiveOnly) == Sum(t, entry, side, ActiveOnly)
    ensures TotalsMatch(h, s, entry) <==> TotalsMatch(h, t, entry)
  {
    assert Sum(s, entry, Debit, ActiveOnly) == Sum(t, entry, Debit, ActiveOnly);
    assert Sum(s, entry, Credit, ActiveOnly) == Sum(t, entry, Credit, ActiveOnly);
  }

  predicate Entered(rows: seq<Row<Line>>, entry: Id) {
    exists k | 0 <= k < |rows| :: rows[k].cols.entry == entry
  }

  lemma {:induction false} AgreeAfterInsertLines(db: Db, rows: seq<Row<Line>>, i: nat)
    requires Consistent(db) && TotalsAgree(db) && AcceptsInsertLines(db, rows) && i < |db.headers|
    ensures HasLines(db.lines + rows, db.headers[i].id) ==>
              TotalsMatch(db.headers[i].cols, db.lines + rows, db.headers[i].id)
  {
    var e := db.headers[i].id;
    FindUnique(db.headers, i);
    if k :| 0 <= k < |rows| && rows[k].cols.entry == e {
      assert EntryMatches(db.headers, db.lines + rows, rows[k].cols.entry);
    } else {
      forall side ensures Sum(db.lines + rows, e, side, ActiveOnly) == Sum(db.lines, e, side, ActiveOnly) {
        SumAppend(db.lines, rows, e, side, ActiveOnly);
        SumNoLines(rows, e, side, ActiveOnly);
      }
      SumsSame(db.lines, db.lines + rows, db.headers[i].cols, e);
    }
  }

  lemma {:induction false} AgreeAfterDeleteLines(db: Db, ids: seq<Id>, i: nat)
    requires Consistent(db) && TotalsAgree(db) && AcceptsDeleteLines(db, ids) && i < |db.headers|
    ensures HasLines(Drop(db.lines, ids), db.headers[i].id) ==>
              TotalsMatch(db.headers[i].cols, Drop(db.lines, ids), db.headers[i].id)
  {
    var e := db.headers[i].id;
    var final := Drop(db.lines, ids);
    FindUnique(db.headers, i);
    if j :| 0 <= j < |db.lines| && db.lines[j].id in ids && db.lines[j].cols.entry == e {
      assert EntryMatches(db.headers, final, db.lines[j].cols.entry);
    } else {
      forall side ensures Sum(final, e, side, ActiveOnly) == Sum(db.lines, e, side, ActiveOnly) {
        SumDrop(db.lines, ids, e, side, ActiveOnly);
      }
      SumsSame(db.lines, final, db.headers[i].cols, e);
      if j :| 0 <= j < |final| && final[j].cols.entry == e {
        assert final[j] in final;
        assert HasLines(db.lines, e);
      }
    }
  }

  lemma {:induction false} AgreeAfterDeleteHeaders(db: Db, ids: seq<Id>)
    requires Consistent(db) && TotalsAgree(db)
    ensures TotalsAgree(Effect(db, DeleteHeaders(ids)))
  {
    var after := Effect(db, DeleteHeaders(ids));
    forall i | 0 <= i < |after.headers| && HasLines(after.lines, after.headers[i].id)
      ensures TotalsMatch(after.headers[i].cols, after.lines, after.headers[i].id)
    {
      var e := after.headers[i].id;
      assert after.headers[i] in after.headers;
      var m :| 0 <= m < |db.headers| && db.headers[m] == after.headers[i];
      var j :| 0 <= j < |after.lines| && after.lines[j].cols.entry == e;
      assert after.lines[j] in after.lines;
      assert HasLines(db.lines, e);
      forall side ensures Sum(after.lines, e, side, ActiveOnly) == Sum(db.lines, e, side, ActiveOnly) {
        SumDropEntries(db.lines, ids, e, side, ActiveOnly);
      }
      SumsSame(db.lines, after.lines, db.headers[m].cols, e);
    }
  }

  lemma {:induction false} NewHeaderHasNoLines(db: Db, rows: seq<Row<Header>>, i: nat)
    requires Consistent(db) && Unique(db.headers + rows, IdOf) && |db.headers| <= i < |db.headers + rows|
    ensures !HasLines(db.lines, (db.headers + rows)[i].id)
  {
    var all := db.headers + rows;
    forall j | 0 <= j < |db.lines| ensures db.lines[j].cols.entry != all[i].id {
      assert Has(db.headers, db.lines[j].cols.entry);
      var m :| 0 <= m < |db.headers| && db.headers[m].id == db.lines[j].cols.entry;
      assert IdOf(all[m]) != IdOf(all[i]);
    }
  }

  lemma {:induction false} AgreeAfterHeaders(db: Db, s: Stmt)
    requires Consistent(db) && TotalsAgree(db) && Accepts(db, s) && (s.InsertHeaders? || s.UpdateHeaders?)
    ensures TotalsAgree(Effect(db, s))
  {
    var after := Effect(db, s);
    forall i | 0 <= i < |after.headers| && HasLines(db.lines, after.headers[i].id)
      ensures TotalsMatch(after.headers[i].cols, db.lines, after.headers[i].id)
    {
      if s.UpdateHeaders? {
        PutAllCases(db.headers, s.headerVersions, i);
      } else if i >= |db.headers| {
        NewHeaderHasNoLines(db, s.newHeaders, i);
      }
    }
  }
}
