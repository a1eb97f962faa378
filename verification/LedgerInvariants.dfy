/** What every statement keeps, and what every run from the empty tables therefore has. */
module LedgerInvariants {
  import opened Options
  import opened Sql
  import opened Table
  import opened Ledger
  import opened LedgerSums

  // ---- Keys, CHECKs and foreign keys ----

  predicate HeadersOk(headers: seq<Row<Header>>) {
    && Unique(headers, IdOf) && Unique(headers, NumberOf)
    && forall i | 0 <= i < |headers| :: HeaderOk(headers[i].cols)
  }

  predicate AccountsOk(accounts: seq<Row<Account>>) {
    Unique(accounts, IdOf) && Unique(accounts, CodeOf)
  }

  predicate LinesOk(lines: seq<Row<Line>>) {
    && Unique(lines, IdOf) && Unique(lines, LineKey)
    && forall i | 0 <= i < |lines| :: LineOk(lines[i].cols)
  }

  predicate LinesLinked(db: Db) {
    && (forall i | 0 <= i < |db.lines| :: Has(db.headers, db.lines[i].cols.entry))
    && (forall i | 0 <= i < |db.lines| :: Has(db.accounts, db.lines[i].cols.account))
  }

  predicate GlLinked(db: Db) {
    forall i | 0 <= i < |db.gl| :: Has(db.accounts, db.gl[i].account)
  }

  predicate Consistent(db: Db) {
    HeadersOk(db.headers) && LinesOk(db.lines) && AccountsOk(db.accounts) && LinesLinked(db) && GlLinked(db)
  }

  lemma {:induction false} HasSameIds<T>(t: seq<Row<T>>, u: seq<Row<T>>, id: Id)
    requires |t| <= |u| && forall i | 0 <= i < |t| :: t[i].id == u[i].id
    ensures Has(t, id) ==> Has(u, id)
  {
    if i :| 0 <= i < |t| && t[i].id == id {
      assert u[i].id == id;
    }
  }

  lemma {:induction false} UniqueSameIds<T>(t: seq<Row<T>>, u: seq<Row<T>>)
    requires |t| == |u| && (forall i | 0 <= i < |t| :: t[i].id == u[i].id) && Unique(t, IdOf)
    ensures Unique(u, IdOf)
  {
    forall i, j | 0 <= i < j < |u| ensures IdOf(u[i]) != IdOf(u[j]) {
      assert IdOf(t[i]) != IdOf(t[j]);
    }
  }

  lemma {:induction false} UniqueDrop<T(!new), K>(t: seq<Row<T>>, ids: seq<Id>, key: Row<T> -> K)
    requires Unique(t, key)
    ensures Unique(Drop(t, ids), key)
  {
    if |t| > 0 {
      var n := |t| - 1;
      UniquePrefix(t, key, n);
      UniqueDrop(t[..n], ids, key);
      var d := Drop(t[..n], ids);
      forall i | 0 <= i < |d| ensures key(d[i]) != key(t[n]) {
        assert d[i] in t[..n];
        var j :| 0 <= j < n && t[..n][j] == d[i];
        assert key(t[j]) != key(t[n]);
      }
      UniqueAppend(d, t[n], key);
    }
  }

  lemma {:induction false} UniqueDropEntries<K>(t: seq<Row<Line>>, entries: seq<Id>, key: Row<Line> -> K)
    requires Unique(t, key)
    ensures Unique(DropEntries(t, entries), key)
  {
    if |t| > 0 {
      var n := |t| - 1;
      UniquePrefix(t, key, n);
      UniqueDropEntries(t[..n], entries, key);
      var d := DropEntries(t[..n], entries);
      forall i | 0 <= i < |d| ensures key(d[i]) != key(t[n]) {
        assert d[i] in t[..n];
        var j :| 0 <= j < n && t[..n][j] == d[i];
        assert key(t[j]) != key(t[n]);
      }
      UniqueAppend(d, t[n], key);
    }
  }

  lemma {:induction false} HasDrop<T(!new)>(t: seq<Row<T>>, ids: seq<Id>, id: Id)
    ensures Has(Drop(t, ids), id) <==> Has(t, id) && id !in ids
  {
    var d := Drop(t, ids);
    if i :| 0 <= i < |t| && t[i].id == id && id !in ids {
      assert t[i] in d;
      var j :| 0 <= j < |d| && d[j] == t[i];
    }
    if i :| 0 <= i < |d| && d[i].id == id {
      assert d[i] in d;
      assert d[i] in t;
    }
  }

  /** Every version in an UPDATE ends up in the table, and every other row stays. */
  lemma {:induction false} PutAllCases<T>(t: seq<Row<T>>, rows: seq<Row<T>>, i: nat)
    requires i < |t| && Unique(rows, IdOf)
    ensures (PutAll(t, rows)[i] == t[i] && !Has(rows, t[i].id))
         || exists k | 0 <= k < |rows| :: PutAll(t, rows)[i] == rows[k]
  {
    if k :| 0 <= k < |rows| && rows[k].id == t[i].id {
      PutAllHit(t, rows, i, k);
    } else {
      PutAllMiss(t, rows, i);
    }
  }

  lemma {:induction false} ConsistentUpdateLines(db: Db, rows: seq<Row<Line>>)
    requires Consistent(db) && Accepts(db, UpdateLines(rows))
    ensures Consistent(Effect(db, UpdateLines(rows)))
  {
    hide HeadersOk, AccountsOk, LineOk, EntryMatches, Find, Posted, PutAll;
    var after := Effect(db, UpdateLines(rows));
    assert rows[..|rows|] == rows;
    UniqueSameIds(db.lines, after.lines);
    forall i | 0 <= i < |after.lines|
      ensures LineOk(after.lines[i].cols) && Has(after.headers, after.lines[i].cols.entry)
           && Has(after.accounts, after.lines[i].cols.account)
    {
      PutAllCases(db.lines, rows, i);
    }
  }

  lemma {:induction false} ConsistentDeleteLines(db: Db, ids: seq<Id>)
    requires Consistent(db)
    ensures Consistent(Effect(db, DeleteLines(ids)))
  {
    hide HeadersOk, AccountsOk, LineOk;
    var after := Effect(db, DeleteLines(ids));
    UniqueDrop(db.lines, ids, IdOf);
    UniqueDrop(db.lines, ids, LineKey);
    forall i | 0 <= i < |after.lines| ensures after.lines[i] in db.lines {
      assert after.lines[i] in after.lines;
    }
  }

  lemma {:induction false} ConsistentInsertLines(db: Db, rows: seq<Row<Line>>)
    requires Consistent(db) && Accepts(db, InsertLines(rows))
    ensures Consistent(Effect(db, InsertLines(rows)))
  {
    hide HeadersOk, AccountsOk, LineOk, EntryMatches, Posted;
  }

  lemma {:induction false} ConsistentInsertHeaders(db: Db, rows: seq<Row<Header>>)
    requires Consistent(db) && Accepts(db, InsertHeaders(rows))
    ensures Consistent(Effect(db, InsertHeaders(rows)))
  {
    var after := Effect(db, InsertHeaders(rows));
    forall i | 0 <= i < |db.lines| ensures Has(after.headers, after.lines[i].cols.entry) {
      HasSameIds(db.headers, after.headers, after.lines[i].cols.entry);
    }
  }

  lemma {:induction false} ConsistentUpdateHeaders(db: Db, rows: seq<Row<Header>>)
    requires Consistent(db) && Accepts(db, UpdateHeaders(rows))
    ensures Consistent(Effect(db, UpdateHeaders(rows)))
  {
    hide HeaderOk, LineOk, TotalsMatch, Find;
    var after := Effect(db, UpdateHeaders(rows));
    assert rows[..|rows|] == rows;
    UniqueSameIds(db.headers, after.headers);
    forall i | 0 <= i < |db.lines| ensures Has(after.headers, after.lines[i].cols.entry) {
      HasSameIds(db.headers, after.headers, after.lines[i].cols.entry);
    }
    forall i | 0 <= i < |after.headers| ensures HeaderOk(after.headers[i].cols) {
      PutAllCases(db.headers, rows, i);
    }
  }

  lemma {:induction false} HeadersOkDrop(headers: seq<Row<Header>>, ids: seq<Id>)
    requires HeadersOk(headers)
    ensures HeadersOk(Drop(headers, ids))
  {
    var after := Drop(headers, ids);
    UniqueDrop(headers, ids, IdOf);
    UniqueDrop(headers, ids, NumberOf);
    forall i | 0 <= i < |after| ensures HeaderOk(after[i].cols) {
      assert after[i] in after;
    }
  }

  lemma {:induction false} LinesOkDropEntries(lines: seq<Row<Line>>, entries: seq<Id>)
    requires LinesOk(lines)
    ensures LinesOk(DropEntries(lines, entries))
  {
    var after := DropEntries(lines, entries);
    UniqueDropEntries(lines, entries, IdOf);
    UniqueDropEntries(lines, entries, LineKey);
    forall i | 0 <= i < |after| ensures LineOk(after[i].cols) {
      assert after[i] in after;
    }
  }

  lemma {:induction false} ConsistentDeleteHeaders(db: Db, ids: seq<Id>)
    requires Consistent(db)
    ensures Consistent(Effect(db, DeleteHeaders(ids)))
  {
    hide HeadersOk, LinesOk, AccountsOk;
    var after := Effect(db, DeleteHeaders(ids));
    HeadersOkDrop(db.headers, ids);
    LinesOkDropEntries(db.lines, ids);
    forall i | 0 <= i < |after.lines|
      ensures Has(after.headers, after.lines[i].cols.entry) && Has(after.accounts, after.lines[i].cols.account)
    {
      assert after.lines[i] in after.lines;
      HasDrop(db.headers, ids, after.lines[i].cols.entry);
    }
  }

  lemma {:induction false} ConsistentAccounts(db: Db, s: Stmt)
    requires Consistent(db) && Accepts(db, s) && (s.InsertAccount? || s.UpdateAccount? || s.DeleteAccount?)
    ensures Consistent(Effect(db, s))
  {
    var after := Effect(db, s);
    if s.DeleteAccount? {
      UniqueDrop(db.accounts, [s.accountId], IdOf);
      UniqueDrop(db.accounts, [s.accountId], CodeOf);
      forall i | 0 <= i < |db.lines| ensures Has(after.accounts, db.lines[i].cols.account) {
        HasDrop(db.accounts, [s.accountId], db.lines[i].cols.account);
      }
      forall i | 0 <= i < |db.gl| ensures Has(after.accounts, db.gl[i].account) {
        HasDrop(db.accounts, [s.accountId], db.gl[i].account);
      }
    } else {
      if s.UpdateAccount? { UniqueSameIds(db.accounts, after.accounts); }
      forall i | 0 <= i < |db.lines| ensures Has(after.accounts, db.lines[i].cols.account) {
        HasSameIds(db.accounts, after.accounts, db.lines[i].cols.account);
      }
      forall i | 0 <= i < |db.gl| ensures Has(after.accounts, db.gl[i].account) {
        HasSameIds(db.accounts, after.accounts, db.gl[i].account);
      }
    }
  }
}
