/** What the service's own three queries can do: CreateJournalEntry, CreateJournalLine and
    PostJournalToGL insert one row, insert one active row, and post. */
module LedgerApi {
  import opened Options
  import opened Sql
  import opened Table
  import opened Ledger
  import opened LedgerSums
  import opened LedgerInvariants
  import opened LedgerPosting
  import opened LedgerAgreement

  predicate IsApiCall(s: Stmt) {
    match s
    case InsertHeaders(rows) => |rows| == 1
    case InsertLines(rows) => |rows| == 1 && rows[0].cols.active == Some(true)
    case PostToGl(_, _) => true
    case _ => false
  }

  lemma {:induction false} LoneLineMismatch(db: Db, l: Row<Line>, h: Header)
    requires HeaderOk(h) && TotalsSet(h) && LineOk(l.cols)
    requires l.cols.active == Some(true) && !HasLines(db.lines, l.cols.entry)
    ensures !TotalsMatch(h, db.lines + [l], l.cols.entry)
  {
    var e := l.cols.entry;
    SumSnoc(db.lines, l, e, Debit, ActiveOnly);
    SumSnoc(db.lines, l, e, Credit, ActiveOnly);
    SumNoLines(db.lines, e, Debit, ActiveOnly);
    SumNoLines(db.lines, e, Credit, ActiveOnly);
  }

  /** A single active line can never be the first line of an entry with both totals set: the
      CHECK makes it one-sided and the totals trigger wants equal sides. */
  lemma {:induction false} SingleLineRefused(db: Db, l: Row<Line>)
    requires Consistent(db) && l.cols.active == Some(true) && !HasLines(db.lines, l.cols.entry)
    requires Find(db.headers, l.cols.entry).Some? && TotalsSet(Find(db.headers, l.cols.entry).value)
    ensures !Accepts(db, InsertLines([l]))
  {
    hide Sum, TotalsMatch, LineOk, HeaderOk, Unique;
    var e := l.cols.entry;
    var i :| 0 <= i < |db.headers| && db.headers[i] == Row(e, Find(db.headers, e).value);
    assert HeaderOk(db.headers[i].cols);
    if LineOk(l.cols) {
      LoneLineMismatch(db, l, db.headers[i].cols);
    }
    var rows := [l];
    assert rows[0] == l;
    assert LineRowOk(db, rows[0].cols) ==> !EntryMatches(db.headers, db.lines + rows, rows[0].cols.entry);
  }

  /** Entries with both totals set have no lines, and none of them is in the general ledger. */
  predicate NeverFilled(db: Db) {
    && (forall i | 0 <= i < |db.headers| :: TotalsSet(db.headers[i].cols) ==> !HasLines(db.lines, db.headers[i].id))
    && (forall i | 0 <= i < |db.gl| ::
          var h := Find(db.headers, db.gl[i].entry);
          h.Some? && !TotalsSet(h.value))
  }

  lemma {:induction false} NeverFilledInsertLine(db: Db, l: Row<Line>)
    requires Consistent(db) && NeverFilled(db) && Accepts(db, InsertLines([l])) && l.cols.active == Some(true)
    ensures NeverFilled(Effect(db, InsertLines([l])))
  {
    var after := db.lines + [l];
    forall i | 0 <= i < |db.headers| && TotalsSet(db.headers[i].cols)
      ensures !HasLines(after, db.headers[i].id)
    {
      FindUnique(db.headers, i);
      if l.cols.entry == db.headers[i].id {
        SingleLineRefused(db, l);
      } else {
        assert forall j | 0 <= j < |db.lines| :: after[j] == db.lines[j];
      }
    }
  }

  lemma {:induction false} NeverFilledInsertHeader(db: Db, rows: seq<Row<Header>>)
    requires Consistent(db) && NeverFilled(db) && Accepts(db, InsertHeaders(rows))
    ensures NeverFilled(Effect(db, InsertHeaders(rows)))
  {
    var after := db.headers + rows;
    forall i | 0 <= i < |after| && TotalsSet(after[i].cols) ensures !HasLines(db.lines, after[i].id) {
      if i >= |db.headers| {
        NewHeaderHasNoLines(db, rows, i);
      }
    }
    forall i | 0 <= i < |db.gl| ensures Find(after, db.gl[i].entry) == Find(db.headers, db.gl[i].entry) {
      FindAppend(db.headers, rows, db.gl[i].entry);
    }
  }

  lemma {:induction false} PostedRows(db: Db, entry: Id, poster: Option<string>, k: nat)
    requires Consistent(db) && k < |Join(db.lines, db.headers, db.accounts, entry, poster)|
    ensures Join(db.lines, db.headers, db.accounts, entry, poster)[k].entry == entry
    ensures Find(db.headers, entry).Some? && HasLines(db.lines, entry)
  {
    PostedRow(db, entry, poster, k);
    if !HasLines(db.lines, entry) {
      JoinNone(db.lines, db.headers, db.accounts, entry, poster);
    }
  }

  lemma {:induction false} NeverFilledPost(db: Db, entry: Id, poster: Option<string>)
    requires Consistent(db) && NeverFilled(db)
    ensures NeverFilled(Effect(db, PostToGl(entry, poster)))
  {
    var added := Join(db.lines, db.headers, db.accounts, entry, poster);
    forall k | 0 <= k < |added|
      ensures added[k].entry == entry && Find(db.headers, entry).Some? && !TotalsSet(Find(db.headers, entry).value)
    {
      PostedRows(db, entry, poster, k);
      var i :| 0 <= i < |db.headers| && db.headers[i] == Row(entry, Find(db.headers, entry).value);
    }
  }

  /** Accounts are kept by others while the service runs. */
  predicate IsAccountStep(s: Stmt) {
    s.InsertAccount? || s.UpdateAccount? || s.DeleteAccount?
  }

  lemma {:induction false} NeverFilledAccounts(db: Db, s: Stmt)
    requires NeverFilled(db) && IsAccountStep(s)
    ensures NeverFilled(Next(db, s))
  {
  }

  lemma {:induction false} NeverFilledNext(db: Db, s: Stmt)
    requires Consistent(db) && NeverFilled(db) && (IsApiCall(s) || IsAccountStep(s))
    ensures NeverFilled(Next(db, s))
  {
    hide Consistent, NeverFilled;
    if IsAccountStep(s) {
      NeverFilledAccounts(db, s);
    } else if Accepts(db, s) {
      match s
      case InsertHeaders(rows) => NeverFilledInsertHeader(db, rows);
      case InsertLines(rows) => assert rows == [rows[0]]; NeverFilledInsertLine(db, rows[0]);
      case PostToGl(entry, poster) => NeverFilledPost(db, entry, poster);
    }
  }

  /** From any tables in which no entry with both totals set is filled, the empty ones among them,
      and in every run of the three queries, between which accounts may come and go: an entry
      created with both totals set never gains a line, and every entry in the general ledger has
      an unset total. */
  lemma {:induction false} ApiNeverPostsTotals(db: Db, stmts: seq<Stmt>)
    requires Consistent(db) && NeverFilled(db)
    requires forall i | 0 <= i < |stmts| :: IsApiCall(stmts[i]) || IsAccountStep(stmts[i])
    ensures Consistent(Run(db, stmts)) && NeverFilled(Run(db, stmts))
  {
    hide Consistent, NeverFilled, Next;
    ConsistentRun(db, stmts);
    if |stmts| > 0 {
      var front, last := stmts[..|stmts| - 1], stmts[|stmts| - 1];
      ApiNeverPostsTotals(db, front);
      NeverFilledNext(Run(db, front), last);
    }
  }
}
