/** PostJournalToGL: what its joins yield and what that does to the general ledger. */
module LedgerPosting {
  import opened Options
  import opened Sql
  import opened Table
  import opened Ledger
  import opened LedgerSums
  import opened LedgerInvariants

  /** One general-ledger row per line, with the account's code. */
  function Copies(ls: seq<Row<Line>>, h: Row<Header>, accounts: seq<Row<Account>>,
                  poster: Option<string>): (r: seq<GlRow>)
    requires AccountsLinked(ls, accounts)
    ensures |r| == |ls|
  {
    if |ls| == 0 then []
    else
      var l := ls[|ls| - 1];
      Copies(ls[..|ls| - 1], h, accounts, poster) + [GlRowOf(l, h, Find(accounts, l.cols.account).value.code, poster)]
  }

  predicate AccountsLinked(lines: seq<Row<Line>>, accounts: seq<Row<Account>>) {
    forall i | 0 <= i < |lines| :: Has(accounts, lines[i].cols.account)
  }

  lemma {:induction false} EntryLinesIn(lines: seq<Row<Line>>, entry: Id)
    ensures forall x :: x in EntryLines(lines, entry) <==> x in lines && x.cols.entry == entry
  {
    if |lines| > 0 {
      var n := |lines| - 1;
      EntryLinesIn(lines[..n], entry);
      assert lines == lines[..n] + [lines[n]];
    }
  }

  lemma {:induction false} EntryLinesNone(lines: seq<Row<Line>>, entry: Id)
    requires !HasLines(lines, entry)
    ensures EntryLines(lines, entry) == []
  {
    if |lines| > 0 {
      var n := |lines| - 1;
      assert forall i | 0 <= i < n :: lines[..n][i] == lines[i];
      EntryLinesNone(lines[..n], entry);
    }
  }

  lemma {:induction false} JoinAccountsNone(l: Row<Line>, h: Row<Header>, accounts: seq<Row<Account>>,
                                            poster: Option<string>)
    requires !Has(accounts, l.cols.account)
    ensures JoinAccounts(l, h, accounts, poster) == []
  {
    if |accounts| > 0 {
      var front := accounts[..|accounts| - 1];
      assert forall i | 0 <= i < |front| :: front[i] == accounts[i];
      JoinAccountsNone(l, h, front, poster);
    }
  }

  /** A line meets exactly one account row. */
  lemma {:induction false} JoinAccountsOne(l: Row<Line>, h: Row<Header>, accounts: seq<Row<Account>>,
                                           poster: Option<string>)
    requires Unique(accounts, IdOf) && Has(accounts, l.cols.account)
    ensures JoinAccounts(l, h, accounts, poster)
         == [GlRowOf(l, h, Find(accounts, l.cols.account).value.code, poster)]
  {
    var n := |accounts| - 1;
    var front := accounts[..n];
    UniquePrefix(accounts, IdOf, n);
    if accounts[n].id == l.cols.account {
      forall i | 0 <= i < n ensures front[i].id != l.cols.account {
        assert IdOf(accounts[i]) != IdOf(accounts[n]);
      }
      JoinAccountsNone(l, h, front, poster);
    } else {
      var i :| 0 <= i < |accounts| && accounts[i].id == l.cols.account;
      assert front[i].id == l.cols.account;
      JoinAccountsOne(l, h, front, poster);
    }
  }

  lemma {:induction false} JoinHeadersNone(l: Row<Line>, headers: seq<Row<Header>>, accounts: seq<Row<Account>>,
                                           entry: Id, poster: Option<string>)
    requires l.cols.entry != entry || !Has(headers, entry)
    ensures JoinHeaders(l, headers, accounts, entry, poster) == []
  {
    if |headers| > 0 {
      var front := headers[..|headers| - 1];
      assert forall i | 0 <= i < |front| :: front[i] == headers[i];
      JoinHeadersNone(l, front, accounts, entry, poster);
    }
  }

  /** A line of the entry meets exactly one header row. */
  lemma {:induction false} JoinHeadersOne(l: Row<Line>, headers: seq<Row<Header>>, accounts: seq<Row<Account>>,
                                          entry: Id, poster: Option<string>)
    requires Unique(headers, IdOf) && Has(headers, entry) && l.cols.entry == entry
    ensures JoinHeaders(l, headers, accounts, entry, poster)
         == JoinAccounts(l, Row(entry, Find(headers, entry).value), accounts, poster)
  {
    var n := |headers| - 1;
    var front := headers[..n];
    UniquePrefix(headers, IdOf, n);
    if headers[n].id == entry {
      forall i | 0 <= i < n ensures front[i].id != entry {
        assert IdOf(headers[i]) != IdOf(headers[n]);
      }
      JoinHeadersNone(l, front, accounts, entry, poster);
      assert headers[n] == Row(entry, Find(headers, entry).value);
    } else {
      var i :| 0 <= i < |headers| && headers[i].id == entry;
      assert front[i].id == entry;
      JoinHeadersOne(l, front, accounts, entry, poster);
    }
  }

  lemma {:induction false} CopiesSnoc(ls: seq<Row<Line>>, l: Row<Line>, h: Row<Header>, accounts: seq<Row<Account>>,
                                      poster: Option<string>)
    requires AccountsLinked(ls, accounts) && Has(accounts, l.cols.account)
    ensures AccountsLinked(ls + [l], accounts)
    ensures Copies(ls + [l], h, accounts, poster)
         == Copies(ls, h, accounts, poster) + [GlRowOf(l, h, Find(accounts, l.cols.account).value.code, poster)]
  {
    assert (ls + [l])[..|ls|] == ls;
  }

  lemma {:induction false} CopiesAt(ls: seq<Row<Line>>, h: Row<Header>, accounts: seq<Row<Account>>,
                                    poster: Option<string>, k: nat)
    requires AccountsLinked(ls, accounts) && k < |ls|
    ensures Copies(ls, h, accounts, poster)[k]
         == GlRowOf(ls[k], h, Find(accounts, ls[k].cols.account).value.code, poster)
  {
    if k < |ls| - 1 {
      CopiesAt(ls[..|ls| - 1], h, accounts, poster, k);
    }
  }

  lemma {:induction false} JoinLines(lines: seq<Row<Line>>, headers: seq<Row<Header>>, accounts: seq<Row<Account>>,
                                     entry: Id, poster: Option<string>)
    requires Unique(headers, IdOf) && Unique(accounts, IdOf) && AccountsLinked(lines, accounts) && Has(headers, entry)
    ensures AccountsLinked(EntryLines(lines, entry), accounts)
    ensures Join(lines, headers, accounts, entry, poster)
         == Copies(EntryLines(lines, entry), Row(entry, Find(headers, entry).value), accounts, poster)
  {
    if |lines| > 0 {
      var n := |lines| - 1;
      assert forall i | 0 <= i < n :: lines[..n][i] == lines[i];
      JoinLines(lines[..n], headers, accounts, entry, poster);
      if lines[n].cols.entry == entry {
        JoinHeadersOne(lines[n], headers, accounts, entry, poster);
        JoinAccountsOne(lines[n], Row(entry, Find(headers, entry).value), accounts, poster);
        CopiesSnoc(EntryLines(lines[..n], entry), lines[n], Row(entry, Find(headers, entry).value), accounts, poster);
      } else {
        JoinHeadersNone(lines[n], headers, accounts, entry, poster);
      }
    }
  }

  lemma {:induction false} JoinNone(lines: seq<Row<Line>>, headers: seq<Row<Header>>, accounts: seq<Row<Account>>,
                                    entry: Id, poster: Option<string>)
    requires !Has(headers, entry) || !HasLines(lines, entry)
    ensures Join(lines, headers, accounts, entry, poster) == []
  {
    if |lines| > 0 {
      var n := |lines| - 1;
      assert forall i | 0 <= i < n :: lines[..n][i] == lines[i];
      JoinNone(lines[..n], headers, accounts, entry, poster);
      JoinHeadersNone(lines[n], headers, accounts, entry, poster);
    }
  }

  /** The joins neither drop nor duplicate: posting appends one row per line of the entry,
      carrying the line's amounts and its account's code, and nothing for an absent entry. */
  lemma {:induction false} JoinIsExact(db: Db, entry: Id, poster: Option<string>)
    requires Consistent(db)
    ensures AccountsLinked(EntryLines(db.lines, entry), db.accounts)
    ensures Find(db.headers, entry).None? ==>
              EntryLines(db.lines, entry) == [] && Join(db.lines, db.headers, db.accounts, entry, poster) == []
    ensures Find(db.headers, entry).Some? ==>
              Join(db.lines, db.headers, db.accounts, entry, poster)
              == Copies(EntryLines(db.lines, entry), Row(entry, Find(db.headers, entry).value), db.accounts, poster)
  {
    if Has(db.headers, entry) {
      JoinLines(db.lines, db.headers, db.accounts, entry, poster);
    } else {
      JoinNone(db.lines, db.headers, db.accounts, entry, poster);
      EntryLinesNone(db.lines, entry);
    }
  }

  /** Every row a post appends, field by field: the line it comes from, the header's status, date,
      source, currency and rate at that moment, and the present code of the account. */
  lemma {:induction false} PostedRow(db: Db, entry: Id, poster: Option<string>, k: nat)
    requires Consistent(db) && k < |Join(db.lines, db.headers, db.accounts, entry, poster)|
    ensures Find(db.headers, entry).Some? && k < |EntryLines(db.lines, entry)|
    ensures var g := Join(db.lines, db.headers, db.accounts, entry, poster)[k];
            var l := EntryLines(db.lines, entry)[k];
            var h := Find(db.headers, entry).value;
            && g.lineId == l.id && g.entry == entry == l.cols.entry
            && g.lineNo == l.cols.lineNo && g.account == l.cols.account
            && g.debit == l.cols.debit && g.credit == l.cols.credit && g.lineInfo == l.cols.info
            && g.status == h.status && g.headerInfo == h.info && g.poster == poster
            && Row(g.account, Account(g.code)) in db.accounts
  {
    hide Join, Copies, EntryLines, Unique, HeaderOk, LineOk;
    JoinIsExact(db, entry, poster);
    EntryLinesIn(db.lines, entry);
    var ls := EntryLines(db.lines, entry);
    CopiesAt(ls, Row(entry, Find(db.headers, entry).value), db.accounts, poster, k);
    assert ls[k] in ls;
  }

  lemma {:induction false} ConsistentPost(db: Db, entry: Id, poster: Option<string>)
    requires Consistent(db)
    ensures Consistent(Effect(db, PostToGl(entry, poster)))
  {
    hide Join, Copies, EntryLines, Find, Unique, HeaderOk, LineOk;
    JoinIsExact(db, entry, poster);
    var ls := EntryLines(db.lines, entry);
    var added := Join(db.lines, db.headers, db.accounts, entry, poster);
    forall i | 0 <= i < |added| ensures Has(db.accounts, added[i].account) {
      CopiesAt(ls, Row(entry, Find(db.headers, entry).value), db.accounts, poster, i);
    }
    assert GlLinked(db.(gl := db.gl + added));
  }

  /** Keys, CHECKs and foreign keys hold after every statement, accepted or not. */
  lemma {:induction false} ConsistentNext(db: Db, s: Stmt)
    requires Consistent(db)
    ensures Consistent(Next(db, s))
  {
    if Accepts(db, s) {
      match s
      case PostToGl(entry, poster) => ConsistentPost(db, entry, poster);
      case InsertLines(rows) => ConsistentInsertLines(db, rows);
      case UpdateLines(rows) => ConsistentUpdateLines(db, rows);
      case DeleteLines(ids) => ConsistentDeleteLines(db, ids);
      case InsertHeaders(rows) => ConsistentInsertHeaders(db, rows);
      case UpdateHeaders(rows) => ConsistentUpdateHeaders(db, rows);
      case DeleteHeaders(ids) => ConsistentDeleteHeaders(db, ids);
      case InsertAccount(_) | UpdateAccount(_) | DeleteAccount(_) => ConsistentAccounts(db, s);
    }
  }

  lemma {:induction false} ConsistentRun(db: Db, stmts: seq<Stmt>)
    requires Consistent(db)
    ensures Consistent(Run(db, stmts))
  {
    if |stmts| > 0 {
      ConsistentRun(db, stmts[..|stmts| - 1]);
      ConsistentNext(Run(db, stmts[..|stmts| - 1]), stmts[|stmts| - 1]);
    }
  }

  // ---- General-ledger totals ----

  function GlAmount(g: GlRow, side: Side): int {
    var a := if side == Debit then g.debit else g.credit;
    if a.Some? then a.value else 0
  }

  function GlSum(gl: seq<GlRow>, side: Side): int {
    if |gl| == 0 then 0 else GlSum(gl[..|gl| - 1], side) + GlAmount(gl[|gl| - 1], side)
  }

  lemma {:induction false} GlSumAppend(s: seq<GlRow>, t: seq<GlRow>, side: Side)
    ensures GlSum(s + t, side) == GlSum(s, side) + GlSum(t, side)
  {
    if |t| == 0 {
      assert s + t == s;
    } else {
      assert (s + t)[..|s + t| - 1] == s + t[..|t| - 1];
      GlSumAppend(s, t[..|t| - 1], side);
    }
  }

  lemma {:induction false} GlSumOne(g: GlRow, side: Side)
    ensures GlSum([g], side) == GlAmount(g, side)
  {
    assert [g][..0] == [];
    assert GlSum([], side) == 0;
  }

  lemma {:induction false} GlSumJoinLine(l: Row<Line>, headers: seq<Row<Header>>, accounts: seq<Row<Account>>,
                                         entry: Id, poster: Option<string>, side: Side)
    requires Unique(headers, IdOf) && Unique(accounts, IdOf) && Has(accounts, l.cols.account) && Has(headers, entry)
    ensures GlSum(JoinHeaders(l, headers, accounts, entry, poster), side) == Weigh(l.cols, entry, side, AllLines)
  {
    hide Find, JoinHeaders, JoinAccounts, GlSum, Unique;
    if l.cols.entry == entry {
      var h := Row(entry, Find(headers, entry).value);
      JoinHeadersOne(l, headers, accounts, entry, poster);
      JoinAccountsOne(l, h, accounts, poster);
      GlSumOne(GlRowOf(l, h, Find(accounts, l.cols.account).value.code, poster), side);
    } else {
      JoinHeadersNone(l, headers, accounts, entry, poster);
      GlSumNothing(side);
    }
  }

  lemma {:induction false} GlSumNothing(side: Side)
    ensures GlSum([], side) == 0
  {
  }

  lemma {:induction false} GlSumJoin(lines: seq<Row<Line>>, headers: seq<Row<Header>>, accounts: seq<Row<Account>>,
                                     entry: Id, poster: Option<string>, side: Side)
    requires Unique(headers, IdOf) && Unique(accounts, IdOf) && AccountsLinked(lines, accounts) && Has(headers, entry)
    ensures GlSum(Join(lines, headers, accounts, entry, poster), side) == Sum(lines, entry, side, AllLines)
  {
    hide Find, JoinHeaders, JoinAccounts, Unique;
    if |lines| > 0 {
      var n := |lines| - 1;
      assert forall i | 0 <= i < n :: lines[..n][i] == lines[i];
      GlSumJoin(lines[..n], headers, accounts, entry, poster, side);
      GlSumAppend(Join(lines[..n], headers, accounts, entry, poster),
                  JoinHeaders(lines[n], headers, accounts, entry, poster), side);
      GlSumJoinLine(lines[n], headers, accounts, entry, poster, side);
    }
  }

  /** Posting adds the sum over all lines of the entry, active or not, to each side. */
  lemma {:induction false} PostSums(db: Db, entry: Id, poster: Option<string>, side: Side)
    requires Consistent(db)
    ensures GlSum(Next(db, PostToGl(entry, poster)).gl, side)
         == GlSum(db.gl, side) + Sum(db.lines, entry, side, AllLines)
  {
    hide Join, GlSum, Sum, Find, Unique;
    var added := Join(db.lines, db.headers, db.accounts, entry, poster);
    GlSumAppend(db.gl, added, side);
    if Has(db.headers, entry) {
      GlSumJoin(db.lines, db.headers, db.accounts, entry, poster, side);
    } else {
      JoinNone(db.lines, db.headers, db.accounts, entry, poster);
      GlSumNothing(side);
      SumNoLines(db.lines, entry, side, AllLines);
    }
  }

  // ---- Conservation ----

  function GlDrift(db: Db): int {
    GlSum(db.gl, Debit) - GlSum(db.gl, Credit)
  }

  function Imbalance(db: Db, entry: Id, scope: Scope): int {
    Sum(db.lines, entry, Debit, scope) - Sum(db.lines, entry, Credit, scope)
  }

  /** The imbalances of the posted entries, each taken at the time of its post. */
  function PostedDrift(db: Db, stmts: seq<Stmt>): int {
    if |stmts| == 0 then 0
    else
      var last := stmts[|stmts| - 1];
      PostedDrift(db, stmts[..|stmts| - 1])
      + if last.PostToGl? then Imbalance(Run(db, stmts[..|stmts| - 1]), last.entry, AllLines) else 0
  }

  /** Conservation, for every run: the ledger's drift is the drift it began with plus the
      imbalance of each entry posted. */
  lemma {:induction false} DriftIsPostedImbalance(db: Db, stmts: seq<Stmt>)
    requires Consistent(db)
    ensures GlDrift(Run(db, stmts)) == GlDrift(db) + PostedDrift(db, stmts)
  {
    if |stmts| > 0 {
      var front := stmts[..|stmts| - 1];
      var last := stmts[|stmts| - 1];
      DriftIsPostedImbalance(db, front);
      ConsistentRun(db, front);
      if last.PostToGl? {
        PostSums(Run(db, front), last.entry, last.poster, Debit);
        PostSums(Run(db, front), last.entry, last.poster, Credit);
      }
    }
  }
}
