/** The intended life of a journal entry is never refused. */
module LedgerWorkflow {
  import opened Options
  import opened Sql
  import opened Table
  import opened Ledger
  import opened LedgerSums
  import opened LedgerInvariants
  import opened LedgerPosting
  import opened LedgerSnapshot

  function WithTotals(h: Row<Header>, total: int): Row<Header> {
    Row(h.id, h.cols.(totalDebit := Some(total), totalCredit := Some(total)))
  }

  function AsPosted(h: Row<Header>): Row<Header> {
    Row(h.id, h.cols.(status := POSTED))
  }

  /** A new entry without totals, and lines for it that pass every row check and whose active
      debits and active credits both add up to `total`. */
  predicate Addable(db: Db, h: Row<Header>, rows: seq<Row<Line>>, total: int) {
    && !Has(db.headers, h.id)
    && (forall i | 0 <= i < |db.headers| :: db.headers[i].cols.number != h.cols.number)
    && h.cols.totalDebit.None? && h.cols.totalCredit.None? && h.cols.status != POSTED
    && (forall k | 0 <= k < |rows| ::
          rows[k].cols.entry == h.id && LineOk(rows[k].cols) && Has(db.accounts, rows[k].cols.account))
    && Unique(db.lines + rows, IdOf)
    && Unique(rows, LineKey)
    && 0 < total <= 99_999_999_999_999
    && Sum(rows, h.id, Debit, ActiveOnly) == total
    && Sum(rows, h.id, Credit, ActiveOnly) == total
  }

  /** Create the header, insert the lines one by one, set the totals, mark POSTED, post. */
  function Script(h: Row<Header>, rows: seq<Row<Line>>, total: int, poster: Option<string>): seq<Stmt> {
    [InsertHeaders([h])]
    + seq(|rows|, i requires 0 <= i < |rows| => InsertLines([rows[i]]))
    + [UpdateHeaders([WithTotals(h, total)]),
       UpdateHeaders([AsPosted(WithTotals(h, total))]),
       PostToGl(h.id, poster)]
  }

  lemma {:induction false} RunAppend(db: Db, a: seq<Stmt>, b: seq<Stmt>)
    ensures Run(db, a + b) == Run(Run(db, a), b)
  {
    if |b| == 0 {
      assert a + b == a;
    } else {
      assert (a + b)[..|a + b| - 1] == a + b[..|b| - 1];
      RunAppend(db, a, b[..|b| - 1]);
    }
  }

  lemma {:induction false} FindLast<T>(t: seq<Row<T>>, r: Row<T>)
    ensures Find(t + [r], r.id) == Some(r.cols)
  {
  }

  lemma {:induction false} HeaderStage(db: Db, h: Row<Header>, rows: seq<Row<Line>>, total: int)
    requires Consistent(db) && Addable(db, h, rows, total)
    ensures Accepts(db, InsertHeaders([h]))
  {
    UniqueAppend(db.headers, h, IdOf);
    UniqueAppend(db.headers, h, NumberOf);
  }

  lemma {:induction false} LineKeysFresh(db: Db, h: Row<Header>, rows: seq<Row<Line>>, total: int)
    requires Consistent(db) && Addable(db, h, rows, total)
    ensures !HasLines(db.lines, h.id)
    ensures Unique(db.lines + rows, LineKey)
  {
    forall i | 0 <= i < |db.lines| ensures db.lines[i].cols.entry != h.id {
      assert Has(db.headers, db.lines[i].cols.entry);
    }
    var all := db.lines + rows;
    forall i, j | 0 <= i < j < |all| ensures LineKey(all[i]) != LineKey(all[j]) {
      if j < |db.lines| {
        assert LineKey(db.lines[i]) != LineKey(db.lines[j]);
      } else if i >= |db.lines| {
        assert LineKey(rows[i - |db.lines|]) != LineKey(rows[j - |db.lines|]);
      }
    }
  }

  lemma {:induction false} LineStage(db: Db, h: Row<Header>, rows: seq<Row<Line>>, total: int, k: nat)
    requires Consistent(db) && Addable(db, h, rows, total) && k < |rows|
    ensures AcceptsInsertLines(db.(headers := db.headers + [h], lines := db.lines + rows[..k]), [rows[k]])
  {
    var before := db.(headers := db.headers + [h], lines := db.lines + rows[..k]);
    FindLast(db.headers, h);
    LineKeysFresh(db, h, rows, total);
    assert db.lines + rows[..k] + [rows[k]] == (db.lines + rows)[..|db.lines| + k + 1];
    UniquePrefix(db.lines + rows, IdOf, |db.lines| + k + 1);
    UniquePrefix(db.lines + rows, LineKey, |db.lines| + k + 1);
    assert LineRowOk(before, rows[k].cols);
  }

  /** Replacing the last row of a table of distinct rows. */
  lemma {:induction false} PutLast<T>(t: seq<Row<T>>, r: Row<T>, v: Row<T>)
    requires !Has(t, r.id) && v.id == r.id
    ensures PutAll(t + [r], [v]) == t + [v]
  {
    assert [v][..0] == [];
    assert PutAll(t + [r], []) == t + [r];
  }

  lemma {:induction false} UpdateStage(db: Db, t: seq<Row<Header>>, h: Row<Header>, v: Row<Header>)
    requires !Has(t, h.id) && v.id == h.id && v.cols.number == h.cols.number
    requires Unique(t + [h], NumberOf) && db.headers == t + [h] && h.cols.status != POSTED
    requires HeaderOk(v.cols) && TotalsMatch(v.cols, db.lines, h.id)
    ensures Accepts(db, UpdateHeaders([v]))
    ensures Effect(db, UpdateHeaders([v])).headers == t + [v]
  {
    FindLast(t, h);
    PutLast(t, h, v);
    var rows := [v];
    assert rows[..0] == [] && rows[..1] == rows;
    forall i, j | 0 <= i < j < |t + [v]| ensures NumberOf((t + [v])[i]) != NumberOf((t + [v])[j]) {
      assert NumberOf((t + [h])[i]) != NumberOf((t + [h])[j]);
    }
    assert db.headers[|t|].id == v.id;
  }

  lemma {:induction false} TotalsStage(db: Db, h: Row<Header>, rows: seq<Row<Line>>, total: int)
    requires Consistent(db) && Addable(db, h, rows, total)
    ensures TotalsMatch(WithTotals(h, total).cols, db.lines + rows, h.id)
    ensures HeaderOk(WithTotals(h, total).cols)
  {
    LineKeysFresh(db, h, rows, total);
    SumAppend(db.lines, rows, h.id, Debit, ActiveOnly);
    SumAppend(db.lines, rows, h.id, Credit, ActiveOnly);
    SumNoLines(db.lines, h.id, Debit, ActiveOnly);
    SumNoLines(db.lines, h.id, Credit, ActiveOnly);
  }

  /** The tables after the first i statements of the script. */
  function Stage(db: Db, h: Row<Header>, rows: seq<Row<Line>>, total: int, poster: Option<string>, i: nat): Db
    requires i <= |rows| + 4
  {
    var n := |rows|;
    if i == 0 then db
    else if i <= n + 1 then db.(headers := db.headers + [h], lines := db.lines + rows[..i - 1])
    else
      var v := if i == n + 2 then WithTotals(h, total) else AsPosted(WithTotals(h, total));
      var filled := db.(headers := db.headers + [v], lines := db.lines + rows);
      if i <= n + 3 then filled else Effect(filled, PostToGl(h.id, poster))
  }

  lemma {:induction false} StageStepEarly(db: Db, h: Row<Header>, rows: seq<Row<Line>>, total: int,
                                          poster: Option<string>, i: nat)
    requires Consistent(db) && Addable(db, h, rows, total) && i <= |rows|
    ensures Accepts(Stage(db, h, rows, total, poster, i), Script(h, rows, total, poster)[i])
    ensures Effect(Stage(db, h, rows, total, poster, i), Script(h, rows, total, poster)[i])
         == Stage(db, h, rows, total, poster, i + 1)
  {
    if i == 0 {
      HeaderStage(db, h, rows, total);
      assert db.lines + rows[..0] == db.lines;
    } else {
      LineStage(db, h, rows, total, i - 1);
      assert db.lines + rows[..i] == db.lines + rows[..i - 1] + [rows[i - 1]];
    }
  }

  lemma {:induction false} StageStep(db: Db, h: Row<Header>, rows: seq<Row<Line>>, total: int,
                                     poster: Option<string>, i: nat)
    requires Consistent(db) && Addable(db, h, rows, total) && i < |rows| + 4
    ensures Accepts(Stage(db, h, rows, total, poster, i), Script(h, rows, total, poster)[i])
    ensures Effect(Stage(db, h, rows, total, poster, i), Script(h, rows, total, poster)[i])
         == Stage(db, h, rows, total, poster, i + 1)
  {
    var n := |rows|;
    if i <= n {
      StageStepEarly(db, h, rows, total, poster, i);
    } else if i < n + 3 {
      var at := Stage(db, h, rows, total, poster, i);
      var v := WithTotals(h, total);
      assert rows[..n] == rows;
      HeaderStage(db, h, rows, total);
      TotalsStage(db, h, rows, total);
      if i == n + 1 {
        UpdateStage(at, db.headers, h, v);
      } else {
        UniqueNumbers(db, h, v);
        UpdateStage(at, db.headers, v, AsPosted(v));
      }
    }
  }

  lemma {:induction false} UniqueNumbers(db: Db, h: Row<Header>, v: Row<Header>)
    requires Unique(db.headers + [h], NumberOf) && v.cols.number == h.cols.number
    ensures Unique(db.headers + [v], NumberOf)
  {
    forall i, j | 0 <= i < j < |db.headers + [v]|
      ensures NumberOf((db.headers + [v])[i]) != NumberOf((db.headers + [v])[j])
    {
      assert NumberOf((db.headers + [h])[i]) != NumberOf((db.headers + [h])[j]);
    }
  }

  lemma {:induction false} RunReachesStage(db: Db, h: Row<Header>, rows: seq<Row<Line>>, total: int,
                                           poster: Option<string>, i: nat)
    requires Consistent(db) && Addable(db, h, rows, total) && i <= |rows| + 4
    ensures Run(db, Script(h, rows, total, poster)[..i]) == Stage(db, h, rows, total, poster, i)
  {
    var script := Script(h, rows, total, poster);
    if i > 0 {
      RunReachesStage(db, h, rows, total, poster, i - 1);
      StageStep(db, h, rows, total, poster, i - 1);
      assert script[..i][..i - 1] == script[..i - 1];
    }
  }

  lemma {:induction false} EntryLinesOfNew(s: seq<Row<Line>>, rows: seq<Row<Line>>, entry: Id)
    requires !HasLines(s, entry) && forall k | 0 <= k < |rows| :: rows[k].cols.entry == entry
    ensures EntryLines(s + rows, entry) == rows
  {
    if |rows| == 0 {
      assert s + rows == s;
      EntryLinesNone(s, entry);
    } else {
      var n := |rows| - 1;
      EntryLinesOfNew(s, rows[..n], entry);
      assert s + rows == (s + rows[..n]) + [rows[n]];
      EntryLinesSnoc(s + rows[..n], rows[n], entry);
    }
  }

  lemma {:induction false} PostedStage(db: Db, h: Row<Header>, rows: seq<Row<Line>>, total: int, poster: Option<string>)
    requires Consistent(db) && Addable(db, h, rows, total)
    ensures AccountsLinked(rows, db.accounts)
    ensures var v := AsPosted(WithTotals(h, total));
            Join(db.lines + rows, db.headers + [v], db.accounts, h.id, poster) == Copies(rows, v, db.accounts, poster)
  {
    var v := AsPosted(WithTotals(h, total));
    LineKeysFresh(db, h, rows, total);
    EntryLinesOfNew(db.lines, rows, h.id);
    FindLast(db.headers, v);
    UniqueAppend(db.headers, v, IdOf);
    assert Has(db.headers + [v], h.id);
    JoinLines(db.lines + rows, db.headers + [v], db.accounts, h.id, poster);
  }

  /** No statement of the script is refused. */
  lemma {:induction false} WorkflowNeverRefused(db: Db, h: Row<Header>, rows: seq<Row<Line>>, total: int,
                                                poster: Option<string>, i: nat)
    requires Consistent(db) && Addable(db, h, rows, total) && i < |rows| + 4
    ensures Accepts(Run(db, Script(h, rows, total, poster)[..i]), Script(h, rows, total, poster)[i])
  {
    RunReachesStage(db, h, rows, total, poster, i);
    StageStep(db, h, rows, total, poster, i);
  }

  lemma {:induction false} LastStage(db: Db, h: Row<Header>, rows: seq<Row<Line>>, total: int, poster: Option<string>)
    requires AccountsLinked(rows, db.accounts)
    requires var v := AsPosted(WithTotals(h, total));
             Join(db.lines + rows, db.headers + [v], db.accounts, h.id, poster) == Copies(rows, v, db.accounts, poster)
    ensures var v := AsPosted(WithTotals(h, total));
            Stage(db, h, rows, total, poster, |rows| + 4)
            == Db(db.headers + [v], db.lines + rows, db.accounts, db.gl + Copies(rows, v, db.accounts, poster))
  {
  }

  lemma {:induction false} ScriptEnd(db: Db, h: Row<Header>, rows: seq<Row<Line>>, total: int, poster: Option<string>)
    requires Consistent(db) && Addable(db, h, rows, total)
    ensures Run(db, Script(h, rows, total, poster)) == Stage(db, h, rows, total, poster, |rows| + 4)
  {
    var script := Script(h, rows, total, poster);
    assert script[..|rows| + 4] == script;
    RunReachesStage(db, h, rows, total, poster, |rows| + 4);
  }

  /** The script leaves the entry POSTED with its lines, and the general ledger with exactly one
      more row per line. */
  lemma {:induction false} WorkflowComplete(db: Db, h: Row<Header>, rows: seq<Row<Line>>, total: int,
                                            poster: Option<string>)
    requires Consistent(db) && Addable(db, h, rows, total)
    ensures AccountsLinked(rows, db.accounts)
    ensures var v := AsPosted(WithTotals(h, total));
            Run(db, Script(h, rows, total, poster))
            == Db(db.headers + [v], db.lines + rows, db.accounts, db.gl + Copies(rows, v, db.accounts, poster))
  {
    PostedStage(db, h, rows, total, poster);
    ScriptEnd(db, h, rows, total, poster);
    LastStage(db, h, rows, total, poster);
  }
}
