/** Double entry: headers agree with their active lines, and the general ledger balances. */
module LedgerBalance {
  import opened Options
  import opened Sql
  import opened Table
  import opened Ledger
  import opened LedgerSums
  import opened LedgerInvariants
  import opened LedgerPosting
  import opened LedgerAgreement
  import opened LedgerMoves

  /** A line UPDATE, if accepted, is a sound move. Every other statement is sound by its form. */
  predicate StepIsSound(db: Db, s: Stmt) {
    s.UpdateLines? && Accepts(db, s) ==> MoveIsSound(db, s.lineVersions)
  }

  predicate RunIsSound(db: Db, stmts: seq<Stmt>) {
    forall i | 0 <= i < |stmts| :: StepIsSound(Run(db, stmts[..i]), stmts[i])
  }

  lemma {:induction false} TotalsAgreeNextIff(db: Db, s: Stmt)
    requires Consistent(db) && TotalsAgree(db)
    ensures TotalsAgree(Next(db, s)) <==> StepIsSound(db, s)
  {
    if Accepts(db, s) {
      match s
      case InsertHeaders(_) | UpdateHeaders(_) => AgreeAfterHeaders(db, s);
      case DeleteHeaders(ids) => AgreeAfterDeleteHeaders(db, ids);
      case InsertLines(rows) =>
        forall i | 0 <= i < |db.headers| { AgreeAfterInsertLines(db, rows, i); }
      case UpdateLines(rows) => MoveKeepsTotalsIff(db, rows);
      case DeleteLines(ids) =>
        forall i | 0 <= i < |db.headers| { AgreeAfterDeleteLines(db, ids, i); }
      case _ =>
    }
  }

  lemma {:induction false} RunIsSoundPrefix(db: Db, stmts: seq<Stmt>, n: nat)
    requires RunIsSound(db, stmts) && n <= |stmts|
    ensures RunIsSound(db, stmts[..n])
  {
    forall i | 0 <= i < n ensures StepIsSound(Run(db, stmts[..n][..i]), stmts[..n][i]) {
      assert stmts[..n][..i] == stmts[..i];
    }
  }

  lemma {:induction false} TotalsAgreeRun(db: Db, stmts: seq<Stmt>)
    requires Consistent(db) && TotalsAgree(db) && RunIsSound(db, stmts)
    ensures Consistent(Run(db, stmts)) && TotalsAgree(Run(db, stmts))
  {
    ConsistentRun(db, stmts);
    if |stmts| > 0 {
      var n := |stmts| - 1;
      RunIsSoundPrefix(db, stmts, n);
      TotalsAgreeRun(db, stmts[..n]);
      TotalsAgreeNextIff(Run(db, stmts[..n]), stmts[n]);
    }
  }

  /** Headers agree with their lines all along a run if and only if every accepted line UPDATE
      of the run is a sound move. */
  lemma {:induction false} TotalsAgreeRunIff(db: Db, stmts: seq<Stmt>)
    requires Consistent(db) && TotalsAgree(db)
    ensures (forall i | 0 <= i <= |stmts| :: TotalsAgree(Run(db, stmts[..i]))) <==> RunIsSound(db, stmts)
  {
    if RunIsSound(db, stmts) {
      forall i | 0 <= i <= |stmts| ensures TotalsAgree(Run(db, stmts[..i])) {
        RunIsSoundPrefix(db, stmts, i);
        TotalsAgreeRun(db, stmts[..i]);
      }
    }
    if forall i | 0 <= i <= |stmts| :: TotalsAgree(Run(db, stmts[..i])) {
      forall i | 0 <= i < |stmts| ensures StepIsSound(Run(db, stmts[..i]), stmts[i]) {
        ConsistentRun(db, stmts[..i]);
        TotalsAgreeNextIff(Run(db, stmts[..i]), stmts[i]);
        assert stmts[..i + 1][..i] == stmts[..i];
        assert TotalsAgree(Run(db, stmts[..i + 1]));
      }
    }
  }

  /** A run is sound when each line UPDATE it gets accepted leaves je_id alone. */
  lemma {:induction false} KeptEntriesAreSound(db: Db, stmts: seq<Stmt>)
    requires Consistent(db)
    requires forall i | 0 <= i < |stmts| && stmts[i].UpdateLines? && Accepts(Run(db, stmts[..i]), stmts[i]) ::
               KeepsEntries(Run(db, stmts[..i]).lines, stmts[i].lineVersions)
    ensures RunIsSound(db, stmts)
  {
    forall i | 0 <= i < |stmts| ensures StepIsSound(Run(db, stmts[..i]), stmts[i]) {
      if stmts[i].UpdateLines? && Accepts(Run(db, stmts[..i]), stmts[i]) {
        ConsistentRun(db, stmts[..i]);
        KeptEntriesMoveSoundly(Run(db, stmts[..i]), stmts[i].lineVersions);
      }
    }
  }

  /** Double entry, for every sound run from the empty tables: an entry with both totals set has
      no lines, or active lines whose debits and credits are equal, positive, equal to the totals
      and within numeric(14,2), so no sum was rounded. */
  lemma {:induction false} DoubleEntry(stmts: seq<Stmt>, i: nat)
    requires RunIsSound(EMPTY, stmts)
    requires i < |Run(EMPTY, stmts).headers| && TotalsSet(Run(EMPTY, stmts).headers[i].cols)
    requires HasLines(Run(EMPTY, stmts).lines, Run(EMPTY, stmts).headers[i].id)
    ensures var db := Run(EMPTY, stmts);
            var h := db.headers[i];
            && Sum(db.lines, h.id, Debit, ActiveOnly) == h.cols.totalDebit.value
            && Sum(db.lines, h.id, Credit, ActiveOnly) == h.cols.totalCredit.value
            && Imbalance(db, h.id, ActiveOnly) == 0
            && 0 < h.cols.totalDebit.value <= 99_999_999_999_999
  {
    TotalsAgreeRun(EMPTY, stmts);
    assert HeaderOk(Run(EMPTY, stmts).headers[i].cols);
  }

  // ---- The trial balance ----

  lemma {:induction false} SumSplit(lines: seq<Row<Line>>, entry: Id, side: Side)
    ensures Sum(lines, entry, side, AllLines)
         == Sum(lines, entry, side, ActiveOnly) + Sum(lines, entry, side, InactiveOnly)
  {
    if |lines| > 0 {
      SumSplit(lines[..|lines| - 1], entry, side);
    }
  }

  predicate AllActive(lines: seq<Row<Line>>, entry: Id) {
    forall i | 0 <= i < |lines| && lines[i].cols.entry == entry :: lines[i].cols.active == Some(true)
  }

  lemma {:induction false} SumAllActive(lines: seq<Row<Line>>, entry: Id, side: Side)
    requires AllActive(lines, entry)
    ensures Sum(lines, entry, side, InactiveOnly) == 0
  {
    if |lines| > 0 {
      var n := |lines| - 1;
      assert forall i | 0 <= i < n :: lines[..n][i] == lines[i];
      SumAllActive(lines[..n], entry, side);
    }
  }

  /** The post targets an entry without lines, or one with both totals set and only active lines. */
  predicate SoundPost(db: Db, s: Stmt) {
    s.PostToGl? && HasLines(db.lines, s.entry) ==>
      var h := Find(db.headers, s.entry);
      h.Some? && TotalsSet(h.value) && AllActive(db.lines, s.entry)
  }

  /** For an entry with both totals set and lines, its imbalance is that of its inactive lines. */
  lemma {:induction false} ImbalanceIsInactive(db: Db, entry: Id)
    requires Consistent(db) && TotalsAgree(db) && HasLines(db.lines, entry)
    requires Find(db.headers, entry).Some? && TotalsSet(Find(db.headers, entry).value)
    ensures Imbalance(db, entry, AllLines) == Imbalance(db, entry, InactiveOnly)
  {
    var i :| 0 <= i < |db.headers| && db.headers[i] == Row(entry, Find(db.headers, entry).value);
    assert HeaderOk(db.headers[i].cols);
    SumSplit(db.lines, entry, Debit);
    SumSplit(db.lines, entry, Credit);
  }

  /** Posting an entry with both totals set and lines keeps the ledger's drift exactly when its
      inactive lines balance among themselves. */
  lemma {:induction false} PostKeepsDriftIff(db: Db, entry: Id, poster: Option<string>)
    requires Consistent(db) && TotalsAgree(db) && HasLines(db.lines, entry)
    requires Find(db.headers, entry).Some? && TotalsSet(Find(db.headers, entry).value)
    ensures GlDrift(Next(db, PostToGl(entry, poster))) == GlDrift(db)
       <==> Imbalance(db, entry, InactiveOnly) == 0
  {
    ImbalanceIsInactive(db, entry);
    PostSums(db, entry, poster, Debit);
    PostSums(db, entry, poster, Credit);
  }

  lemma {:induction false} SoundPostBalances(db: Db, s: Stmt)
    requires Consistent(db) && TotalsAgree(db) && s.PostToGl? && SoundPost(db, s)
    ensures Imbalance(db, s.entry, AllLines) == 0
  {
    if HasLines(db.lines, s.entry) {
      ImbalanceIsInactive(db, s.entry);
      SumAllActive(db.lines, s.entry, Debit);
      SumAllActive(db.lines, s.entry, Credit);
    } else {
      SumNoLines(db.lines, s.entry, Debit, AllLines);
      SumNoLines(db.lines, s.entry, Credit, AllLines);
    }
  }

  lemma {:induction false} PostedDriftZero(stmts: seq<Stmt>)
    requires RunIsSound(EMPTY, stmts)
    requires forall i | 0 <= i < |stmts| :: SoundPost(Run(EMPTY, stmts[..i]), stmts[i])
    ensures PostedDrift(EMPTY, stmts) == 0
  {
    if |stmts| > 0 {
      var n := |stmts| - 1;
      RunIsSoundPrefix(EMPTY, stmts, n);
      forall i | 0 <= i < n ensures SoundPost(Run(EMPTY, stmts[..n][..i]), stmts[..n][i]) {
        assert stmts[..n][..i] == stmts[..i];
      }
      PostedDriftZero(stmts[..n]);
      TotalsAgreeRun(EMPTY, stmts[..n]);
      if stmts[n].PostToGl? {
        SoundPostBalances(Run(EMPTY, stmts[..n]), stmts[n]);
      }
    }
  }

  /** The trial balance: total debits equal total credits, however often entries are posted. */
  lemma {:induction false} TrialBalance(stmts: seq<Stmt>)
    requires RunIsSound(EMPTY, stmts)
    requires forall i | 0 <= i < |stmts| :: SoundPost(Run(EMPTY, stmts[..i]), stmts[i])
    ensures GlSum(Run(EMPTY, stmts).gl, Debit) == GlSum(Run(EMPTY, stmts).gl, Credit)
  {
    assert GlDrift(Run(EMPTY, stmts)) == 0 by {
      PostedDriftZero(stmts);
      DriftFromEmpty(stmts);
    }
  }

  lemma {:induction false} DriftFromEmpty(stmts: seq<Stmt>)
    ensures GlDrift(Run(EMPTY, stmts)) == PostedDrift(EMPTY, stmts)
  {
    DriftIsPostedImbalance(EMPTY, stmts);
  }
}
