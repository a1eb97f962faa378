/** Concrete runs that show where the guarantees of the ledger end. */
module LedgerExamples {
  import opened Options
  import opened Sql
  import opened Table
  import opened Ledger
  import opened LedgerInvariants
  import opened LedgerPosting
  import opened LedgerSnapshot
  import opened LedgerWorkflow
  import opened LedgerAgreement
  import opened LedgerMoves
  import opened LedgerApi
  import opened LedgerOrder

  const INFO := HeaderInfo(20240101, None, None, None, None, None)
  const DIMS := LineInfo(None, None, None, None, None)

  function MakeLine(id: Id, entry: Id, lineNo: int, debit: int, credit: int): Row<Line> {
    Row(id, Line(entry, lineNo, 1, Some(debit), Some(credit), Some(true), DIMS))
  }

  const CASH := Row(1, Account("1000"))

  // ---- Posting does not require balance ----

  /** Exactly one total is NULL: the CHECKs pass, and the triggers treat the totals as unset. */
  const HALF_SET := Row(1, Header("JE-1", Some(500), None, Some("CREATED"), INFO))

  const HALF_DB := Db([HALF_SET], [MakeLine(1, 1, 1, 100, 0)], [CASH], [])

  const HALF_RUN := [InsertAccount(CASH), InsertHeaders([HALF_SET]), InsertLines([MakeLine(1, 1, 1, 100, 0)])]

  lemma {:induction false} HalfSetAccepted()
    ensures Accepts(EMPTY, HALF_RUN[0])
    ensures Accepts(EMPTY.(accounts := [CASH]), HALF_RUN[1])
    ensures Accepts(EMPTY.(accounts := [CASH], headers := [HALF_SET]), HALF_RUN[2])
  {
    var before := EMPTY.(accounts := [CASH], headers := [HALF_SET]);
    assert before.headers[0].id == 1 && before.accounts[0].id == 1;
    assert Find(before.headers, 1) == Some(HALF_SET.cols);
    assert LineRowOk(before, MakeLine(1, 1, 1, 100, 0).cols);
  }

  lemma {:induction false} HalfSetRun()
    ensures Run(EMPTY, HALF_RUN) == HALF_DB
  {
    HalfSetAccepted();
    assert HALF_RUN[..0] == [];
    assert HALF_RUN[..1][..0] == [] && HALF_RUN[..2][..1] == HALF_RUN[..1] && HALF_RUN[..3] == HALF_RUN;
    assert Run(EMPTY, HALF_RUN[..1]) == EMPTY.(accounts := [CASH]);
    assert Run(EMPTY, HALF_RUN[..2]) == EMPTY.(accounts := [CASH], headers := [HALF_SET]);
  }

  /** An entry with an unset total can hold a single debit, and posting it puts the general
      ledger out of balance. */
  lemma {:induction false} UnsetTotalsPostUnbalanced(poster: Option<string>)
    ensures Run(EMPTY, HALF_RUN) == HALF_DB
    ensures GlDrift(Next(HALF_DB, PostToGl(1, poster))) == 100
  {
    HalfSetRun();
    ConsistentRun(EMPTY, HALF_RUN);
    PostSums(HALF_DB, 1, poster, Debit);
    PostSums(HALF_DB, 1, poster, Credit);
    assert HALF_DB.lines[..0] == [];
  }

  /** That run uses only the service's own queries once the account exists: a line is inserted,
      and its post is the one row of the general ledger. */
  lemma {:induction false} ApiPostsHalfSet(poster: Option<string>)
    ensures IsAccountStep(HALF_RUN[0]) && IsApiCall(HALF_RUN[1]) && IsApiCall(HALF_RUN[2])
    ensures Run(EMPTY, HALF_RUN + [PostToGl(1, poster)])
         == HALF_DB.(gl := [GlRowOf(HALF_DB.lines[0], HALF_SET, "1000", poster)])
  {
    HalfSetRun();
    var run := HALF_RUN + [PostToGl(1, poster)];
    assert run[..3] == HALF_RUN;
    var l := HALF_DB.lines[0];
    var g := GlRowOf(l, HALF_SET, "1000", poster);
    assert [l][..0] == [] && [HALF_SET][..0] == [] && [CASH][..0] == [];
    assert JoinAccounts(l, HALF_SET, [], poster) == [] && JoinAccounts(l, HALF_SET, [CASH], poster) == [g];
    assert JoinHeaders(l, [], [CASH], 1, poster) == [] && JoinHeaders(l, [HALF_SET], [CASH], 1, poster) == [g];
    assert Join([], [HALF_SET], [CASH], 1, poster) == [] && Join([l], [HALF_SET], [CASH], 1, poster) == [g];
    assert Next(HALF_DB, PostToGl(1, poster)) == HALF_DB.(gl := [g]);
  }

  // ---- A posted entry can lose a line to another entry ----

  const DRAFT := Row(1, Header("JE-1", None, None, Some("CREATED"), INFO))

  const BALANCED := Row(1, Header("JE-1", Some(100), Some(100), POSTED, INFO))

  const OPEN := Row(2, Header("JE-2", None, None, Some("CREATED"), INFO))

  const ROWS := [MakeLine(1, 1, 1, 100, 0), MakeLine(2, 1, 2, 0, 100)]

  const OPEN_DB := Db([OPEN], [], [CASH], [])

  const POSTED_DB := Db([OPEN, BALANCED], ROWS, [CASH], [])

  const SETUP := [InsertAccount(CASH), InsertHeaders([OPEN])]

  const MOVE := [MakeLine(2, 2, 1, 0, 100)]

  lemma {:induction false} SetupRun()
    ensures Run(EMPTY, SETUP) == OPEN_DB
  {
    assert SETUP[..0] == [] && SETUP[..1][..0] == [];
    assert HeaderOk(OPEN.cols);
    assert Run(EMPTY, SETUP[..1]) == EMPTY.(accounts := [CASH]);
    assert Accepts(EMPTY.(accounts := [CASH]), SETUP[1]);
  }

  lemma {:induction false} RowSums()
    ensures Sum(ROWS, 1, Debit, ActiveOnly) == 100
    ensures Sum(ROWS, 1, Credit, ActiveOnly) == 100
  {
    assert ROWS[..1][..0] == [] && ROWS[..1][0] == ROWS[0];
  }

  lemma {:induction false} RowKeys(rows: seq<Row<Line>>)
    requires rows == ROWS
    ensures Unique(rows, IdOf) && Unique(rows, LineKey)
    ensures forall k | 0 <= k < |rows| ::
              rows[k].cols.entry == 1 && LineOk(rows[k].cols) && Has(OPEN_DB.accounts, rows[k].cols.account)
  {
    assert OPEN_DB.accounts[0].id == 1;
  }

  lemma {:induction false} RowsAddable()
    ensures Addable(OPEN_DB, DRAFT, ROWS, 100)
  {
    hide Sum, Unique, LineOk;
    RowSums();
    RowKeys(ROWS);
    assert OPEN_DB.lines + ROWS == ROWS;
    assert OPEN_DB.headers[0].cols.number[3] != DRAFT.cols.number[3];
  }

  /** The workflow up to POSTED leads there from the empty tables. */
  lemma {:induction false} PostedDbReached()
    ensures Run(EMPTY, SETUP + Script(DRAFT, ROWS, 100, None)[..5]) == POSTED_DB
  {
    var script := Script(DRAFT, ROWS, 100, None);
    SetupRun();
    ConsistentRun(EMPTY, SETUP);
    RowsAddable();
    RunAppend(EMPTY, SETUP, script[..5]);
    RunReachesStage(OPEN_DB, DRAFT, ROWS, 100, None, 5);
    assert AsPosted(WithTotals(DRAFT, 100)) == BALANCED;
    assert OPEN_DB.lines + ROWS == ROWS;
  }

  lemma {:induction false} PostedDbFits()
    ensures Consistent(POSTED_DB) && TotalsAgree(POSTED_DB)
  {
    hide Sum;
    RowSums();
    assert POSTED_DB.headers[1].id == 1 && POSTED_DB.headers[0].id == 2 && POSTED_DB.accounts[0].id == 1;
    assert HeaderOk(BALANCED.cols) && HeaderOk(OPEN.cols);
    assert !HasLines(POSTED_DB.lines, 2);
  }

  lemma {:induction false} MovedLines()
    ensures PutAll(POSTED_DB.lines, MOVE) == [POSTED_DB.lines[0], MOVE[0]]
  {
    assert MOVE[..0] == [];
    assert PutAll(POSTED_DB.lines, []) == POSTED_DB.lines;
  }

  lemma {:induction false} MoveAccepted()
    ensures Accepts(POSTED_DB, UpdateLines(MOVE))
  {
    hide Sum;
    var db := POSTED_DB;
    MovedLines();
    assert db.headers[0].id == 2 && db.accounts[0].id == 1 && db.lines[1].id == 2;
    assert db.headers[..1] == [OPEN] && Find([OPEN], 2) == Some(OPEN.cols);
    assert LineRowOk(db, MOVE[0].cols);
    assert MOVE[..0] == [] && MOVE[..1] == MOVE;
    assert PutAll(db.lines, []) == db.lines;
  }

  lemma {:induction false} PostedHeader()
    ensures Posted(POSTED_DB.headers, 1)
  {
    assert Find(POSTED_DB.headers, 1) == Some(BALANCED.cols);
  }

  lemma {:induction false} MoveDisagrees(after: Db)
    requires after == POSTED_DB.(lines := [POSTED_DB.lines[0], MOVE[0]])
    ensures !TotalsAgree(after)
  {
    assert after.lines[..1][..0] == [] && after.lines[..1] == [POSTED_DB.lines[0]];
    assert Sum([POSTED_DB.lines[0]], 1, Credit, ActiveOnly) == 0;
    assert after.headers[1] == BALANCED && after.lines[0].cols.entry == 1;
  }

  /** The workflow posts an entry, then one of its lines is moved to an open one: the UPDATE is accepted although the
      posted entry is left with a header that its lines contradict. */
  lemma {:induction false} PostedLineCanBeMoved()
    ensures Run(EMPTY, SETUP + Script(DRAFT, ROWS, 100, None)[..5]) == POSTED_DB
    ensures Consistent(POSTED_DB) && TotalsAgree(POSTED_DB) && Posted(POSTED_DB.headers, 1)
    ensures Accepts(POSTED_DB, UpdateLines(MOVE))
    ensures !MoveIsSound(POSTED_DB, MOVE) && !TotalsAgree(Next(POSTED_DB, UpdateLines(MOVE)))
  {
    PostedDbReached();
    PostedDbFits();
    PostedHeader();
    MoveAccepted();
    MovedLines();
    MoveDisagrees(Next(POSTED_DB, UpdateLines(MOVE)));
    MoveKeepsTotalsIff(POSTED_DB, MOVE);
  }

  // ---- Renumbering lines depends on the row order ----

  const DRAFT_DB := Db([OPEN], [MakeLine(1, 2, 1, 100, 0), MakeLine(2, 2, 2, 0, 100)], [CASH], [])

  const FIRST_TO_TWO := MakeLine(1, 2, 2, 100, 0)

  const SECOND_TO_THREE := MakeLine(2, 2, 3, 0, 100)

  lemma {:induction false} Renumbered(rows: seq<Row<Line>>)
    requires rows == [SECOND_TO_THREE, FIRST_TO_TWO] || rows == [FIRST_TO_TWO, SECOND_TO_THREE]
    ensures PutAll(DRAFT_DB.lines, rows) == [FIRST_TO_TWO, SECOND_TO_THREE]
  {
    assert rows[..1][..0] == [] && rows[..1] == [rows[0]];
    assert PutAll(DRAFT_DB.lines, []) == DRAFT_DB.lines;
  }

  lemma {:induction false} RenumberRowsOk(rows: seq<Row<Line>>)
    requires rows == [SECOND_TO_THREE, FIRST_TO_TWO] || rows == [FIRST_TO_TWO, SECOND_TO_THREE]
    ensures LineVersionsOk(DRAFT_DB, rows)
  {
    hide PutAll, Sum;
    var db := DRAFT_DB;
    Renumbered(rows);
    assert db.lines[0].id == 1 && db.lines[1].id == 2 && db.headers[0].id == 2 && db.accounts[0].id == 1;
    assert Find(db.headers, 2) == Some(OPEN.cols);
    assert LineRowOk(db, FIRST_TO_TWO.cols) && LineRowOk(db, SECOND_TO_THREE.cols);
  }

  /** UPDATE ... SET line_no = line_no + 1 passes all set-level checks, yet it is accepted when the
      rows are visited from the last and refused when they are visited from the first. */
  lemma {:induction false} RenumberingDependsOnOrder()
    ensures LineVersionsOk(DRAFT_DB, [FIRST_TO_TWO, SECOND_TO_THREE])
    ensures Accepts(DRAFT_DB, UpdateLines([SECOND_TO_THREE, FIRST_TO_TWO]))
    ensures !Accepts(DRAFT_DB, UpdateLines([FIRST_TO_TWO, SECOND_TO_THREE]))
  {
    hide LineVersionsOk, Sum, Find;
    var down, up := [SECOND_TO_THREE, FIRST_TO_TWO], [FIRST_TO_TWO, SECOND_TO_THREE];
    RenumberRowsOk(down);
    RenumberRowsOk(up);
    Renumbered(down);
    var ls := DRAFT_DB.lines;
    assert down[..0] == [] && down[..1] == [SECOND_TO_THREE] && down[..2] == down;
    assert PutAll(ls, []) == ls;
    assert [SECOND_TO_THREE][..0] == [] && [FIRST_TO_TWO][..0] == [];
    assert PutAll(ls, [SECOND_TO_THREE]) == [ls[0], SECOND_TO_THREE];
    assert up[..1] == [FIRST_TO_TWO];
    assert PutAll(ls, [FIRST_TO_TWO]) == [FIRST_TO_TWO, ls[1]];
    var t := PutAll(ls, up[..1]);
    assert LineKey(t[0]) == LineKey(t[1]);
  }

  const SWAP := [FIRST_TO_TWO, MakeLine(2, 2, 1, 0, 100)]

  lemma {:induction false} SwapTakesKeys()
    ensures TakesKeyOf(DRAFT_DB.lines, SWAP[1], SWAP[0]) && TakesKeyOf(DRAFT_DB.lines, SWAP[0], SWAP[1])
  {
    var ls := DRAFT_DB.lines;
    assert ls[..1] == [ls[0]] && Find([ls[0]], 1) == Some(ls[0].cols);
  }

  /** Swapping two line numbers in one UPDATE is refused in every row order. */
  lemma {:induction false} SwapAlwaysRefused(rows: seq<Row<Line>>)
    requires multiset(rows) == multiset(SWAP)
    ensures !Accepts(DRAFT_DB, UpdateLines(rows))
  {
    hide TakesKeyOf, Accepts, LineVersionsOk;
    var s := {SWAP[0], SWAP[1]};
    SwapTakesKeys();
    assert TakenWithin(DRAFT_DB.lines, s, SWAP[0]) && TakenWithin(DRAFT_DB.lines, s, SWAP[1]);
    assert AllFrom(s, SWAP) && Circle(DRAFT_DB.lines, s);
    UpdateAcceptedInSomeOrderIff(DRAFT_DB, SWAP);
  }
}
