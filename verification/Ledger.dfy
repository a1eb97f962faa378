/** The ledger tables and what each SQL statement on them accepts and changes.
    A statement either changes the tables as a whole or leaves them as they were. */
module Ledger {
  import opened Options
  import opened Sql
  import opened Table

  // ---- Rows ----

  datatype HeaderInfo = HeaderInfo(date: int, sourceModule: Option<string>, sourceId: Option<Id>,
                                   currency: Option<string>, rate: Option<int>, createdBy: Option<string>)

  datatype Header = Header(number: string, totalDebit: Option<int>, totalCredit: Option<int>,
                           status: Option<string>, info: HeaderInfo)

  datatype LineInfo = LineInfo(costCenter: Option<string>, vendor: Option<Id>, customer: Option<Id>,
                               job: Option<Id>, branch: Option<Id>)

  datatype Line = Line(entry: Id, lineNo: int, account: Id, debit: Option<int>, credit: Option<int>,
                       active: Option<bool>, info: LineInfo)

  datatype Account = Account(code: string)

  datatype GlRow = GlRow(lineId: Id, entry: Id, lineNo: int, account: Id, code: string,
                         debit: Option<int>, credit: Option<int>, status: Option<string>,
                         headerInfo: HeaderInfo, lineInfo: LineInfo, poster: Option<string>)

  datatype Db = Db(headers: seq<Row<Header>>, lines: seq<Row<Line>>,
                   accounts: seq<Row<Account>>, gl: seq<GlRow>)

  const EMPTY := Db([], [], [], [])

  const POSTED := Some("POSTED")

  function NumberOf(r: Row<Header>): string { r.cols.number }

  function LineKey(r: Row<Line>): (Id, int) { (r.cols.entry, r.cols.lineNo) }

  function CodeOf(r: Row<Account>): string { r.cols.code }

  // ---- CHECK constraints ----

  /** A total that is set is positive, and two that are set are equal; one may be NULL alone. */
  predicate HeaderOk(h: Header): (ok: bool)
    ensures ok <==>
              && (h.totalDebit.Some? ==> 0 < h.totalDebit.value <= 99_999_999_999_999)
              && (h.totalCredit.Some? ==> 0 < h.totalCredit.value <= 99_999_999_999_999)
              && (h.totalDebit.Some? && h.totalCredit.Some? ==> h.totalDebit == h.totalCredit)
  {
    var td, tc := h.totalDebit, h.totalCredit;
    && Fits(td) && Fits(tc)
    && Passes(Or(And(IsNull(td), IsNull(tc)), Eq(td, tc)))
    && Passes(Or(IsNull(td), Ge(td, 0)))
    && Passes(Or(IsNull(tc), Ge(tc, 0)))
    && Passes(Or(And(IsNull(td), IsNull(tc)), And(Gt(td, 0), Gt(tc, 0))))
  }

  /** An amount that is set is not negative, and of two that are set exactly one is zero. */
  predicate LineOk(l: Line): (ok: bool)
    ensures ok <==>
              && (l.debit.Some? ==> 0 <= l.debit.value <= 99_999_999_999_999)
              && (l.credit.Some? ==> 0 <= l.credit.value <= 99_999_999_999_999)
              && (l.debit.Some? && l.credit.Some? ==> (l.debit.value == 0) != (l.credit.value == 0))
  {
    var d, c := l.debit, l.credit;
    && Fits(d) && Fits(c)
    && Passes(Ge(d, 0))
    && Passes(Ge(c, 0))
    && Passes(Or(And(Gt(d, 0), Eq(c, Some(0))), And(Eq(d, Some(0)), Gt(c, 0))))
  }

  // ---- Sums over lines ----

  datatype Side = Debit | Credit

  datatype Scope = ActiveOnly | InactiveOnly | AllLines

  predicate InScope(l: Line, scope: Scope) {
    match scope
    case ActiveOnly => l.active == Some(true)
    case InactiveOnly => l.active != Some(true)
    case AllLines => true
  }

  function Amount(l: Line, side: Side): int {
    var a := if side == Debit then l.debit else l.credit;
    if a.Some? then a.value else 0
  }

  function Weigh(l: Line, entry: Id, side: Side, scope: Scope): int {
    if l.entry == entry && InScope(l, scope) then Amount(l, side) else 0
  }

  /** COALESCE(SUM(amount), 0) over the lines of an entry; SUM skips NULL. */
  function Sum(lines: seq<Row<Line>>, entry: Id, side: Side, scope: Scope): int {
    if |lines| == 0 then 0
    else Sum(lines[..|lines| - 1], entry, side, scope) + Weigh(lines[|lines| - 1].cols, entry, side, scope)
  }

  predicate HasLines(lines: seq<Row<Line>>, entry: Id) {
    exists i | 0 <= i < |lines| :: lines[i].cols.entry == entry
  }

  function EntryLines(lines: seq<Row<Line>>, entry: Id): (r: seq<Row<Line>>) {
    if |lines| == 0 then []
    else
      var front := EntryLines(lines[..|lines| - 1], entry);
      if lines[|lines| - 1].cols.entry == entry then front + [lines[|lines| - 1]] else front
  }

  // ---- What the triggers look for ----

  predicate TotalsSet(h: Header) {
    h.totalDebit.Some? && h.totalCredit.Some?
  }

  predicate TotalsMatch(h: Header, lines: seq<Row<Line>>, entry: Id) {
    TotalsSet(h) ==>
      && h.totalDebit.value == Sum(lines, entry, Debit, ActiveOnly)
      && h.totalCredit.value == Sum(lines, entry, Credit, ActiveOnly)
  }

  /** The entry has no header, has an unset total, or agrees with its active lines. */
  predicate EntryMatches(headers: seq<Row<Header>>, lines: seq<Row<Line>>, entry: Id) {
    var h := Find(headers, entry);
    h.Some? ==> TotalsMatch(h.value, lines, entry)
  }

  predicate Posted(headers: seq<Row<Header>>, entry: Id) {
    var h := Find(headers, entry);
    h.Some? && h.value.status == POSTED
  }

  // ---- Posting ----

  function GlRowOf(l: Row<Line>, h: Row<Header>, code: string, poster: Option<string>): GlRow {
    GlRow(l.id, h.id, l.cols.lineNo, l.cols.account, code, l.cols.debit, l.cols.credit,
          h.cols.status, h.cols.info, l.cols.info, poster)
  }

  function JoinAccounts(l: Row<Line>, h: Row<Header>, accounts: seq<Row<Account>>, poster: Option<string>): seq<GlRow> {
    if |accounts| == 0 then []
    else
      var a := accounts[|accounts| - 1];
      var front := JoinAccounts(l, h, accounts[..|accounts| - 1], poster);
      if l.cols.account == a.id then front + [GlRowOf(l, h, a.cols.code, poster)] else front
  }

  function JoinHeaders(l: Row<Line>, headers: seq<Row<Header>>, accounts: seq<Row<Account>>, entry: Id,
                       poster: Option<string>): seq<GlRow> {
    if |headers| == 0 then []
    else
      var h := headers[|headers| - 1];
      var front := JoinHeaders(l, headers[..|headers| - 1], accounts, entry, poster);
      if l.cols.entry == h.id && h.id == entry then front + JoinAccounts(l, h, accounts, poster) else front
  }

  /** lines JOIN headers JOIN accounts WHERE je_id = entry. */
  function Join(lines: seq<Row<Line>>, headers: seq<Row<Header>>, accounts: seq<Row<Account>>, entry: Id,
                poster: Option<string>): seq<GlRow> {
    if |lines| == 0 then []
    else
      Join(lines[..|lines| - 1], headers, accounts, entry, poster)
      + JoinHeaders(lines[|lines| - 1], headers, accounts, entry, poster)
  }

  // ---- Statements ----

  datatype Stmt =
    | InsertHeaders(newHeaders: seq<Row<Header>>)
    | UpdateHeaders(headerVersions: seq<Row<Header>>)
    | DeleteHeaders(headerIds: seq<Id>)
    | InsertLines(newLines: seq<Row<Line>>)
    | UpdateLines(lineVersions: seq<Row<Line>>)
    | DeleteLines(lineIds: seq<Id>)
    | PostToGl(entry: Id, poster: Option<string>)
    | InsertAccount(newAccount: Row<Account>)
    | UpdateAccount(accountVersion: Row<Account>)
    | DeleteAccount(accountId: Id)

  /** ON DELETE CASCADE from headers to lines. */
  function DropEntries(lines: seq<Row<Line>>, entries: seq<Id>): (r: seq<Row<Line>>)
    ensures forall x :: x in r <==> x in lines && x.cols.entry !in entries
  {
    if |lines| == 0 then []
    else
      var front := DropEntries(lines[..|lines| - 1], entries);
      if lines[|lines| - 1].cols.entry in entries then front else front + [lines[|lines| - 1]]
  }

  /** The row of a line statement passes its BEFORE trigger, its CHECKs and its foreign keys. */
  predicate LineRowOk(db: Db, l: Line) {
    && !Posted(db.headers, l.entry)
    && LineOk(l)
    && Has(db.headers, l.entry)
    && Has(db.accounts, l.account)
  }

  predicate HeaderRowOk(db: Db, h: Row<Header>) {
    && !Posted(db.headers, h.id)
    && TotalsMatch(h.cols, db.lines, h.id)
    && HeaderOk(h.cols)
  }

  predicate AcceptsInsertLines(db: Db, rows: seq<Row<Line>>) {
    var final := db.lines + rows;
    && (forall i | 0 <= i < |rows| :: LineRowOk(db, rows[i].cols))
    && Unique(final, IdOf) && Unique(final, LineKey)
    && (forall i | 0 <= i < |rows| :: EntryMatches(db.headers, final, rows[i].cols.entry))
  }

  /** The checks on an UPDATE of lines that look at its rows as a set. */
  predicate LineVersionsOk(db: Db, rows: seq<Row<Line>>) {
    var final := PutAll(db.lines, rows);
    && IsSelection(db.lines, rows)
    && (forall i | 0 <= i < |rows| :: LineRowOk(db, rows[i].cols))
    && Unique(final, LineKey)
    && (forall i | 0 <= i < |rows| :: EntryMatches(db.headers, final, rows[i].cols.entry))
  }

  predicate AcceptsDeleteLines(db: Db, ids: seq<Id>) {
    forall l | l in db.lines && l.id in ids ::
      && !Posted(db.headers, l.cols.entry)
      && EntryMatches(db.headers, Drop(db.lines, ids), l.cols.entry)
  }

  predicate Accepts(db: Db, s: Stmt) {
    match s
    case InsertHeaders(rows) =>
      && (forall i | 0 <= i < |rows| :: HeaderOk(rows[i].cols))
      && Unique(db.headers + rows, IdOf) && Unique(db.headers + rows, NumberOf)
    case UpdateHeaders(rows) =>
      && IsSelection(db.headers, rows)
      && (forall i | 0 <= i < |rows| :: HeaderRowOk(db, rows[i]))
      && UniqueThroughout(db.headers, rows, NumberOf)
    case DeleteHeaders(ids) => true
    case InsertLines(rows) => AcceptsInsertLines(db, rows)
    case UpdateLines(rows) => LineVersionsOk(db, rows) && UniqueThroughout(db.lines, rows, LineKey)
    case DeleteLines(ids) => AcceptsDeleteLines(db, ids)
    case PostToGl(entry, poster) => true
    case InsertAccount(a) =>
      Unique(db.accounts + [a], IdOf) && Unique(db.accounts + [a], CodeOf)
    case UpdateAccount(a) =>
      Has(db.accounts, a.id) && Unique(Put(db.accounts, a), CodeOf)
    case DeleteAccount(id) =>
      && (forall i | 0 <= i < |db.lines| :: db.lines[i].cols.account != id)
      && (forall i | 0 <= i < |db.gl| :: db.gl[i].account != id)
  }

  function Effect(db: Db, s: Stmt): Db {
    match s
    case InsertHeaders(rows) => db.(headers := db.headers + rows)
    case UpdateHeaders(rows) => db.(headers := PutAll(db.headers, rows))
    case DeleteHeaders(ids) => db.(headers := Drop(db.headers, ids), lines := DropEntries(db.lines, ids))
    case InsertLines(rows) => db.(lines := db.lines + rows)
    case UpdateLines(rows) => db.(lines := PutAll(db.lines, rows))
    case DeleteLines(ids) => db.(lines := Drop(db.lines, ids))
    case PostToGl(entry, poster) =>
      db.(gl := db.gl + Join(db.lines, db.headers, db.accounts, entry, poster))
    case InsertAccount(a) => db.(accounts := db.accounts + [a])
    case UpdateAccount(a) => db.(accounts := Put(db.accounts, a))
    case DeleteAccount(id) => db.(accounts := Drop(db.accounts, [id]))
  }

  /** A refused statement is rolled back. */
  function Next(db: Db, s: Stmt): Db {
    if Accepts(db, s) then Effect(db, s) else db
  }

  function Run(db: Db, stmts: seq<Stmt>): Db {
    if |stmts| == 0 then db
    else Next(Run(db, stmts[..|stmts| - 1]), stmts[|stmts| - 1])
  }
}
