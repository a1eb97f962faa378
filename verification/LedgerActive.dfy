/** Which lines the totals triggers add up, and what each ledger statement therefore needs, in terms
    of the tables' own columns. */
module LedgerActive {
  import opened Options
  import opened Sql
  import opened Table
  import opened Ledger
  import opened LedgerSums
  import opened LedgerInvariants

  // ---- The sums, line by line ----

  /** An active line adds its debit and its credit to the active sums of its own entry; a line whose
      flag is FALSE or NULL adds nothing; no line adds to another entry; NULL amounts add nothing. */
  lemma {:induction false} ActiveSumGrows(lines: seq<Row<Line>>, l: Row<Line>, entry: Id)
    ensures Sum(lines + [l], entry, Debit, ActiveOnly) - Sum(lines, entry, Debit, ActiveOnly)
         == if l.cols.entry == entry && l.cols.active == Some(true) && l.cols.debit.Some?
            then l.cols.debit.value else 0
    ensures Sum(lines + [l], entry, Credit, ActiveOnly) - Sum(lines, entry, Credit, ActiveOnly)
         == if l.cols.entry == entry && l.cols.active == Some(true) && l.cols.credit.Some?
            then l.cols.credit.value else 0
    ensures Sum([], entry, Debit, ActiveOnly) == Sum([], entry, Credit, ActiveOnly) == 0
  {
    SumSnoc(lines, l, entry, Debit, ActiveOnly);
    SumSnoc(lines, l, entry, Credit, ActiveOnly);
  }

  /** What a post copies is every line, active or not. */
  lemma {:induction false} FullSumGrows(lines: seq<Row<Line>>, l: Row<Line>, entry: Id)
    ensures Sum(lines + [l], entry, Debit, AllLines) - Sum(lines, entry, Debit, AllLines)
         == if l.cols.entry == entry && l.cols.debit.Some? then l.cols.debit.value else 0
    ensures Sum(lines + [l], entry, Credit, AllLines) - Sum(lines, entry, Credit, AllLines)
         == if l.cols.entry == entry && l.cols.credit.Some? then l.cols.credit.value else 0
    ensures Sum([], entry, Debit, AllLines) == Sum([], entry, Credit, AllLines) == 0
  {
    SumSnoc(lines, l, entry, Debit, AllLines);
    SumSnoc(lines, l, entry, Credit, AllLines);
  }

  /** The lines that WHERE je_id = entry AND is_active = true selects. */
  function ActiveLines(lines: seq<Row<Line>>, entry: Id): seq<Row<Line>> {
    if |lines| == 0 then []
    else
      var front, l := ActiveLines(lines[..|lines| - 1], entry), lines[|lines| - 1];
      if l.cols.entry == entry && l.cols.active == Some(true) then front + [l] else front
  }

  /** COALESCE(SUM(debit_amount), 0) over these lines. */
  function Debits(lines: seq<Row<Line>>): int {
    if |lines| == 0 then 0
    else
      var d := lines[|lines| - 1].cols.debit;
      Debits(lines[..|lines| - 1]) + if d.Some? then d.value else 0
  }

  function Credits(lines: seq<Row<Line>>): int {
    if |lines| == 0 then 0
    else
      var c := lines[|lines| - 1].cols.credit;
      Credits(lines[..|lines| - 1]) + if c.Some? then c.value else 0
  }

  lemma {:induction false} AmountsSnoc(lines: seq<Row<Line>>, l: Row<Line>)
    ensures Debits(lines + [l]) == Debits(lines) + if l.cols.debit.Some? then l.cols.debit.value else 0
    ensures Credits(lines + [l]) == Credits(lines) + if l.cols.credit.Some? then l.cols.credit.value else 0
  {
    assert (lines + [l])[..|lines|] == lines;
  }

  lemma {:induction false} ActiveSums(lines: seq<Row<Line>>, entry: Id)
    ensures Sum(lines, entry, Debit, ActiveOnly) == Debits(ActiveLines(lines, entry))
    ensures Sum(lines, entry, Credit, ActiveOnly) == Credits(ActiveLines(lines, entry))
  {
    if |lines| > 0 {
      var n := |lines| - 1;
      ActiveSums(lines[..n], entry);
      ActiveSumGrows(lines[..n], lines[n], entry);
      AmountsSnoc(ActiveLines(lines[..n], entry), lines[n]);
      assert lines == lines[..n] + [lines[n]];
    }
  }

  /** Totals that are both set are the sums over the selected lines. */
  predicate TotalsFit(h: Header, lines: seq<Row<Line>>, entry: Id) {
    h.totalDebit.Some? && h.totalCredit.Some? ==>
      && h.totalDebit.value == Debits(ActiveLines(lines, entry))
      && h.totalCredit.value == Credits(ActiveLines(lines, entry))
  }

  lemma {:induction false} MatchIsFit(h: Header, lines: seq<Row<Line>>, entry: Id)
    ensures TotalsMatch(h, lines, entry) <==> TotalsFit(h, lines, entry)
  {
    ActiveSums(lines, entry);
  }

  // ---- Inactive lines do not count ----

  predicate NoneActive(lines: seq<Row<Line>>) {
    forall i | 0 <= i < |lines| :: lines[i].cols.active != Some(true)
  }

  lemma {:induction false} ActiveLinesAppend(s: seq<Row<Line>>, t: seq<Row<Line>>, entry: Id)
    requires NoneActive(t)
    ensures ActiveLines(s + t, entry) == ActiveLines(s, entry)
  {
    if |t| == 0 {
      assert s + t == s;
    } else {
      var n := |t| - 1;
      assert (s + t)[..|s + t| - 1] == s + t[..n];
      ActiveLinesAppend(s, t[..n], entry);
    }
  }

  lemma {:induction false} ActiveLinesSnoc(s: seq<Row<Line>>, l: Row<Line>, entry: Id)
    ensures ActiveLines(s + [l], entry)
         == if l.cols.entry == entry && l.cols.active == Some(true)
            then ActiveLines(s, entry) + [l] else ActiveLines(s, entry)
  {
    assert (s + [l])[..|s|] == s;
  }

  lemma {:induction false} ActiveLinesDrop(s: seq<Row<Line>>, ids: seq<Id>, entry: Id)
    requires forall i | 0 <= i < |s| && s[i].id in ids :: s[i].cols.active != Some(true)
    ensures ActiveLines(Drop(s, ids), entry) == ActiveLines(s, entry)
  {
    if |s| > 0 {
      var n := |s| - 1;
      ActiveLinesDrop(s[..n], ids, entry);
      ActiveLinesSnoc(Drop(s[..n], ids), s[n], entry);
    }
  }

  /** Adding lines that are not active, or dropping such lines, changes neither trigger's answer for
      any header. */
  lemma {:induction false} InactiveLinesDoNotCount(headers: seq<Row<Header>>, lines: seq<Row<Line>>,
                                                   more: seq<Row<Line>>, ids: seq<Id>, h: Header, entry: Id)
    requires NoneActive(more)
    requires forall i | 0 <= i < |lines| && lines[i].id in ids :: lines[i].cols.active != Some(true)
    ensures TotalsMatch(h, lines + more, entry) <==> TotalsMatch(h, lines, entry)
    ensures TotalsMatch(h, Drop(lines, ids), entry) <==> TotalsMatch(h, lines, entry)
    ensures EntryMatches(headers, lines + more, entry) <==> EntryMatches(headers, lines, entry)
    ensures EntryMatches(headers, Drop(lines, ids), entry) <==> EntryMatches(headers, lines, entry)
  {
    hide ActiveLines, Debits, Credits, Sum, Drop;
    ActiveLinesAppend(lines, more, entry);
    ActiveLinesDrop(lines, ids, entry);
    ActiveSums(lines, entry);
    ActiveSums(lines + more, entry);
    ActiveSums(Drop(lines, ids), entry);
  }

  // ---- What each statement needs ----

  predicate HasPosted(headers: seq<Row<Header>>, entry: Id) {
    exists i | 0 <= i < |headers| :: headers[i].id == entry && headers[i].cols.status == Some("POSTED")
  }

  predicate HasOpen(headers: seq<Row<Header>>, entry: Id) {
    exists i | 0 <= i < |headers| :: headers[i].id == entry && headers[i].cols.status != Some("POSTED")
  }

  /** The header of the entry, if there is one, has totals that fit the lines. */
  predicate HeaderFits(headers: seq<Row<Header>>, lines: seq<Row<Line>>, entry: Id) {
    forall i | 0 <= i < |headers| && headers[i].id == entry :: TotalsFit(headers[i].cols, lines, entry)
  }

  lemma {:induction false} PostedIs(headers: seq<Row<Header>>, entry: Id)
    requires Unique(headers, IdOf)
    ensures Posted(headers, entry) <==> HasPosted(headers, entry)
  {
    forall i | 0 <= i < |headers| && headers[i].id == entry
      ensures Find(headers, entry) == Some(headers[i].cols)
    {
      FindUnique(headers, i);
    }
  }

  lemma {:induction false} MatchesIs(headers: seq<Row<Header>>, lines: seq<Row<Line>>, entry: Id)
    requires Unique(headers, IdOf)
    ensures EntryMatches(headers, lines, entry) <==> HeaderFits(headers, lines, entry)
  {
    forall i | 0 <= i < |headers| && headers[i].id == entry
      ensures Find(headers, entry) == Some(headers[i].cols)
    {
      FindUnique(headers, i);
    }
    forall i | 0 <= i < |headers| { MatchIsFit(headers[i].cols, lines, entry); }
  }

  /** CHECK, foreign-key and status requirements of a line to be written. */
  predicate Writable(db: Db, l: Line) {
    && (l.debit.Some? ==> 0 <= l.debit.value <= 99_999_999_999_999)
    && (l.credit.Some? ==> 0 <= l.credit.value <= 99_999_999_999_999)
    && (l.debit.Some? && l.credit.Some? ==> (l.debit.value == 0 <==> l.credit.value > 0))
    && HasOpen(db.headers, l.entry)
    && exists a | a in db.accounts :: a.id == l.account
  }

  lemma {:induction false} RowOkIsWritable(db: Db, l: Line)
    requires Unique(db.headers, IdOf)
    ensures LineRowOk(db, l) <==> Writable(db, l)
  {
    PostedIs(db.headers, l.entry);
    forall i | 0 <= i < |db.headers| && db.headers[i].id == l.entry
      ensures Find(db.headers, l.entry) == Some(db.headers[i].cols)
    {
      FindUnique(db.headers, i);
    }
    assert Has(db.accounts, l.account) <==> exists a | a in db.accounts :: a.id == l.account;
  }

  predicate LinesDistinct(lines: seq<Row<Line>>) {
    forall i, j | 0 <= i < j < |lines| ::
      && lines[i].id != lines[j].id
      && (lines[i].cols.entry == lines[j].cols.entry ==> lines[i].cols.lineNo != lines[j].cols.lineNo)
  }

  lemma {:induction false} DistinctIs(lines: seq<Row<Line>>)
    ensures Unique(lines, IdOf) && Unique(lines, LineKey) <==> LinesDistinct(lines)
  {
    if Unique(lines, IdOf) && Unique(lines, LineKey) {
      forall i, j | 0 <= i < j < |lines|
        ensures lines[i].id != lines[j].id && LineKey(lines[i]) != LineKey(lines[j])
      {
        assert IdOf(lines[i]) != IdOf(lines[j]);
      }
    }
  }

  /** An INSERT of lines, of any number, is accepted if and only if every row passes its CHECKs and
      has an account and a header that is not POSTED, ids and line numbers stay distinct, and every
      header that gains a line has totals that fit its active lines afterwards. */
  lemma {:induction false} InsertLinesAcceptedIff(db: Db, rows: seq<Row<Line>>)
    requires Consistent(db)
    ensures Accepts(db, InsertLines(rows)) <==>
              && (forall k | 0 <= k < |rows| ::
                    Writable(db, rows[k].cols) && HeaderFits(db.headers, db.lines + rows, rows[k].cols.entry))
              && LinesDistinct(db.lines + rows)
  {
    hide Writable, LineRowOk, EntryMatches, HeaderFits, LinesDistinct, Unique;
    DistinctIs(db.lines + rows);
    forall k | 0 <= k < |rows|
      ensures LineRowOk(db, rows[k].cols) <==> Writable(db, rows[k].cols)
      ensures EntryMatches(db.headers, db.lines + rows, rows[k].cols.entry)
         <==> HeaderFits(db.headers, db.lines + rows, rows[k].cols.entry)
    {
      RowOkIsWritable(db, rows[k].cols);
      MatchesIs(db.headers, db.lines + rows, rows[k].cols.entry);
    }
  }

  /** The checks of an UPDATE of lines on its rows as a set, likewise: they are versions of distinct
      lines that pass their CHECKs and have an account and a header that is not POSTED, line numbers
      stay distinct, and every header a version names has totals that fit its lines afterwards. */
  lemma {:induction false} LineVersionsOkIff(db: Db, rows: seq<Row<Line>>)
    requires Consistent(db)
    ensures LineVersionsOk(db, rows) <==>
              && (forall k | 0 <= k < |rows| ::
                    && Writable(db, rows[k].cols)
                    && HeaderFits(db.headers, PutAll(db.lines, rows), rows[k].cols.entry)
                    && exists l | l in db.lines :: l.id == rows[k].id)
              && (forall k, m | 0 <= k < m < |rows| :: rows[k].id != rows[m].id)
              && LinesDistinct(PutAll(db.lines, rows))
  {
    hide Writable, LineRowOk, EntryMatches, HeaderFits, LinesDistinct, PutAll;
    DistinctIs(PutAll(db.lines, rows));
    UniqueSameIds(db.lines, PutAll(db.lines, rows));
    SelectionIs(db.lines, rows);
    forall k | 0 <= k < |rows|
      ensures LineRowOk(db, rows[k].cols) <==> Writable(db, rows[k].cols)
      ensures EntryMatches(db.headers, PutAll(db.lines, rows), rows[k].cols.entry)
         <==> HeaderFits(db.headers, PutAll(db.lines, rows), rows[k].cols.entry)
    {
      RowOkIsWritable(db, rows[k].cols);
      MatchesIs(db.headers, PutAll(db.lines, rows), rows[k].cols.entry);
    }
  }

  lemma {:induction false} SelectionIs<T(!new)>(t: seq<Row<T>>, rows: seq<Row<T>>)
    ensures IsSelection(t, rows) <==>
              && (forall k | 0 <= k < |rows| :: exists r | r in t :: r.id == rows[k].id)
              && (forall k, m | 0 <= k < m < |rows| :: rows[k].id != rows[m].id)
  {
    if IsSelection(t, rows) {
      forall k, m | 0 <= k < m < |rows| ensures rows[k].id != rows[m].id {
        assert IdOf(rows[k]) != IdOf(rows[m]);
      }
    }
    forall k | 0 <= k < |rows| ensures Has(t, rows[k].id) <==> exists r | r in t :: r.id == rows[k].id {
      if i :| 0 <= i < |t| && t[i].id == rows[k].id { assert t[i] in t; }
    }
  }

  /** A DELETE of lines is accepted if and only if none of them belongs to a POSTED entry and every
      header that loses one has totals that fit the active lines that stay. */
  lemma {:induction false} DeleteLinesAcceptedIff(db: Db, ids: seq<Id>)
    requires Consistent(db)
    ensures Accepts(db, DeleteLines(ids)) <==>
              forall l | l in db.lines && l.id in ids ::
                && !HasPosted(db.headers, l.cols.entry)
                && HeaderFits(db.headers, Drop(db.lines, ids), l.cols.entry)
  {
    hide Posted, HasPosted, EntryMatches, HeaderFits, Drop;
    forall l | l in db.lines && l.id in ids
      ensures Posted(db.headers, l.cols.entry) <==> HasPosted(db.headers, l.cols.entry)
      ensures EntryMatches(db.headers, Drop(db.lines, ids), l.cols.entry)
         <==> HeaderFits(db.headers, Drop(db.lines, ids), l.cols.entry)
    {
      PostedIs(db.headers, l.cols.entry);
      MatchesIs(db.headers, Drop(db.lines, ids), l.cols.entry);
    }
  }

  /** An UPDATE of one header is accepted if and only if the header is there and not POSTED, the new
      totals fit its active lines and pass the CHECKs, and no other header has the new number. */
  lemma {:induction false} UpdateHeaderAcceptedIff(db: Db, v: Row<Header>)
    requires Consistent(db)
    ensures Accepts(db, UpdateHeaders([v])) <==>
              && HasOpen(db.headers, v.id)
              && TotalsFit(v.cols, db.lines, v.id)
              && (v.cols.totalDebit.Some? ==> 0 < v.cols.totalDebit.value <= 99_999_999_999_999)
              && (v.cols.totalCredit.Some? ==> 0 < v.cols.totalCredit.value <= 99_999_999_999_999)
              && (v.cols.totalDebit.Some? && v.cols.totalCredit.Some? ==> v.cols.totalDebit == v.cols.totalCredit)
              && (forall h | h in db.headers && h.id != v.id :: h.cols.number != v.cols.number)
  {
    hide Unique, TotalsMatch, TotalsFit, HeaderRowOk;
    MatchIsFit(v.cols, db.lines, v.id);
    OneRow(db, v);
    OpenIs(db.headers, v.id);
    HeaderRowIs(db, v);
    if Has(db.headers, v.id) {
      NoneHasKey(db.headers, v, NumberOf);
    }
  }

  lemma {:induction false} HeaderRowIs(db: Db, v: Row<Header>)
    ensures HeaderRowOk(db, v) <==>
              !Posted(db.headers, v.id) && TotalsMatch(v.cols, db.lines, v.id) && HeaderOk(v.cols)
  {
  }

  lemma {:induction false} OpenIs(headers: seq<Row<Header>>, entry: Id)
    requires Unique(headers, IdOf)
    ensures Has(headers, entry) && !Posted(headers, entry) <==> HasOpen(headers, entry)
  {
    forall i | 0 <= i < |headers| && headers[i].id == entry
      ensures Find(headers, entry) == Some(headers[i].cols)
    {
      FindUnique(headers, i);
    }
  }

  lemma {:induction false} OneRow(db: Db, v: Row<Header>)
    requires Unique(db.headers, NumberOf)
    ensures Accepts(db, UpdateHeaders([v])) <==>
              Has(db.headers, v.id) && HeaderRowOk(db, v) && Unique(Put(db.headers, v), NumberOf)
  {
    hide HeaderRowOk, Put, Unique;
    var rows := [v];
    assert Unique(rows, IdOf) by { SingleUnique(v); }
    assert rows[..0] == [] && rows[..1] == rows && rows[0] == v;
    assert PutAll(db.headers, []) == db.headers;
    assert PutAll(db.headers, rows) == Put(db.headers, v);
    if Unique(Put(db.headers, v), NumberOf) {
      forall k | 0 <= k <= 1 ensures Unique(PutAll(db.headers, rows[..k]), NumberOf) {
        if k == 1 { assert rows[..k] == rows; } else { assert rows[..k] == []; }
      }
    }
  }

  lemma {:induction false} SingleUnique<T>(r: Row<T>)
    ensures Unique([r], IdOf)
  {
  }

  /** The same as PutClash, over the rows of the table. */
  lemma {:induction false} NoneHasKey<T(!new), K>(t: seq<Row<T>>, v: Row<T>, key: Row<T> -> K)
    requires Unique(t, IdOf) && Unique(t, key) && Has(t, v.id)
    ensures Unique(Put(t, v), key) <==> forall r | r in t && r.id != v.id :: key(r) != key(v)
  {
    PutClash(t, v, key);
  }

  lemma {:induction false} UniqueAdded<T(!new), K>(s: seq<T>, x: T, key: T -> K)
    requires Unique(s, key)
    ensures Unique(s + [x], key) <==> forall y | y in s :: key(y) != key(x)
  {
    var all := s + [x];
    if Unique(all, key) {
      forall y | y in s ensures key(y) != key(x) {
        var i :| 0 <= i < |s| && s[i] == y;
        assert all[i] == y && all[|s|] == x && key(all[i]) != key(all[|s|]);
      }
    }
  }

  /** An INSERT of headers is accepted if and only if each passes the CHECKs and neither an id nor a
      number occurs twice. A DELETE of headers is never refused. */
  lemma {:induction false} InsertHeadersAcceptedIff(db: Db, rows: seq<Row<Header>>, ids: seq<Id>)
    ensures Accepts(db, InsertHeaders(rows)) <==>
              && (forall k | 0 <= k < |rows| :: HeaderOk(rows[k].cols))
              && (forall i, j | 0 <= i < j < |db.headers + rows| ::
                    && (db.headers + rows)[i].id != (db.headers + rows)[j].id
                    && (db.headers + rows)[i].cols.number != (db.headers + rows)[j].cols.number)
    ensures Accepts(db, DeleteHeaders(ids))
  {
    var all := db.headers + rows;
    if Unique(all, IdOf) && Unique(all, NumberOf) {
      forall i, j | 0 <= i < j < |all| ensures all[i].id != all[j].id && all[i].cols.number != all[j].cols.number {
        assert IdOf(all[i]) != IdOf(all[j]) && NumberOf(all[i]) != NumberOf(all[j]);
      }
    }
  }

  /** An account is added when its id and code are new. */
  lemma {:induction false} InsertAccountIff(db: Db, a: Row<Account>)
    requires AccountsOk(db.accounts)
    ensures Accepts(db, InsertAccount(a)) <==>
              forall b | b in db.accounts :: b.id != a.id && b.cols.code != a.cols.code
    ensures Effect(db, InsertAccount(a)) == db.(accounts := db.accounts + [a])
  {
    hide Unique;
    UniqueAdded(db.accounts, a, IdOf);
    UniqueAdded(db.accounts, a, CodeOf);
  }

  /** An account is renamed when it exists and no other has the code, and no other changes. */
  lemma {:induction false} UpdateAccountIff(db: Db, a: Row<Account>)
    requires AccountsOk(db.accounts)
    ensures Accepts(db, UpdateAccount(a)) <==>
              && (exists b | b in db.accounts :: b.id == a.id)
              && (forall b | b in db.accounts && b.id != a.id :: b.cols.code != a.cols.code)
    ensures Effect(db, UpdateAccount(a)) == db.(accounts := Effect(db, UpdateAccount(a)).accounts)
    ensures forall b | b in Effect(db, UpdateAccount(a)).accounts :: b == a || (b in db.accounts && b.id != a.id)
    ensures forall b | b in db.accounts :: (if b.id == a.id then a else b) in Effect(db, UpdateAccount(a)).accounts
  {
    hide Unique, Put;
    PutMembers(db.accounts, a);
    assert Has(db.accounts, a.id) <==> exists b | b in db.accounts :: b.id == a.id;
    if Has(db.accounts, a.id) {
      NoneHasKey(db.accounts, a, CodeOf);
    }
  }

  /** An account is deleted when no line and no ledger row refers to it, and no other goes. */
  lemma {:induction false} DeleteAccountIff(db: Db, id: Id)
    ensures Accepts(db, DeleteAccount(id)) <==>
              (forall l | l in db.lines :: l.cols.account != id) && (forall g | g in db.gl :: g.account != id)
    ensures Effect(db, DeleteAccount(id)) == db.(accounts := Effect(db, DeleteAccount(id)).accounts)
    ensures forall b :: b in Effect(db, DeleteAccount(id)).accounts <==> b in db.accounts && b.id != id
  {
  }

  lemma {:induction false} PutMembers<T(!new)>(t: seq<Row<T>>, row: Row<T>)
    ensures forall r | r in Put(t, row) :: r == row || (r in t && r.id != row.id)
    ensures forall r | r in t :: (if r.id == row.id then row else r) in Put(t, row)
  {
    var u := Put(t, row);
    forall r | r in u ensures r == row || (r in t && r.id != row.id) {
      var i :| 0 <= i < |u| && u[i] == r;
      assert t[i] in t;
    }
    forall r | r in t ensures (if r.id == row.id then row else r) in u {
      var i :| 0 <= i < |t| && t[i] == r;
      assert u[i] in u;
    }
  }

  // ---- What each statement leaves ----

  /** u is t with each row that has a version replaced by it. */
  predicate Replaced<T(==)>(t: seq<Row<T>>, rows: seq<Row<T>>, u: seq<Row<T>>) {
    && |u| == |t|
    && (forall i, k | 0 <= i < |t| && 0 <= k < |rows| && rows[k].id == t[i].id :: u[i] == rows[k])
    && (forall i | 0 <= i < |t| && (forall k | 0 <= k < |rows| :: rows[k].id != t[i].id) :: u[i] == t[i])
  }

  lemma {:induction false} PutAllReplaces<T>(t: seq<Row<T>>, rows: seq<Row<T>>)
    requires Unique(rows, IdOf)
    ensures Replaced(t, rows, PutAll(t, rows))
  {
    hide PutAll;
    forall i, k | 0 <= i < |t| && 0 <= k < |rows| && rows[k].id == t[i].id ensures PutAll(t, rows)[i] == rows[k] {
      PutAllHit(t, rows, i, k);
    }
    forall i | 0 <= i < |t| && (forall k | 0 <= k < |rows| :: rows[k].id != t[i].id)
      ensures PutAll(t, rows)[i] == t[i]
    {
      PutAllMiss(t, rows, i);
    }
  }
}
