/** The ledger as the database runs it: row by row, with triggers, and with rollback. Each
    statement is proved to be the set-level step of module Ledger. */
module LedgerEngine {
  import opened Options
  import opened Sql
  import opened Table
  import opened Ledger
  import opened LedgerInvariants
  import opened LedgerPosting
  import opened LedgerActive

  lemma {:induction false} NotUnique<T, K>(all: seq<T>, j: nat, n: nat, key: T -> K)
    requires j < n < |all| && key(all[j]) == key(all[n])
    ensures !Unique(all, key)
  {
  }

  lemma {:induction false} PrefixOfUnique<T, K>(s: seq<T>, rows: seq<T>, n: nat, key: T -> K)
    requires n <= |rows|
    ensures Unique(s + rows, key) ==> Unique(s + rows[..n], key)
  {
    if Unique(s + rows, key) {
      UniquePrefix(s + rows, key, |s| + n);
      assert (s + rows)[..|s| + n] == s + rows[..n];
    }
  }

  lemma {:induction false} DropDrop<T(!new)>(t: seq<Row<T>>, ids: seq<Id>, id: Id)
    ensures Drop(Drop(t, ids), [id]) == Drop(t, ids + [id])
  {
    if |t| > 0 {
      var n := |t| - 1;
      DropDrop(t[..n], ids, id);
      if t[n].id !in ids {
        var d := Drop(t[..n], ids);
        assert (d + [t[n]])[..|d|] == d;
      }
    }
  }

  lemma {:induction false} DropNone<T(!new)>(t: seq<Row<T>>)
    ensures Drop(t, []) == t
  {
    if |t| > 0 {
      DropNone(t[..|t| - 1]);
    }
  }

  lemma {:induction false} DropAbsent<T(!new)>(t: seq<Row<T>>, id: Id)
    requires forall i | 0 <= i < |t| :: t[i].id != id
    ensures Drop(t, [id]) == t
  {
    if |t| > 0 {
      var n := |t| - 1;
      DropAbsent(t[..n], id);
      assert t[n].id !in [id];
      assert t == t[..n] + [t[n]];
    }
  }

  lemma {:induction false} DropIsDropEntries(t: seq<Row<Line>>, ids: seq<Id>, entries: seq<Id>)
    requires forall l | l in t :: l.id in ids <==> l.cols.entry in entries
    ensures Drop(t, ids) == DropEntries(t, entries)
  {
    if |t| > 0 {
      DropIsDropEntries(t[..|t| - 1], ids, entries);
    }
  }

  lemma {:induction false} DropEntriesTwice(t: seq<Row<Line>>, entries: seq<Id>, entry: Id)
    ensures DropEntries(DropEntries(t, entries), [entry]) == DropEntries(t, entries + [entry])
  {
    if |t| > 0 {
      var n := |t| - 1;
      DropEntriesTwice(t[..n], entries, entry);
      if t[n].cols.entry !in entries {
        var d := DropEntries(t[..n], entries);
        assert (d + [t[n]])[..|d|] == d;
      }
    }
  }

  lemma {:induction false} DropEntriesNone(t: seq<Row<Line>>)
    ensures DropEntries(t, []) == t
  {
    if |t| > 0 {
      DropEntriesNone(t[..|t| - 1]);
    }
  }

  lemma {:induction false} IdsOfEntry(t: seq<Row<Line>>, entry: Id)
    requires Unique(t, IdOf)
    ensures forall l | l in t :: l.id in Ids(EntryLines(t, entry)) <==> l.cols.entry in [entry]
  {
    var mine := EntryLines(t, entry);
    EntryLinesIn(t, entry);
    forall l | l in t ensures l.id in Ids(mine) <==> l.cols.entry == entry {
      FindByRow(t, l);
      if l.cols.entry == entry {
        assert l in mine;
        var k :| 0 <= k < |mine| && mine[k] == l;
        assert Ids(mine)[k] == l.id;
      }
      if l.id in Ids(mine) {
        var k :| 0 <= k < |mine| && Ids(mine)[k] == l.id;
        assert mine[k] in mine;
        FindByRow(t, mine[k]);
      }
    }
  }

  /** The rows of t that have one of these ids, in some order. */
  ghost predicate AreRows<T(!new)>(deleted: seq<Row<T>>, t: seq<Row<T>>, ids: seq<Id>) {
    forall l :: l in deleted <==> l in t && l.id in ids
  }

  function Picked<T>(t: seq<Row<T>>, id: Id): seq<Row<T>> {
    var l := Find(t, id);
    if l.Some? then [Row(id, l.value)] else []
  }

  /** What a removal finds after earlier ones is the row of that id, unless an earlier one took it. */
  lemma {:induction false} DeletedStep<T(!new)>(t: seq<Row<T>>, ids: seq<Id>, id: Id, deleted: seq<Row<T>>)
    requires Unique(t, IdOf) && AreRows(deleted, t, ids)
    ensures AreRows(deleted + Picked(Drop(t, ids), id), t, ids + [id])
  {
    var d := Drop(t, ids);
    forall l | l in t && l.id == id
      ensures Find(d, id).Some? ==> l == Row(id, Find(d, id).value)
      ensures Find(d, id).None? ==> id in ids
    {
      FindByRow(t, l);
      if Find(d, id).Some? {
        FindByRow(t, Row(id, Find(d, id).value));
      } else if id !in ids {
        HasDrop(t, ids, id);
      }
    }
  }

  predicate NonePosted(headers: seq<Row<Header>>, rows: seq<Row<Line>>) {
    forall l | l in rows :: !Posted(headers, l.cols.entry)
  }

  /** The triggers of the deleted rows check what the set-level step checks. */
  lemma {:induction false} DeleteChecks(db: Db, ids: seq<Id>, deleted: seq<Row<Line>>)
    requires forall l | l in deleted :: l in db.lines && l.id in ids
    ensures !NonePosted(db.headers, deleted) ==> !AcceptsDeleteLines(db, ids)
    ensures AreRows(deleted, db.lines, ids) && NonePosted(db.headers, deleted) ==>
              (AcceptsDeleteLines(db, ids)
               <==> forall k | 0 <= k < |deleted| ::
                      EntryMatches(db.headers, Drop(db.lines, ids), deleted[k].cols.entry))
  {
    hide Posted, EntryMatches, Drop;
  }

  class Engine {
    var headers: seq<Row<Header>>
    var lines: seq<Row<Line>>
    var accounts: seq<Row<Account>>
    var gl: seq<GlRow>

    function Tables(): Db
      reads this
    {
      Db(headers, lines, accounts, gl)
    }

    constructor ()
      ensures Tables() == EMPTY && Consistent(Tables())
    {
      headers, lines, accounts, gl := [], [], [], [];
    }

    // ---- Triggers ----

    /** BEFORE UPDATE on headers: a POSTED entry cannot be modified. */
    method PreventPostedModification(was: Header) returns (raised: bool)
      ensures raised <==> was.status == POSTED
    {
      raised := was.status == POSTED;
    }

    /** BEFORE INSERT, UPDATE or DELETE on lines: the new je_id counts, or the old one of a DELETE. */
    method PreventPostedLines(newEntry: Option<Id>, oldEntry: Option<Id>) returns (raised: bool)
      requires newEntry.Some? || oldEntry.Some?
      ensures raised <==> Posted(headers, Coalesce(newEntry, oldEntry).value)
      ensures Unique(headers, IdOf) ==>
                (raised <==> HasPosted(headers, if newEntry.Some? then newEntry.value else oldEntry.value))
    {
      if Unique(headers, IdOf) {
        PostedIs(headers, Coalesce(newEntry, oldEntry).value);
      }
      var status: Option<string> := None;
      var found := Find(headers, Coalesce(newEntry, oldEntry).value);
      if found.Some? {
        status := found.value.status;
      }
      raised := status == POSTED;
    }

    /** BEFORE UPDATE on headers. The sums go into numeric(14,2) variables, which may overflow. */
    method ValidateHeaderTotals(entry: Id, row: Header) returns (raised: bool)
      requires Fits(row.totalDebit) && Fits(row.totalCredit)
      ensures raised <==> !TotalsMatch(row, lines, entry)
      ensures raised <==>
                && row.totalDebit.Some? && row.totalCredit.Some?
                && (row.totalDebit.value != Debits(ActiveLines(lines, entry))
                    || row.totalCredit.value != Credits(ActiveLines(lines, entry)))
    {
      MatchIsFit(row, lines, entry);
      raised := false;
      if row.totalDebit.Some? && row.totalCredit.Some? {
        var sumDebit := Sum(lines, entry, Debit, ActiveOnly);
        var sumCredit := Sum(lines, entry, Credit, ActiveOnly);
        if !FitsNumeric(sumDebit) || !FitsNumeric(sumCredit) {
          raised := true;
        } else if row.totalDebit.value != sumDebit {
          raised := true;
        } else if row.totalCredit.value != sumCredit {
          raised := true;
        }
      }
    }

    /** AFTER INSERT, UPDATE or DELETE on lines. */
    method ValidateLineTotals(newEntry: Option<Id>, oldEntry: Option<Id>) returns (raised: bool)
      requires newEntry.Some? || oldEntry.Some?
      requires HeadersOk(headers)
      ensures raised <==> !EntryMatches(headers, lines, Coalesce(newEntry, oldEntry).value)
      ensures raised <==> !HeaderFits(headers, lines, if newEntry.Some? then newEntry.value else oldEntry.value)
    {
      MatchesIs(headers, lines, Coalesce(newEntry, oldEntry).value);
      var entry := Coalesce(newEntry, oldEntry).value;
      var headerDebit: Option<int>, headerCredit: Option<int> := None, None;
      var found := Find(headers, entry);
      if found.Some? {
        headerDebit, headerCredit := found.value.totalDebit, found.value.totalCredit;
        assert HeaderOk(found.value);
      }
      raised := false;
      if headerDebit.Some? && headerCredit.Some? {
        var sumDebit := Sum(lines, entry, Debit, ActiveOnly);
        var sumCredit := Sum(lines, entry, Credit, ActiveOnly);
        if !FitsNumeric(sumDebit) || !FitsNumeric(sumCredit) {
          raised := true;
        } else if headerDebit.value != sumDebit {
          raised := true;
        } else if headerCredit.value != sumCredit {
          raised := true;
        }
      }
    }

    // ---- Headers ----

    method InsertHeaderRow(row: Row<Header>) returns (ok: bool)
      requires Unique(headers, IdOf) && Unique(headers, NumberOf)
      modifies this`headers
      ensures ok <==> HeaderOk(row.cols) && Unique(old(headers) + [row], IdOf) && Unique(old(headers) + [row], NumberOf)
      ensures headers == if ok then old(headers) + [row] else old(headers)
    {
      if !HeaderOk(row.cols) {
        return false;
      }
      if j :| 0 <= j < |headers| && (headers[j].id == row.id || headers[j].cols.number == row.cols.number) {
        ghost var all := headers + [row];
        assert all[j] == headers[j] && all[|headers|] == row;
        if headers[j].id == row.id {
          NotUnique(all, j, |headers|, IdOf);
        } else {
          NotUnique(all, j, |headers|, NumberOf);
        }
        return false;
      }
      UniqueAppend(headers, row, IdOf);
      UniqueAppend(headers, row, NumberOf);
      headers := headers + [row];
      return true;
    }

    method InsertHeaderRows(rows: seq<Row<Header>>) returns (ok: bool)
      requires Unique(headers, IdOf) && Unique(headers, NumberOf)
      modifies this`headers
      ensures ok <==> (forall k | 0 <= k < |rows| :: HeaderOk(rows[k].cols))
                      && Unique(old(headers) + rows, IdOf) && Unique(old(headers) + rows, NumberOf)
      ensures ok ==> headers == old(headers) + rows
    {
      hide HeaderOk;
      var saved := headers;
      var i := 0;
      while i < |rows|
        invariant 0 <= i <= |rows|
        invariant headers == saved + rows[..i]
        invariant Unique(headers, IdOf) && Unique(headers, NumberOf)
        invariant forall k | 0 <= k < i :: HeaderOk(rows[k].cols)
      {
        ok := InsertHeaderRow(rows[i]);
        assert saved + rows[..i + 1] == saved + rows[..i] + [rows[i]];
        if !ok {
          PrefixOfUnique(saved, rows, i + 1, IdOf);
          PrefixOfUnique(saved, rows, i + 1, NumberOf);
          return;
        }
        i := i + 1;
      }
      assert rows[..i] == rows;
      return true;
    }

    method InsertHeaders(rows: seq<Row<Header>>) returns (ok: bool)
      requires Consistent(Tables())
      modifies this
      ensures ok <==> Accepts(old(Tables()), Stmt.InsertHeaders(rows))
      ensures Tables() == Next(old(Tables()), Stmt.InsertHeaders(rows)) && Consistent(Tables())
      ensures !ok ==> Tables() == old(Tables())
      ensures ok ==> headers == old(headers) + rows && lines == old(lines)
    {
      ConsistentNext(Tables(), Stmt.InsertHeaders(rows));
      var saved := headers;
      ok := InsertHeaderRows(rows);
      if !ok {
        headers := saved;
      }
    }

    method UpdateHeaderRow(was: Header, row: Row<Header>) returns (ok: bool)
      requires Unique(headers, IdOf) && Unique(headers, NumberOf) && Has(headers, row.id)
      modifies this`headers
      ensures ok <==> was.status != POSTED && TotalsMatch(row.cols, lines, row.id) && HeaderOk(row.cols)
                      && Unique(Put(old(headers), row), NumberOf)
      ensures headers == if ok then Put(old(headers), row) else old(headers)
    {
      var raised := PreventPostedModification(was);
      if raised || !Fits(row.cols.totalDebit) || !Fits(row.cols.totalCredit) {
        return false;
      }
      raised := ValidateHeaderTotals(row.id, row.cols);
      if raised || !HeaderOk(row.cols) {
        return false;
      }
      PutClash(headers, row, NumberOf);
      if j :| 0 <= j < |headers| && headers[j].id != row.id && headers[j].cols.number == row.cols.number {
        assert NumberOf(headers[j]) == NumberOf(row);
        return false;
      }
      headers := Put(headers, row);
      return true;
    }

    method UpdateHeaderRows(rows: seq<Row<Header>>) returns (ok: bool)
      requires Unique(headers, IdOf) && Unique(headers, NumberOf) && IsSelection(headers, rows)
      modifies this`headers
      ensures ok <==> (forall k | 0 <= k < |rows| ::
                         !Posted(old(headers), rows[k].id) && TotalsMatch(rows[k].cols, lines, rows[k].id)
                         && HeaderOk(rows[k].cols))
                      && UniqueThroughout(old(headers), rows, NumberOf)
      ensures ok ==> headers == PutAll(old(headers), rows)
    {
      hide PutAll, Put, Unique, UniqueThroughout, HeaderOk, TotalsMatch, Sum;
      var saved := headers;
      ThroughoutNone(headers, rows, NumberOf);
      var i := 0;
      while i < |rows|
        invariant 0 <= i <= |rows|
        invariant headers == PutAll(saved, rows[..i]) && Unique(headers, NumberOf)
        invariant UniqueThroughout(saved, rows[..i], NumberOf)
        invariant forall k | 0 <= k < i ::
                    !Posted(saved, rows[k].id) && TotalsMatch(rows[k].cols, lines, rows[k].id)
                    && HeaderOk(rows[k].cols)
      {
        UniqueSameIds(saved, headers);
        HasSameIds(saved, headers, rows[i].id);
        PutAllStep(saved, rows, i);
        ThroughoutStep(saved, rows, i, NumberOf);
        ok := UpdateHeaderRow(Find(saved, rows[i].id).value, rows[i]);
        if !ok {
          return;
        }
        i := i + 1;
      }
      assert rows[..i] == rows;
      return true;
    }

    /** The rows are those the WHERE clause selects, each as the SET clause makes it. */
    method UpdateHeaders(rows: seq<Row<Header>>) returns (ok: bool)
      requires Consistent(Tables()) && IsSelection(headers, rows)
      modifies this
      ensures ok <==> Accepts(old(Tables()), Stmt.UpdateHeaders(rows))
      ensures Tables() == Next(old(Tables()), Stmt.UpdateHeaders(rows)) && Consistent(Tables())
      ensures !ok ==> Tables() == old(Tables())
      ensures ok ==> Replaced(old(headers), rows, headers) && lines == old(lines)
    {
      ConsistentNext(Tables(), Stmt.UpdateHeaders(rows));
      PutAllReplaces(headers, rows);
      var saved := headers;
      ok := UpdateHeaderRows(rows);
      if !ok {
        headers := saved;
      }
    }

    // ---- Lines ----

    /** BEFORE trigger, CHECKs and unique indexes of one inserted line. */
    method InsertLineRow(row: Row<Line>) returns (ok: bool)
      requires Unique(lines, IdOf) && Unique(lines, LineKey)
      modifies this`lines
      ensures ok <==> !Posted(headers, row.cols.entry) && LineOk(row.cols)
                      && Unique(old(lines) + [row], IdOf) && Unique(old(lines) + [row], LineKey)
      ensures lines == if ok then old(lines) + [row] else old(lines)
    {
      var raised := PreventPostedLines(Some(row.cols.entry), None);
      if raised || !LineOk(row.cols) {
        return false;
      }
      if j :| 0 <= j < |lines| && (lines[j].id == row.id || LineKey(lines[j]) == LineKey(row)) {
        ghost var all := lines + [row];
        assert all[j] == lines[j] && all[|lines|] == row;
        if lines[j].id == row.id {
          NotUnique(all, j, |lines|, IdOf);
        } else {
          NotUnique(all, j, |lines|, LineKey);
        }
        return false;
      }
      UniqueAppend(lines, row, IdOf);
      UniqueAppend(lines, row, LineKey);
      lines := lines + [row];
      return true;
    }

    /** Foreign keys and AFTER triggers of written lines, once all rows are in place. */
    method AfterLines(rows: seq<Row<Line>>) returns (ok: bool)
      requires HeadersOk(headers)
      ensures ok <==> forall k | 0 <= k < |rows| ::
                && Has(headers, rows[k].cols.entry) && Has(accounts, rows[k].cols.account)
                && EntryMatches(headers, lines, rows[k].cols.entry)
    {
      var i := 0;
      while i < |rows|
        invariant 0 <= i <= |rows|
        invariant forall k | 0 <= k < i ::
                    && Has(headers, rows[k].cols.entry) && Has(accounts, rows[k].cols.account)
                    && EntryMatches(headers, lines, rows[k].cols.entry)
      {
        if !Has(headers, rows[i].cols.entry) || !Has(accounts, rows[i].cols.account) {
          return false;
        }
        var raised := ValidateLineTotals(Some(rows[i].cols.entry), None);
        if raised {
          return false;
        }
        i := i + 1;
      }
      return true;
    }

    method InsertLineRows(rows: seq<Row<Line>>) returns (ok: bool)
      requires Unique(lines, IdOf) && Unique(lines, LineKey)
      modifies this`lines
      ensures ok <==> (forall k | 0 <= k < |rows| :: !Posted(headers, rows[k].cols.entry) && LineOk(rows[k].cols))
                      && Unique(old(lines) + rows, IdOf) && Unique(old(lines) + rows, LineKey)
      ensures ok ==> lines == old(lines) + rows
    {
      var saved := lines;
      var i := 0;
      while i < |rows|
        invariant 0 <= i <= |rows|
        invariant lines == saved + rows[..i]
        invariant Unique(lines, IdOf) && Unique(lines, LineKey)
        invariant forall k | 0 <= k < i :: !Posted(headers, rows[k].cols.entry) && LineOk(rows[k].cols)
      {
        ok := InsertLineRow(rows[i]);
        assert saved + rows[..i + 1] == saved + rows[..i] + [rows[i]];
        if !ok {
          PrefixOfUnique(saved, rows, i + 1, IdOf);
          PrefixOfUnique(saved, rows, i + 1, LineKey);
          return;
        }
        i := i + 1;
      }
      assert rows[..i] == rows;
      return true;
    }

    method InsertLines(rows: seq<Row<Line>>) returns (ok: bool)
      requires Consistent(Tables())
      modifies this
      ensures ok <==> Accepts(old(Tables()), Stmt.InsertLines(rows))
      ensures Tables() == Next(old(Tables()), Stmt.InsertLines(rows)) && Consistent(Tables())
      ensures !ok ==> Tables() == old(Tables())
      ensures ok ==> headers == old(headers) && lines == old(lines) + rows
    {
      ConsistentNext(Tables(), Stmt.InsertLines(rows));
      var saved := lines;
      ok := InsertLineRows(rows);
      if ok {
        ok := AfterLines(rows);
      }
      if !ok {
        lines := saved;
      }
    }

    method UpdateLineRow(row: Row<Line>) returns (ok: bool)
      requires Unique(lines, IdOf) && Unique(lines, LineKey) && Has(lines, row.id)
      modifies this`lines
      ensures ok <==> !Posted(headers, row.cols.entry) && LineOk(row.cols) && Unique(Put(old(lines), row), LineKey)
      ensures lines == if ok then Put(old(lines), row) else old(lines)
    {
      var raised := PreventPostedLines(Some(row.cols.entry), Some(Find(lines, row.id).value.entry));
      if raised || !LineOk(row.cols) {
        return false;
      }
      PutClash(lines, row, LineKey);
      if j :| 0 <= j < |lines| && lines[j].id != row.id && LineKey(lines[j]) == LineKey(row) {
        return false;
      }
      lines := Put(lines, row);
      return true;
    }

    method UpdateLineRows(rows: seq<Row<Line>>) returns (ok: bool)
      requires Unique(lines, IdOf) && Unique(lines, LineKey) && IsSelection(lines, rows)
      modifies this`lines
      ensures ok <==> (forall k | 0 <= k < |rows| :: !Posted(headers, rows[k].cols.entry) && LineOk(rows[k].cols))
                      && UniqueThroughout(old(lines), rows, LineKey)
      ensures ok ==> lines == PutAll(old(lines), rows)
    {
      hide PutAll, Put, Unique, UniqueThroughout, LineOk, Posted;
      var saved := lines;
      ThroughoutNone(lines, rows, LineKey);
      var i := 0;
      while i < |rows|
        invariant 0 <= i <= |rows|
        invariant lines == PutAll(saved, rows[..i]) && Unique(lines, LineKey)
        invariant UniqueThroughout(saved, rows[..i], LineKey)
        invariant forall k | 0 <= k < i :: !Posted(headers, rows[k].cols.entry) && LineOk(rows[k].cols)
      {
        UniqueSameIds(saved, lines);
        HasSameIds(saved, lines, rows[i].id);
        PutAllStep(saved, rows, i);
        ThroughoutStep(saved, rows, i, LineKey);
        ok := UpdateLineRow(rows[i]);
        if !ok {
          return;
        }
        i := i + 1;
      }
      assert rows[..i] == rows;
      return true;
    }

    /** The rows are those the WHERE clause selects, each as the SET clause makes it. */
    method UpdateLines(rows: seq<Row<Line>>) returns (ok: bool)
      requires Consistent(Tables()) && IsSelection(lines, rows)
      modifies this
      ensures ok <==> Accepts(old(Tables()), Stmt.UpdateLines(rows))
      ensures Tables() == Next(old(Tables()), Stmt.UpdateLines(rows)) && Consistent(Tables())
      ensures !ok ==> Tables() == old(Tables())
      ensures ok ==> headers == old(headers) && Replaced(old(lines), rows, lines)
    {
      ConsistentNext(Tables(), Stmt.UpdateLines(rows));
      PutAllReplaces(lines, rows);
      hide Posted, EntryMatches, LineOk, PutAll, LinesLinked, GlLinked, Replaced;
      var saved := lines;
      assert rows[..|rows|] == rows;
      ok := UpdateLineRows(rows);
      if ok {
        ok := AfterLines(rows);
      }
      if !ok {
        lines := saved;
      }
    }

    /** BEFORE trigger and removal of the line with this id, if there still is one. */
    method DeleteLineRow(id: Id) returns (ok: bool, deleted: seq<Row<Line>>)
      modifies this`lines
      ensures deleted == Picked(old(lines), id)
      ensures ok <==> NonePosted(headers, deleted)
      ensures ok ==> lines == Drop(old(lines), [id])
    {
      var was := Find(lines, id);
      if was.None? {
        DropAbsent(lines, id);
        return true, [];
      }
      deleted := [Row(id, was.value)];
      var raised := PreventPostedLines(None, Some(was.value.entry));
      if raised {
        assert Row(id, was.value) in deleted;
        return false, deleted;
      }
      lines := Drop(lines, [id]);
      ok := true;
    }

    method DeleteLineRows(ids: seq<Id>) returns (ok: bool, deleted: seq<Row<Line>>)
      requires Unique(lines, IdOf)
      modifies this`lines
      ensures ok <==> NonePosted(headers, deleted)
      ensures ok ==> lines == Drop(old(lines), ids)
      ensures forall l | l in deleted :: l in old(lines) && l.id in ids
      ensures ok ==> AreRows(deleted, old(lines), ids)
    {
      hide Drop, Picked, Posted, Find;
      var saved := lines;
      deleted := [];
      DropNone(lines);
      var i := 0;
      while i < |ids|
        invariant 0 <= i <= |ids|
        invariant lines == Drop(saved, ids[..i])
        invariant AreRows(deleted, saved, ids[..i])
        invariant NonePosted(headers, deleted)
      {
        DropDrop(saved, ids[..i], ids[i]);
        DeletedStep(saved, ids[..i], ids[i], deleted);
        assert ids[..i + 1] == ids[..i] + [ids[i]];
        var picked;
        ok, picked := DeleteLineRow(ids[i]);
        deleted := deleted + picked;
        if !ok {
          return;
        }
        i := i + 1;
      }
      assert ids[..i] == ids;
      return true, deleted;
    }

    method DeleteLines(ids: seq<Id>) returns (ok: bool)
      requires Consistent(Tables())
      modifies this
      ensures ok <==> Accepts(old(Tables()), Stmt.DeleteLines(ids))
      ensures Tables() == Next(old(Tables()), Stmt.DeleteLines(ids)) && Consistent(Tables())
      ensures !ok ==> Tables() == old(Tables())
      ensures ok ==> headers == old(headers) && forall l :: l in lines <==> l in old(lines) && l.id !in ids
    {
      ConsistentNext(Tables(), Stmt.DeleteLines(ids));
      hide Posted, EntryMatches, Drop, Unique, LinesLinked, GlLinked, AreRows, NonePosted, AcceptsDeleteLines;
      var saved := lines;
      var deleted;
      ok, deleted := DeleteLineRows(ids);
      DeleteChecks(old(Tables()), ids, deleted);
      if ok {
        ok := AfterDelete(deleted);
      }
      if !ok {
        lines := saved;
      }
    }

    /** AFTER triggers of deleted lines. */
    method AfterDelete(deleted: seq<Row<Line>>) returns (ok: bool)
      requires HeadersOk(headers)
      ensures ok <==> forall k | 0 <= k < |deleted| :: EntryMatches(headers, lines, deleted[k].cols.entry)
    {
      var i := 0;
      while i < |deleted|
        invariant 0 <= i <= |deleted|
        invariant forall k | 0 <= k < i :: EntryMatches(headers, lines, deleted[k].cols.entry)
      {
        var raised := ValidateLineTotals(None, Some(deleted[i].cols.entry));
        if raised {
          return false;
        }
        i := i + 1;
      }
      return true;
    }

    // ---- Header removal and posting ----

    /** The cascade of a removed header: its lines go through their own triggers, none of which
        finds a header, so none raises. */
    method CascadeEntry(entry: Id) returns (ok: bool)
      requires Unique(lines, IdOf) && HeadersOk(headers) && !Has(headers, entry)
      modifies this`lines
      ensures ok && lines == DropEntries(old(lines), [entry])
    {
      var doomed := EntryLines(lines, entry);
      EntryLinesIn(lines, entry);
      IdsOfEntry(lines, entry);
      DropIsDropEntries(lines, Ids(doomed), [entry]);
      var deleted;
      ok, deleted := DeleteLineRows(Ids(doomed));
      ok := AfterDelete(deleted);
    }

    method CascadeEntries(ids: seq<Id>)
      requires Unique(lines, IdOf) && HeadersOk(headers) && forall i | 0 <= i < |ids| :: !Has(headers, ids[i])
      modifies this`lines
      ensures lines == DropEntries(old(lines), ids)
    {
      hide DropEntries, HeadersOk, Sum, Find;
      ghost var saved := lines;
      DropEntriesNone(lines);
      var i := 0;
      while i < |ids|
        invariant 0 <= i <= |ids|
        invariant lines == DropEntries(saved, ids[..i]) && Unique(lines, IdOf)
      {
        DropEntriesTwice(saved, ids[..i], ids[i]);
        assert ids[..i + 1] == ids[..i] + [ids[i]];
        UniqueDropEntries(lines, [ids[i]], IdOf);
        var ok := CascadeEntry(ids[i]);
        i := i + 1;
      }
      assert ids[..i] == ids;
    }

    method DeleteHeaders(ids: seq<Id>) returns (ok: bool)
      requires Consistent(Tables())
      modifies this
      ensures ok && Tables() == Next(old(Tables()), Stmt.DeleteHeaders(ids)) && Consistent(Tables())
      ensures forall h :: h in headers <==> h in old(headers) && h.id !in ids
      ensures forall l :: l in lines <==> l in old(lines) && l.cols.entry !in ids
    {
      ConsistentNext(Tables(), Stmt.DeleteHeaders(ids));
      HeadersOkDrop(headers, ids);
      forall i | 0 <= i < |ids| ensures !Has(Drop(headers, ids), ids[i]) {
        HasDrop(headers, ids, ids[i]);
      }
      headers := Drop(headers, ids);
      CascadeEntries(ids);
      ok := true;
    }

    /** The account rows one line and header are joined with. */
    method PostLine(l: Row<Line>, h: Row<Header>, poster: Option<string>) returns (rows: seq<GlRow>)
      ensures rows == JoinAccounts(l, h, accounts, poster)
    {
      rows := [];
      var i := 0;
      while i < |accounts|
        invariant 0 <= i <= |accounts|
        invariant rows == JoinAccounts(l, h, accounts[..i], poster)
      {
        if l.cols.account == accounts[i].id {
          rows := rows + [GlRowOf(l, h, accounts[i].cols.code, poster)];
        }
        assert accounts[..i + 1][..i] == accounts[..i];
        i := i + 1;
      }
      assert accounts[..i] == accounts;
    }

    method PostLineOfEntry(l: Row<Line>, entry: Id, poster: Option<string>) returns (rows: seq<GlRow>)
      ensures rows == JoinHeaders(l, headers, accounts, entry, poster)
    {
      hide JoinAccounts;
      rows := [];
      var i := 0;
      while i < |headers|
        invariant 0 <= i <= |headers|
        invariant rows == JoinHeaders(l, headers[..i], accounts, entry, poster)
      {
        if l.cols.entry == headers[i].id && headers[i].id == entry {
          var more := PostLine(l, headers[i], poster);
          rows := rows + more;
        }
        assert headers[..i + 1][..i] == headers[..i];
        i := i + 1;
      }
      assert headers[..i] == headers;
    }

    method JoinedRows(entry: Id, poster: Option<string>) returns (rows: seq<GlRow>)
      ensures rows == Join(lines, headers, accounts, entry, poster)
    {
      hide JoinHeaders;
      rows := [];
      var i := 0;
      while i < |lines|
        invariant 0 <= i <= |lines|
        invariant rows == Join(lines[..i], headers, accounts, entry, poster)
      {
        var more := PostLineOfEntry(lines[i], entry, poster);
        rows := rows + more;
        assert lines[..i + 1][..i] == lines[..i];
        i := i + 1;
      }
      assert lines[..i] == lines;
    }

    /** INSERT ... SELECT over the nested loops of the two joins: exactly one copy of each line of
        the entry is appended, in the order of the lines, and nothing for an absent entry. */
    method PostToGl(entry: Id, poster: Option<string>)
      requires Consistent(Tables())
      modifies this`gl
      ensures Tables() == Next(old(Tables()), Stmt.PostToGl(entry, poster)) && Consistent(Tables())
      ensures AccountsLinked(EntryLines(lines, entry), accounts)
      ensures Find(headers, entry).None? ==> gl == old(gl)
      ensures Find(headers, entry).Some? ==>
                var h := Row(entry, Find(headers, entry).value);
                gl == old(gl) + Copies(EntryLines(lines, entry), h, accounts, poster)
    {
      ConsistentNext(Tables(), Stmt.PostToGl(entry, poster));
      JoinIsExact(Tables(), entry, poster);
      hide Join, Copies, EntryLines, Find, Consistent;
      var rows := JoinedRows(entry, poster);
      gl := gl + rows;
    }
  }
}
