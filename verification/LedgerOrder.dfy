/** Multi-row line statements: the order in which the executor visits the rows. */
module LedgerOrder {
  import opened Options
  import opened Sql
  import opened Table
  import opened Ledger
  import opened LedgerSums
  import opened LedgerInvariants

  // ---- UPDATE ----

  /** The row that `row` is the new version of has this (je_id, line_no) before the UPDATE. */
  predicate HeldBefore(lines: seq<Row<Line>>, row: Row<Line>, key: (Id, int)) {
    var l := Find(lines, row.id);
    l.Some? && LineKey(Row(row.id, l.value)) == key
  }

  /** No version takes a key that a row visited after it still has. */
  predicate NoKeyTooEarly(lines: seq<Row<Line>>, rows: seq<Row<Line>>) {
    forall k, m | 0 <= k < m < |rows| :: !HeldBefore(lines, rows[m], LineKey(rows[k]))
  }

  /** No version takes the key of another row of the same UPDATE. */
  predicate NoKeyTaken(lines: seq<Row<Line>>, rows: seq<Row<Line>>) {
    forall k, m | 0 <= k < |rows| && 0 <= m < |rows| && k != m :: !HeldBefore(lines, rows[m], LineKey(rows[k]))
  }

  /** No version changes the (je_id, line_no) of its row. */
  predicate KeepsLineKeys(lines: seq<Row<Line>>, rows: seq<Row<Line>>) {
    forall k | 0 <= k < |rows| :: Has(lines, rows[k].id) ==> HeldBefore(lines, rows[k], LineKey(rows[k]))
  }

  lemma {:induction false} RowsPermuted<T>(rows: seq<T>, other: seq<T>, k: nat)
    requires multiset(rows) == multiset(other) && k < |other|
    ensures other[k] in rows
  {
    assert other[k] in multiset(other);
    assert other[k] in multiset(rows);
  }

  lemma {:induction false} VersionsOkPermuted(db: Db, rows: seq<Row<Line>>, other: seq<Row<Line>>)
    requires multiset(rows) == multiset(other) && LineVersionsOk(db, rows)
    ensures LineVersionsOk(db, other)
    ensures PutAll(db.lines, rows) == PutAll(db.lines, other)
  {
    UniquePermuted(rows, other, IdOf);
    PutAllPermuted(db.lines, rows, other);
    forall k | 0 <= k < |other|
      ensures Has(db.lines, other[k].id) && LineRowOk(db, other[k].cols)
      ensures EntryMatches(db.headers, PutAll(db.lines, rows), other[k].cols.entry)
    {
      RowsPermuted(rows, other, k);
      var m :| 0 <= m < |rows| && rows[m] == other[k];
    }
  }

  /** The table once the first n rows are written: a row is as before or as it will be. */
  lemma {:induction false} PartWritten(lines: seq<Row<Line>>, rows: seq<Row<Line>>, n: nat, i: nat)
    requires IsSelection(lines, rows) && n <= |rows| && i < |lines|
    ensures var u, final := PutAll(lines, rows[..n]), PutAll(lines, rows);
            || (u[i] == final[i] == lines[i] && !Has(rows, lines[i].id))
            || (u[i] == lines[i] && exists m | n <= m < |rows| :: rows[m].id == lines[i].id)
            || (u[i] == final[i] && exists k | 0 <= k < n :: rows[k] == u[i])
  {
    hide PutAll;
    UniquePrefix(rows, IdOf, n);
    if m :| 0 <= m < |rows| && rows[m].id == lines[i].id {
      PutAllHit(lines, rows, i, m);
      if m < n {
        assert rows[..n][m] == rows[m];
        PutAllHit(lines, rows[..n], i, m);
      } else {
        forall k | 0 <= k < n ensures rows[..n][k].id != lines[i].id {
          assert IdOf(rows[k]) != IdOf(rows[m]);
        }
        PutAllMiss(lines, rows[..n], i);
      }
    } else {
      assert forall k | 0 <= k < n :: rows[..n][k] == rows[k];
      PutAllMiss(lines, rows, i);
      PutAllMiss(lines, rows[..n], i);
    }
  }

  /** Halfway, a new key can only meet the old key of a row still to be written. */
  lemma {:induction false} KeysApart(lines: seq<Row<Line>>, rows: seq<Row<Line>>, n: nat, i: nat, j: nat)
    requires Unique(lines, IdOf) && Unique(lines, LineKey) && Unique(PutAll(lines, rows), LineKey)
    requires IsSelection(lines, rows) && NoKeyTooEarly(lines, rows) && n <= |rows|
    requires i < |lines| && j < |lines| && i != j
    ensures LineKey(PutAll(lines, rows[..n])[i]) != LineKey(PutAll(lines, rows[..n])[j])
  {
    hide PutAll, IsSelection, Find;
    var u, final := PutAll(lines, rows[..n]), PutAll(lines, rows);
    PartWritten(lines, rows, n, i);
    PartWritten(lines, rows, n, j);
    KeysDiffer(lines, i, j);
    KeysDiffer(final, i, j);
    if k, m :| 0 <= k < n <= m < |rows| && rows[k] == u[i] && rows[m].id == lines[j].id && u[j] == lines[j] {
      FindUnique(lines, j);
      assert !HeldBefore(lines, rows[m], LineKey(rows[k]));
    }
    if k, m :| 0 <= k < n <= m < |rows| && rows[k] == u[j] && rows[m].id == lines[i].id && u[i] == lines[i] {
      FindUnique(lines, i);
      assert !HeldBefore(lines, rows[m], LineKey(rows[k]));
    }
  }

  lemma {:induction false} KeysDiffer(t: seq<Row<Line>>, i: nat, j: nat)
    requires Unique(t, LineKey) && i < |t| && j < |t| && i != j
    ensures LineKey(t[i]) != LineKey(t[j])
  {
  }

  /** A key taken too early breaks uniqueness when it is written. */
  lemma {:induction false} TakenTooEarly(lines: seq<Row<Line>>, rows: seq<Row<Line>>, k: nat, m: nat)
    requires Unique(lines, IdOf) && IsSelection(lines, rows) && k < m < |rows|
    requires HeldBefore(lines, rows[m], LineKey(rows[k]))
    ensures !UniqueThroughout(lines, rows, LineKey)
  {
    hide PutAll;
    var part := rows[..k + 1];
    UniquePrefix(rows, IdOf, k + 1);
    var i :| 0 <= i < |lines| && lines[i].id == rows[k].id;
    var j :| 0 <= j < |lines| && lines[j] == Row(rows[m].id, Find(lines, rows[m].id).value);
    assert IdOf(rows[k]) != IdOf(rows[m]);
    assert part[k] == rows[k];
    PutAllHit(lines, part, i, k);
    forall q | 0 <= q < |part| ensures part[q].id != lines[j].id {
      assert IdOf(rows[q]) != IdOf(rows[m]);
    }
    PutAllMiss(lines, part, j);
    if Unique(PutAll(lines, part), LineKey) {
      KeysDiffer(PutAll(lines, part), i, j);
    }
  }

  /** For the row order at hand: an UPDATE is accepted exactly when its set-level checks hold and
      no version takes a key that a row visited after it still has. */
  lemma {:induction false} UpdateAcceptedIff(db: Db, rows: seq<Row<Line>>)
    requires LinesOk(db.lines)
    ensures Accepts(db, UpdateLines(rows)) <==> LineVersionsOk(db, rows) && NoKeyTooEarly(db.lines, rows)
  {
    hide PutAll, HeldBefore, EntryMatches;
    if LineVersionsOk(db, rows) {
      if NoKeyTooEarly(db.lines, rows) {
        forall n | 0 <= n <= |rows| ensures Unique(PutAll(db.lines, rows[..n]), LineKey) {
          forall i, j | 0 <= i < j < |db.lines|
            ensures LineKey(PutAll(db.lines, rows[..n])[i]) != LineKey(PutAll(db.lines, rows[..n])[j])
          {
            KeysApart(db.lines, rows, n, i, j);
          }
        }
      } else {
        var k, m :| 0 <= k < m < |rows| && HeldBefore(db.lines, rows[m], LineKey(rows[k]));
        TakenTooEarly(db.lines, rows, k, m);
      }
    }
  }

  /** The set-level checks of an UPDATE and the table it leaves do not depend on the row order. */
  lemma {:induction false} UpdateChecksOrderIrrelevant(db: Db, rows: seq<Row<Line>>, other: seq<Row<Line>>)
    requires multiset(rows) == multiset(other)
    ensures LineVersionsOk(db, rows) <==> LineVersionsOk(db, other)
    ensures LineVersionsOk(db, rows) ==> PutAll(db.lines, rows) == PutAll(db.lines, other)
  {
    if LineVersionsOk(db, rows) { VersionsOkPermuted(db, rows, other); }
    if LineVersionsOk(db, other) { VersionsOkPermuted(db, other, rows); }
  }

  lemma {:induction false} NoKeyTakenPermuted(lines: seq<Row<Line>>, rows: seq<Row<Line>>, other: seq<Row<Line>>)
    requires multiset(rows) == multiset(other) && Unique(rows, IdOf) && NoKeyTaken(lines, rows)
    ensures NoKeyTaken(lines, other)
  {
    hide HeldBefore;
    UniquePermuted(rows, other, IdOf);
    forall k, m | 0 <= k < |other| && 0 <= m < |other| && k != m
      ensures !HeldBefore(lines, other[m], LineKey(other[k]))
    {
      RowsPermuted(rows, other, k);
      RowsPermuted(rows, other, m);
      var a :| 0 <= a < |rows| && rows[a] == other[k];
      var b :| 0 <= b < |rows| && rows[b] == other[m];
      assert IdOf(other[if k < m then k else m]) != IdOf(other[if k < m then m else k]);
    }
  }

  lemma {:induction false} SelectionOfVersions(db: Db, rows: seq<Row<Line>>)
    requires LineVersionsOk(db, rows)
    ensures IsSelection(db.lines, rows)
  {
  }

  /** The same rows with two of them visited the other way round. */
  lemma {:induction false} Swapped<T>(rows: seq<T>, k: nat, m: nat)
    requires m < k < |rows|
    ensures multiset(rows[m := rows[k]][k := rows[m]]) == multiset(rows)
  {
  }

  /** In all row orders: an UPDATE is accepted in every one of them exactly when its set-level
      checks hold and no version takes the key of another row of the UPDATE. */
  lemma {:induction false} UpdateAcceptedInEveryOrderIff(db: Db, rows: seq<Row<Line>>)
    requires LinesOk(db.lines)
    ensures (forall other: seq<Row<Line>> | multiset(other) == multiset(rows) :: Accepts(db, UpdateLines(other)))
       <==> LineVersionsOk(db, rows) && NoKeyTaken(db.lines, rows)
  {
    hide HeldBefore, LineVersionsOk, Unique;
    if LineVersionsOk(db, rows) && NoKeyTaken(db.lines, rows) {
      forall other: seq<Row<Line>> | multiset(other) == multiset(rows) ensures Accepts(db, UpdateLines(other)) {
        SelectionOfVersions(db, rows);
        UpdateChecksOrderIrrelevant(db, rows, other);
        NoKeyTakenPermuted(db.lines, rows, other);
        UpdateAcceptedIff(db, other);
      }
    } else if LineVersionsOk(db, rows) {
      var k, m :| 0 <= k < |rows| && 0 <= m < |rows| && k != m && HeldBefore(db.lines, rows[m], LineKey(rows[k]));
      if k < m {
        UpdateAcceptedIff(db, rows);
      } else {
        var other := rows[m := rows[k]][k := rows[m]];
        Swapped(rows, k, m);
        assert HeldBefore(db.lines, other[k], LineKey(other[m]));
        UpdateAcceptedIff(db, other);
      }
    } else {
      UpdateAcceptedIff(db, rows);
    }
  }

  /** Such an UPDATE has the same outcome in every row order. */
  lemma {:induction false} UpdateOrderIrrelevant(db: Db, rows: seq<Row<Line>>, other: seq<Row<Line>>)
    requires LinesOk(db.lines) && multiset(rows) == multiset(other) && NoKeyTaken(db.lines, rows)
    ensures Next(db, UpdateLines(rows)) == Next(db, UpdateLines(other))
  {
    hide NoKeyTaken, LineVersionsOk, UniqueThroughout, PutAll;
    UpdateChecksOrderIrrelevant(db, rows, other);
    if LineVersionsOk(db, rows) {
      UpdateAcceptedInEveryOrderIff(db, rows);
    }
  }

  /** An UPDATE that keeps je_id and line_no takes no key, so it is accepted exactly when its
      set-level checks hold, in every row order. */
  lemma {:induction false} KeptKeysAreNotTaken(lines: seq<Row<Line>>, rows: seq<Row<Line>>)
    requires Unique(lines, LineKey) && IsSelection(lines, rows) && KeepsLineKeys(lines, rows)
    ensures NoKeyTaken(lines, rows)
  {
    forall k, m | 0 <= k < |rows| && 0 <= m < |rows| && k != m
      ensures !HeldBefore(lines, rows[m], LineKey(rows[k]))
    {
      var i :| 0 <= i < |lines| && lines[i] == Row(rows[k].id, Find(lines, rows[k].id).value);
      var j :| 0 <= j < |lines| && lines[j] == Row(rows[m].id, Find(lines, rows[m].id).value);
      assert IdOf(rows[if k < m then k else m]) != IdOf(rows[if k < m then m else k]);
      KeysDiffer(lines, i, j);
    }
  }

  /** An UPDATE that keeps je_id and line_no is accepted exactly when its set-level checks hold,
      and has the same outcome in every row order. */
  lemma {:induction false} UpdateIsSetLevel(db: Db, rows: seq<Row<Line>>, other: seq<Row<Line>>)
    requires LinesOk(db.lines) && KeepsLineKeys(db.lines, rows) && multiset(rows) == multiset(other)
    ensures Accepts(db, UpdateLines(rows)) <==> LineVersionsOk(db, rows)
    ensures Next(db, UpdateLines(rows)) == Next(db, UpdateLines(other))
  {
    if LineVersionsOk(db, rows) {
      hide LineVersionsOk, HeldBefore, EntryMatches, PutAll;
      SelectionOfVersions(db, rows);
      KeptKeysAreNotTaken(db.lines, rows);
      UpdateAcceptedIff(db, rows);
      UpdateOrderIrrelevant(db, rows, other);
    } else {
      hide LineVersionsOk, HeldBefore, EntryMatches, PutAll;
      UpdateChecksOrderIrrelevant(db, rows, other);
    }
  }

  // ---- Some row order ----

  predicate TakesKeyOf(lines: seq<Row<Line>>, q: Row<Line>, r: Row<Line>) {
    q != r && HeldBefore(lines, r, LineKey(q))
  }

  predicate TakenWithin(lines: seq<Row<Line>>, s: set<Row<Line>>, r: Row<Line>) {
    exists q | q in s :: TakesKeyOf(lines, q, r)
  }

  /** The old key of every row of the set is taken by another row of the set. */
  predicate Circle(lines: seq<Row<Line>>, s: set<Row<Line>>) {
    s != {} && forall r | r in s :: TakenWithin(lines, s, r)
  }

  predicate AllFrom(s: set<Row<Line>>, rows: seq<Row<Line>>) {
    forall r | r in s :: r in rows
  }

  /** Among the versions there are some that take each other's keys in a circle. */
  ghost predicate Circular(lines: seq<Row<Line>>, rows: seq<Row<Line>>) {
    exists s: set<Row<Line>> | AllFrom(s, rows) :: Circle(lines, s)
  }

  lemma {:induction false} LastIn<T>(t: seq<T>, s: set<T>) returns (m: nat)
    requires exists i | 0 <= i < |t| :: t[i] in s
    ensures m < |t| && t[m] in s && forall k | m < k < |t| :: t[k] !in s
  {
    m := |t| - 1;
    while t[m] !in s
      invariant m < |t| && forall k | m < k < |t| :: t[k] !in s
      decreases m
    {
      m := m - 1;
    }
  }

  lemma {:induction false} TooEarly(lines: seq<Row<Line>>, rows: seq<Row<Line>>, k: nat, m: nat)
    requires k < m < |rows| && HeldBefore(lines, rows[m], LineKey(rows[k]))
    ensures !NoKeyTooEarly(lines, rows)
  {
    hide HeldBefore;
  }

  lemma {:induction false} LastTaken(lines: seq<Row<Line>>, rows: seq<Row<Line>>, s: set<Row<Line>>, m: nat)
    requires AllFrom(s, rows) && m < |rows| && TakenWithin(lines, s, rows[m])
    requires forall k | m < k < |rows| :: rows[k] !in s
    ensures !NoKeyTooEarly(lines, rows)
  {
    hide HeldBefore, NoKeyTooEarly, LineKey;
    var q :| q in s && TakesKeyOf(lines, q, rows[m]);
    assert q in rows;
    var k :| 0 <= k < |rows| && rows[k] == q;
    TooEarly(lines, rows, k, m);
  }

  /** The row of a circle that is visited last has its key taken by one visited before it. */
  lemma {:induction false} CircleTakesEarly(lines: seq<Row<Line>>, rows: seq<Row<Line>>)
    requires Circular(lines, rows)
    ensures !NoKeyTooEarly(lines, rows)
  {
    hide TakenWithin, NoKeyTooEarly;
    var s: set<Row<Line>> :| AllFrom(s, rows) && Circle(lines, s);
    var r :| r in s;
    assert r in rows;
    var m := LastIn(rows, s);
    assert TakenWithin(lines, s, rows[m]);
    LastTaken(lines, rows, s, m);
  }

  /** Without a circle some row can be written last, the others before it in turn. */
  lemma {:induction false} Arranged(lines: seq<Row<Line>>, s: set<Row<Line>>) returns (order: seq<Row<Line>>)
    requires forall u: set<Row<Line>> | u <= s :: !Circle(lines, u)
    ensures multiset(order) == multiset(s) && NoKeyTooEarly(lines, order)
    decreases |s|
  {
    hide HeldBefore;
    if s == {} {
      order := [];
    } else {
      assert !Circle(lines, s);
      var r :| r in s && !TakenWithin(lines, s, r);
      var rest := s - {r};
      var front := Arranged(lines, rest);
      order := front + [r];
      assert multiset(s) == multiset(rest) + multiset{r};
      forall k, m | 0 <= k < m < |order| ensures !HeldBefore(lines, order[m], LineKey(order[k])) {
        if m == |front| {
          assert front[k] in multiset(front);
          assert front[k] in rest;
          assert !TakesKeyOf(lines, front[k], r);
        }
      }
    }
  }

  lemma {:induction false} SetOfUnique(rows: seq<Row<Line>>)
    requires Unique(rows, IdOf)
    ensures multiset(set r | r in rows) == multiset(rows)
  {
    var s := set r | r in rows;
    forall r ensures multiset(s)[r] == multiset(rows)[r] {
      UniqueOnce(rows, IdOf, r);
      assert r in rows <==> r in multiset(rows);
    }
  }

  lemma {:induction false} CircularPermuted(lines: seq<Row<Line>>, rows: seq<Row<Line>>, other: seq<Row<Line>>)
    requires multiset(rows) == multiset(other) && Circular(lines, rows)
    ensures Circular(lines, other)
  {
    hide Circle;
    var s: set<Row<Line>> :| AllFrom(s, rows) && Circle(lines, s);
    forall r | r in s ensures r in other {
      assert r in multiset(rows);
      assert r in multiset(other);
    }
    assert AllFrom(s, other);
  }

  /** An UPDATE can be accepted, in some row order, exactly when its set-level checks hold and no
      rows of it take each other's keys in a circle. Swapping two line numbers is such a circle. */
  lemma {:induction false} UpdateAcceptedInSomeOrderIff(db: Db, rows: seq<Row<Line>>)
    requires LinesOk(db.lines)
    ensures (exists other: seq<Row<Line>> | multiset(other) == multiset(rows) :: Accepts(db, UpdateLines(other)))
       <==> LineVersionsOk(db, rows) && !Circular(db.lines, rows)
  {
    hide LineVersionsOk, Unique, Circular, Circle, NoKeyTooEarly;
    if LineVersionsOk(db, rows) && !Circular(db.lines, rows) {
      var s := set r | r in rows;
      NoCircleIn(db.lines, rows, s);
      var order := Arranged(db.lines, s);
      SelectionOfVersions(db, rows);
      SetOfUnique(rows);
      UpdateChecksOrderIrrelevant(db, rows, order);
      UpdateAcceptedIff(db, order);
    }
    if other: seq<Row<Line>> :| multiset(other) == multiset(rows) && Accepts(db, UpdateLines(other)) {
      UpdateAcceptedIff(db, other);
      UpdateChecksOrderIrrelevant(db, rows, other);
      if Circular(db.lines, rows) {
        CircularPermuted(db.lines, rows, other);
        CircleTakesEarly(db.lines, other);
      }
    }
  }

  lemma {:induction false} NoCircleIn(lines: seq<Row<Line>>, rows: seq<Row<Line>>, s: set<Row<Line>>)
    requires !Circular(lines, rows) && AllFrom(s, rows)
    ensures forall u: set<Row<Line>> | u <= s :: !Circle(lines, u)
  {
    hide Circle;
    forall u: set<Row<Line>> | u <= s ensures !Circle(lines, u) {
      assert AllFrom(u, rows);
    }
  }

  // ---- INSERT and DELETE ----

  lemma {:induction false} EntryMatchesPermuted(headers: seq<Row<Header>>, s: seq<Row<Line>>, t: seq<Row<Line>>,
                                                entry: Id)
    requires multiset(s) == multiset(t)
    ensures EntryMatches(headers, s, entry) <==> EntryMatches(headers, t, entry)
  {
    SumPermuted(s, t, entry, Debit, ActiveOnly);
    SumPermuted(s, t, entry, Credit, ActiveOnly);
  }

  lemma {:induction false} InsertPermuted(db: Db, rows: seq<Row<Line>>, other: seq<Row<Line>>)
    requires multiset(rows) == multiset(other) && AcceptsInsertLines(db, rows)
    ensures AcceptsInsertLines(db, other)
  {
    var s, t := db.lines + rows, db.lines + other;
    assert multiset(s) == multiset(t);
    UniquePermuted(s, t, IdOf);
    UniquePermuted(s, t, LineKey);
    forall k | 0 <= k < |other|
      ensures LineRowOk(db, other[k].cols) && EntryMatches(db.headers, t, other[k].cols.entry)
    {
      RowsPermuted(rows, other, k);
      var m :| 0 <= m < |rows| && rows[m] == other[k];
      EntryMatchesPermuted(db.headers, s, t, rows[m].cols.entry);
    }
  }

  /** An INSERT is accepted in every row order or in none, and leaves the same rows. */
  lemma {:induction false} InsertOrderIrrelevant(db: Db, rows: seq<Row<Line>>, other: seq<Row<Line>>)
    requires multiset(rows) == multiset(other)
    ensures Accepts(db, InsertLines(rows)) <==> Accepts(db, InsertLines(other))
    ensures multiset(Next(db, InsertLines(rows)).lines) == multiset(Next(db, InsertLines(other)).lines)
  {
    if AcceptsInsertLines(db, rows) { InsertPermuted(db, rows, other); }
    if AcceptsInsertLines(db, other) { InsertPermuted(db, other, rows); }
  }

  lemma {:induction false} DropSameIds<T(!new)>(t: seq<Row<T>>, ids: seq<Id>, other: seq<Id>)
    requires forall x :: x in ids <==> x in other
    ensures Drop(t, ids) == Drop(t, other)
  {
    if |t| > 0 { DropSameIds(t[..|t| - 1], ids, other); }
  }

  lemma {:induction false} DeleteOrderIrrelevant(db: Db, ids: seq<Id>, other: seq<Id>)
    requires multiset(ids) == multiset(other)
    ensures Next(db, DeleteLines(ids)) == Next(db, DeleteLines(other))
  {
    forall x ensures x in ids <==> x in other {
      assert x in ids <==> x in multiset(ids);
      assert x in other <==> x in multiset(other);
    }
    DropSameIds(db.lines, ids, other);
  }
}
