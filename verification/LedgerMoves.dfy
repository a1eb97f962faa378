/** Line updates that change je_id: the triggers look only at the new entry, so the old one
    can be left disagreeing with its lines. Here is exactly when it is not. */
module LedgerMoves {
  import opened Options
  import opened Sql
  import opened Table
  import opened Ledger
  import opened LedgerSums
  import opened LedgerInvariants
  import opened LedgerAgreement

  /** The lines an UPDATE names, as they are before it. */
  function Taken(lines: seq<Row<Line>>, ids: seq<Id>): seq<Row<Line>> {
    if |lines| == 0 then []
    else
      var front := Taken(lines[..|lines| - 1], ids);
      if lines[|lines| - 1].id in ids then front + [lines[|lines| - 1]] else front
  }

  lemma {:induction false} SumTaken(lines: seq<Row<Line>>, ids: seq<Id>, entry: Id, side: Side, scope: Scope)
    ensures Sum(lines, entry, side, scope)
         == Sum(Drop(lines, ids), entry, side, scope) + Sum(Taken(lines, ids), entry, side, scope)
  {
    if |lines| > 0 {
      var n := |lines| - 1;
      SumTaken(lines[..n], ids, entry, side, scope);
      if lines[n].id in ids {
        SumSnoc(Taken(lines[..n], ids), lines[n], entry, side, scope);
      } else {
        SumSnoc(Drop(lines[..n], ids), lines[n], entry, side, scope);
      }
    }
  }

  /** What becomes of one line when no new version joins `entry`. */
  lemma {:induction false} LineAfterLeaving(lines: seq<Row<Line>>, rows: seq<Row<Line>>, entry: Id, j: nat)
    requires Unique(rows, IdOf) && !Entered(rows, entry) && j < |lines|
    ensures lines[j].id in Ids(rows) ==> PutAll(lines, rows)[j].cols.entry != entry
    ensures lines[j].id !in Ids(rows) ==> PutAll(lines, rows)[j] == lines[j]
  {
    if k :| 0 <= k < |rows| && rows[k].id == lines[j].id {
      PutAllHit(lines, rows, j, k);
      assert Ids(rows)[k] == lines[j].id;
    } else {
      PutAllMiss(lines, rows, j);
    }
  }

  /** An entry keeps just the lines not named, when the named ones end outside it. */
  lemma {:induction false} SumKept(s: seq<Row<Line>>, t: seq<Row<Line>>, ids: seq<Id>, entry: Id, side: Side,
                                   scope: Scope)
    requires |s| == |t|
    requires forall j | 0 <= j < |s| ::
               if s[j].id in ids then t[j].cols.entry != entry else t[j] == s[j]
    ensures Sum(t, entry, side, scope) == Sum(Drop(s, ids), entry, side, scope)
  {
    if |s| > 0 {
      var n := |s| - 1;
      SumKept(s[..n], t[..n], ids, entry, side, scope);
      SumSnoc(Drop(s[..n], ids), s[n], entry, side, scope);
    }
  }

  lemma {:induction false} LinesAfterLeaving(lines: seq<Row<Line>>, rows: seq<Row<Line>>, entry: Id)
    requires Unique(rows, IdOf) && !Entered(rows, entry)
    ensures HasLines(PutAll(lines, rows), entry) <==> HasLines(Drop(lines, Ids(rows)), entry)
  {
    var final, kept := PutAll(lines, rows), Drop(lines, Ids(rows));
    if j :| 0 <= j < |final| && final[j].cols.entry == entry {
      LineAfterLeaving(lines, rows, entry, j);
      assert lines[j] in kept;
    }
    if j :| 0 <= j < |kept| && kept[j].cols.entry == entry {
      assert kept[j] in kept;
      var m :| 0 <= m < |lines| && lines[m] == kept[j];
      LineAfterLeaving(lines, rows, entry, m);
      assert final[m].cols.entry == entry;
    }
  }

  /** The sum an entry is left with when lines leave it and none joins it. */
  lemma {:induction false} SumLeft(lines: seq<Row<Line>>, rows: seq<Row<Line>>, entry: Id, side: Side)
    requires Unique(rows, IdOf) && !Entered(rows, entry)
    ensures Sum(PutAll(lines, rows), entry, side, ActiveOnly)
         == Sum(lines, entry, side, ActiveOnly) - Sum(Taken(lines, Ids(rows)), entry, side, ActiveOnly)
  {
    forall j | 0 <= j < |lines| { LineAfterLeaving(lines, rows, entry, j); }
    SumKept(lines, PutAll(lines, rows), Ids(rows), entry, side, ActiveOnly);
    SumTaken(lines, Ids(rows), entry, side, ActiveOnly);
  }

  predicate LosesNothing(lines: seq<Row<Line>>, rows: seq<Row<Line>>, entry: Id) {
    && Sum(Taken(lines, Ids(rows)), entry, Debit, ActiveOnly) == 0
    && Sum(Taken(lines, Ids(rows)), entry, Credit, ActiveOnly) == 0
  }

  /** Every entry with both totals set that no new version joins and that keeps some line loses
      no active amount on either side. A caller can check this before the UPDATE. */
  predicate MoveIsSound(db: Db, rows: seq<Row<Line>>) {
    forall i | 0 <= i < |db.headers| ::
      TotalsSet(db.headers[i].cols) && !Entered(rows, db.headers[i].id)
      && HasLines(Drop(db.lines, Ids(rows)), db.headers[i].id) ==>
        LosesNothing(db.lines, rows, db.headers[i].id)
  }

  lemma {:induction false} HasLinesDrop(lines: seq<Row<Line>>, ids: seq<Id>, entry: Id)
    requires HasLines(Drop(lines, ids), entry)
    ensures HasLines(lines, entry)
  {
    var kept := Drop(lines, ids);
    var j :| 0 <= j < |kept| && kept[j].cols.entry == entry;
    assert kept[j] in kept;
  }

  lemma {:induction false} MoveLeft(lines: seq<Row<Line>>, rows: seq<Row<Line>>, h: Header, entry: Id)
    requires Unique(rows, IdOf) && !Entered(rows, entry) && HasLines(Drop(lines, Ids(rows)), entry)
    requires TotalsMatch(h, lines, entry)
    ensures TotalsMatch(h, PutAll(lines, rows), entry) <==> TotalsSet(h) ==> LosesNothing(lines, rows, entry)
  {
    hide Sum, Taken, PutAll;
    SumLeft(lines, rows, entry, Debit);
    SumLeft(lines, rows, entry, Credit);
  }

  lemma {:induction false} MoveAtHeader(db: Db, rows: seq<Row<Line>>, i: nat)
    requires Unique(db.headers, IdOf) && TotalsAgree(db) && LineVersionsOk(db, rows) && i < |db.headers|
    ensures var h := db.headers[i];
            (HasLines(PutAll(db.lines, rows), h.id) ==> TotalsMatch(h.cols, PutAll(db.lines, rows), h.id))
            <==>
            (TotalsSet(h.cols) && !Entered(rows, h.id) && HasLines(Drop(db.lines, Ids(rows)), h.id) ==>
               LosesNothing(db.lines, rows, h.id))
  {
    var h := db.headers[i];
    if k :| 0 <= k < |rows| && rows[k].cols.entry == h.id {
      FindUnique(db.headers, i);
      assert EntryMatches(db.headers, PutAll(db.lines, rows), rows[k].cols.entry);
    } else {
      LinesAfterLeaving(db.lines, rows, h.id);
      if HasLines(Drop(db.lines, Ids(rows)), h.id) {
        HasLinesDrop(db.lines, Ids(rows), h.id);
        MoveLeft(db.lines, rows, h.cols, h.id);
      }
    }
  }

  /** An accepted line UPDATE, moving lines between entries or not, keeps every header in
      agreement with its lines if and only if the move is sound. */
  lemma {:induction false} MoveKeepsTotalsIff(db: Db, rows: seq<Row<Line>>)
    requires Unique(db.headers, IdOf) && TotalsAgree(db) && LineVersionsOk(db, rows)
    ensures TotalsAgree(Effect(db, UpdateLines(rows))) <==> MoveIsSound(db, rows)
  {
    hide PutAll, Drop, Taken, Sum, TotalsMatch, LosesNothing;
    forall i | 0 <= i < |db.headers| {
      MoveAtHeader(db, rows, i);
    }
  }

  /** No version gives its line another je_id. */
  predicate KeepsEntries(lines: seq<Row<Line>>, rows: seq<Row<Line>>) {
    forall k | 0 <= k < |rows| ::
      var l := Find(lines, rows[k].id);
      l.Some? ==> l.value.entry == rows[k].cols.entry
  }

  lemma {:induction false} TakenElsewhere(lines: seq<Row<Line>>, ids: seq<Id>, entry: Id)
    requires forall j | 0 <= j < |lines| && lines[j].id in ids :: lines[j].cols.entry != entry
    ensures !HasLines(Taken(lines, ids), entry)
  {
    if |lines| > 0 {
      var n := |lines| - 1;
      assert forall j | 0 <= j < n :: lines[..n][j] == lines[j];
      TakenElsewhere(lines[..n], ids, entry);
    }
  }

  /** An UPDATE that leaves je_id alone takes lines only from entries it also gives versions to. */
  lemma {:induction false} KeptEntriesMoveSoundly(db: Db, rows: seq<Row<Line>>)
    requires Unique(db.lines, IdOf) && KeepsEntries(db.lines, rows)
    ensures MoveIsSound(db, rows)
  {
    forall i | 0 <= i < |db.headers| && !Entered(rows, db.headers[i].id)
      ensures LosesNothing(db.lines, rows, db.headers[i].id)
    {
      var e := db.headers[i].id;
      forall j | 0 <= j < |db.lines| && db.lines[j].id in Ids(rows) ensures db.lines[j].cols.entry != e {
        var k :| 0 <= k < |rows| && Ids(rows)[k] == db.lines[j].id;
        FindUnique(db.lines, j);
        assert rows[k].cols.entry != e;
      }
      TakenElsewhere(db.lines, Ids(rows), e);
      SumNoLines(Taken(db.lines, Ids(rows)), e, Debit, ActiveOnly);
      SumNoLines(Taken(db.lines, Ids(rows)), e, Credit, ActiveOnly);
    }
  }
}
