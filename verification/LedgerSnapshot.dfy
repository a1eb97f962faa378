/** A posted entry is frozen, and its general-ledger rows are copies of its lines. */
module LedgerSnapshot {
  import opened Options
  import opened Sql
  import opened Table
  import opened Ledger
  import opened LedgerSums
  import opened LedgerInvariants
  import opened LedgerPosting

  /** The statement deletes the entry's header, or gives a line of the entry another je_id. */
  predicate Releases(db: Db, s: Stmt, entry: Id) {
    || (s.DeleteHeaders? && entry in s.headerIds)
    || (s.UpdateLines? && exists k | 0 <= k < |s.lineVersions| ::
          var l := Find(db.lines, s.lineVersions[k].id);
          l.Some? && l.value.entry == entry && s.lineVersions[k].cols.entry != entry)
  }

  predicate SameEntry(db: Db, after: Db, entry: Id) {
    && Find(after.headers, entry) == Find(db.headers, entry)
    && EntryLines(after.lines, entry) == EntryLines(db.lines, entry)
  }

  lemma {:induction false} EntryLinesSame(s: seq<Row<Line>>, t: seq<Row<Line>>, entry: Id)
    requires |s| == |t|
    requires forall i | 0 <= i < |s| :: s[i].cols.entry == entry || t[i].cols.entry == entry ==> s[i] == t[i]
    ensures EntryLines(s, entry) == EntryLines(t, entry)
  {
    if |s| > 0 {
      EntryLinesSame(s[..|s| - 1], t[..|t| - 1], entry);
    }
  }

  lemma {:induction false} EntryLinesAppend(s: seq<Row<Line>>, t: seq<Row<Line>>, entry: Id)
    requires !HasLines(t, entry)
    ensures EntryLines(s + t, entry) == EntryLines(s, entry)
  {
    if |t| == 0 {
      assert s + t == s;
    } else {
      var n := |t| - 1;
      assert (s + t)[..|s + t| - 1] == s + t[..n];
      assert forall i | 0 <= i < n :: t[..n][i] == t[i];
      EntryLinesAppend(s, t[..n], entry);
    }
  }

  lemma {:induction false} EntryLinesDrop(s: seq<Row<Line>>, ids: seq<Id>, entry: Id)
    requires forall i | 0 <= i < |s| && s[i].id in ids :: s[i].cols.entry != entry
    ensures EntryLines(Drop(s, ids), entry) == EntryLines(s, entry)
  {
    if |s| > 0 {
      var n := |s| - 1;
      EntryLinesDrop(s[..n], ids, entry);
      EntryLinesSnoc(Drop(s[..n], ids), s[n], entry);
    }
  }

  lemma {:induction false} EntryLinesDropEntries(s: seq<Row<Line>>, entries: seq<Id>, entry: Id)
    requires entry !in entries
    ensures EntryLines(DropEntries(s, entries), entry) == EntryLines(s, entry)
  {
    if |s| > 0 {
      var n := |s| - 1;
      EntryLinesDropEntries(s[..n], entries, entry);
      EntryLinesSnoc(DropEntries(s[..n], entries), s[n], entry);
    }
  }

  lemma {:induction false} EntryLinesSnoc(s: seq<Row<Line>>, l: Row<Line>, entry: Id)
    ensures EntryLines(s + [l], entry)
         == if l.cols.entry == entry then EntryLines(s, entry) + [l] else EntryLines(s, entry)
  {
    assert (s + [l])[..|s|] == s;
  }

  lemma {:induction false} FindPutAllMiss<T>(t: seq<Row<T>>, rows: seq<Row<T>>, id: Id)
    requires Unique(t, IdOf) && !Has(rows, id)
    ensures Find(PutAll(t, rows), id) == Find(t, id)
  {
    var u := PutAll(t, rows);
    UniqueSameIds(t, u);
    if i :| 0 <= i < |t| && t[i].id == id {
      PutAllMiss(t, rows, i);
      FindUnique(t, i);
      FindUnique(u, i);
    } else {
      assert !Has(u, id);
    }
  }

  lemma {:induction false} FindDrop<T(!new)>(t: seq<Row<T>>, ids: seq<Id>, id: Id)
    requires Unique(t, IdOf) && id !in ids
    ensures Find(Drop(t, ids), id) == Find(t, id)
  {
    UniqueDrop(t, ids, IdOf);
    HasDrop(t, ids, id);
    if Has(t, id) {
      var r := Row(id, Find(t, id).value);
      assert r in Drop(t, ids);
      FindByRow(Drop(t, ids), r);
    }
  }

  lemma {:induction false} HeadersFrozen(db: Db, s: Stmt, entry: Id)
    requires Consistent(db) && Posted(db.headers, entry) && Accepts(db, s)
    requires !(s.DeleteHeaders? && entry in s.headerIds)
    ensures Find(Effect(db, s).headers, entry) == Find(db.headers, entry)
  {
    match s
    case InsertHeaders(rows) => FindAppend(db.headers, rows, entry);
    case UpdateHeaders(rows) =>
      assert forall k | 0 <= k < |rows| :: HeaderRowOk(db, rows[k]);
      assert !Has(rows, entry);
      FindPutAllMiss(db.headers, rows, entry);
    case DeleteHeaders(ids) => FindDrop(db.headers, ids, entry);
    case _ =>
  }

  lemma {:induction false} LinesFrozenUpdate(db: Db, rows: seq<Row<Line>>, entry: Id)
    requires Consistent(db) && Posted(db.headers, entry) && LineVersionsOk(db, rows)
    requires !Releases(db, UpdateLines(rows), entry)
    ensures EntryLines(PutAll(db.lines, rows), entry) == EntryLines(db.lines, entry)
  {
    var final := PutAll(db.lines, rows);
    assert forall k | 0 <= k < |rows| :: LineRowOk(db, rows[k].cols) && rows[k].cols.entry != entry;
    forall i | 0 <= i < |final| && (db.lines[i].cols.entry == entry || final[i].cols.entry == entry)
      ensures db.lines[i] == final[i]
    {
      FindUnique(db.lines, i);
      if k :| 0 <= k < |rows| && rows[k].id == db.lines[i].id {
        PutAllHit(db.lines, rows, i, k);
      } else {
        PutAllMiss(db.lines, rows, i);
      }
    }
    EntryLinesSame(db.lines, final, entry);
  }

  lemma {:induction false} LinesFrozen(db: Db, s: Stmt, entry: Id)
    requires Consistent(db) && Posted(db.headers, entry) && Accepts(db, s) && !Releases(db, s, entry)
    ensures EntryLines(Effect(db, s).lines, entry) == EntryLines(db.lines, entry)
  {
    match s
    case InsertLines(rows) =>
      assert forall k | 0 <= k < |rows| :: LineRowOk(db, rows[k].cols);
      EntryLinesAppend(db.lines, rows, entry);
    case UpdateLines(rows) => LinesFrozenUpdate(db, rows, entry);
    case DeleteLines(ids) => EntryLinesDrop(db.lines, ids, entry);
    case DeleteHeaders(ids) => EntryLinesDropEntries(db.lines, ids, entry);
    case _ =>
  }

  lemma {:induction false} ReleasedLine(db: Db, rows: seq<Row<Line>>, entry: Id, k: nat)
    requires Consistent(db) && LineVersionsOk(db, rows) && k < |rows| && rows[k].cols.entry != entry
    requires Find(db.lines, rows[k].id).Some? && Find(db.lines, rows[k].id).value.entry == entry
    ensures EntryLines(PutAll(db.lines, rows), entry) != EntryLines(db.lines, entry)
  {
    var final := PutAll(db.lines, rows);
    var was := Row(rows[k].id, Find(db.lines, rows[k].id).value);
    var i :| 0 <= i < |db.lines| && db.lines[i] == was;
    PutAllHit(db.lines, rows, i, k);
    UniqueSameIds(db.lines, final);
    EntryLinesIn(db.lines, entry);
    EntryLinesIn(final, entry);
    if was in final {
      FindByRow(final, was);
      FindUnique(final, i);
    }
  }

  /** An accepted statement leaves a posted entry, header and lines, as it was if and only if it
      neither deletes the header nor moves one of the lines away. */
  lemma {:induction false} PostedFrozenIff(db: Db, s: Stmt, entry: Id)
    requires Consistent(db) && Posted(db.headers, entry) && Accepts(db, s)
    ensures SameEntry(db, Next(db, s), entry) <==> !Releases(db, s, entry)
  {
    if !Releases(db, s, entry) {
      HeadersFrozen(db, s, entry);
      LinesFrozen(db, s, entry);
    } else if s.DeleteHeaders? {
      HasDrop(db.headers, s.headerIds, entry);
    } else {
      var rows := s.lineVersions;
      var k :| 0 <= k < |rows|
            && Find(db.lines, rows[k].id).Some? && Find(db.lines, rows[k].id).value.entry == entry
            && rows[k].cols.entry != entry;
      ReleasedLine(db, rows, entry, k);
    }
  }

  lemma {:induction false} PostedHeaderNext(db: Db, s: Stmt, entry: Id)
    requires Consistent(db) && Posted(db.headers, entry)
    ensures Find(Next(db, s).headers, entry) == Find(db.headers, entry)
       <==> !(s.DeleteHeaders? && entry in s.headerIds)
  {
    if Accepts(db, s) {
      if s.DeleteHeaders? && entry in s.headerIds {
        HasDrop(db.headers, s.headerIds, entry);
      } else {
        HeadersFrozen(db, s, entry);
      }
    }
  }

  /** A POSTED header keeps every column in every run that does not delete it: no UPDATE can
      reopen it, whatever else happens to its lines. */
  lemma {:induction false} PostedHeaderStays(db: Db, stmts: seq<Stmt>, entry: Id)
    requires Consistent(db) && Posted(db.headers, entry)
    requires forall i | 0 <= i < |stmts| :: !(stmts[i].DeleteHeaders? && entry in stmts[i].headerIds)
    ensures Find(Run(db, stmts).headers, entry) == Find(db.headers, entry)
  {
    if |stmts| > 0 {
      var n := |stmts| - 1;
      PostedHeaderStays(db, stmts[..n], entry);
      ConsistentRun(db, stmts[..n]);
      PostedHeaderNext(Run(db, stmts[..n]), stmts[n], entry);
    }
  }

  // ---- The general ledger as a snapshot ----

  /** A general-ledger row without what depends on the moment of posting: code and poster. */
  function Snap(g: GlRow): GlRow {
    g.(code := "", poster := None)
  }

  function EntrySnaps(gl: seq<GlRow>, entry: Id): seq<GlRow> {
    if |gl| == 0 then []
    else
      var front := EntrySnaps(gl[..|gl| - 1], entry);
      if gl[|gl| - 1].entry == entry then front + [Snap(gl[|gl| - 1])] else front
  }

  function LineSnaps(ls: seq<Row<Line>>, h: Row<Header>): (r: seq<GlRow>)
    ensures |r| == |ls|
  {
    if |ls| == 0 then [] else LineSnaps(ls[..|ls| - 1], h) + [GlRowOf(ls[|ls| - 1], h, "", None)]
  }

  function Repeat<T>(k: nat, s: seq<T>): seq<T> {
    if k == 0 then [] else Repeat(k - 1, s) + s
  }

  function Postings(stmts: seq<Stmt>, entry: Id): nat {
    if |stmts| == 0 then 0
    else Postings(stmts[..|stmts| - 1], entry) + if Posts(stmts[|stmts| - 1], entry) then 1 else 0
  }

  lemma {:induction false} EntrySnapsAppend(s: seq<GlRow>, t: seq<GlRow>, entry: Id)
    ensures EntrySnaps(s + t, entry) == EntrySnaps(s, entry) + EntrySnaps(t, entry)
  {
    if |t| == 0 {
      assert s + t == s;
    } else {
      assert (s + t)[..|s + t| - 1] == s + t[..|t| - 1];
      EntrySnapsAppend(s, t[..|t| - 1], entry);
    }
  }

  lemma {:induction false} EntrySnapsSnoc(gl: seq<GlRow>, g: GlRow, entry: Id)
    ensures EntrySnaps(gl + [g], entry)
         == if g.entry == entry then EntrySnaps(gl, entry) + [Snap(g)] else EntrySnaps(gl, entry)
  {
    assert (gl + [g])[..|gl|] == gl;
  }

  lemma {:induction false} LineSnapsSnoc(ls: seq<Row<Line>>, l: Row<Line>, h: Row<Header>)
    ensures LineSnaps(ls + [l], h) == LineSnaps(ls, h) + [GlRowOf(l, h, "", None)]
  {
    assert (ls + [l])[..|ls|] == ls;
  }

  predicate CopiesShow(ls: seq<Row<Line>>, h: Row<Header>, accounts: seq<Row<Account>>, poster: Option<string>,
                       entry: Id) {
    && AccountsLinked(ls, accounts)
    && EntrySnaps(Copies(ls, h, accounts, poster), entry) == if h.id == entry then LineSnaps(ls, h) else []
  }

  lemma {:induction false} CopiesShowSnoc(ls: seq<Row<Line>>, l: Row<Line>, h: Row<Header>,
                                          accounts: seq<Row<Account>>, poster: Option<string>, entry: Id)
    requires CopiesShow(ls, h, accounts, poster, entry) && Has(accounts, l.cols.account)
    ensures CopiesShow(ls + [l], h, accounts, poster, entry)
  {
    hide Copies, LineSnaps, EntrySnaps, Find;
    CopiesSnoc(ls, l, h, accounts, poster);
    EntrySnapsSnoc(Copies(ls, h, accounts, poster),
                   GlRowOf(l, h, Find(accounts, l.cols.account).value.code, poster), entry);
    LineSnapsSnoc(ls, l, h);
  }

  lemma {:induction false} SnapsOfCopies(ls: seq<Row<Line>>, h: Row<Header>, accounts: seq<Row<Account>>,
                                         poster: Option<string>, entry: Id)
    requires AccountsLinked(ls, accounts)
    ensures CopiesShow(ls, h, accounts, poster, entry)
  {
    if |ls| > 0 {
      hide CopiesShow;
      var n := |ls| - 1;
      SnapsOfCopies(ls[..n], h, accounts, poster, entry);
      CopiesShowSnoc(ls[..n], ls[n], h, accounts, poster, entry);
      assert ls == ls[..n] + [ls[n]];
    }
  }

  /** One copy of an entry's lines. */
  function Copy(db: Db, entry: Id): seq<GlRow>
    requires Find(db.headers, entry).Some?
  {
    LineSnaps(EntryLines(db.lines, entry), Row(entry, Find(db.headers, entry).value))
  }

  lemma {:induction false} SnapsOfJoin(db: Db, target: Id, poster: Option<string>, entry: Id)
    requires Consistent(db) && Find(db.headers, entry).Some?
    ensures EntrySnaps(Join(db.lines, db.headers, db.accounts, target, poster), entry)
         == if target == entry then Copy(db, entry) else []
  {
    JoinIsExact(db, target, poster);
    if Find(db.headers, target).Some? {
      SnapsOfCopies(EntryLines(db.lines, target), Row(target, Find(db.headers, target).value),
                    db.accounts, poster, entry);
    }
  }

  predicate RunHolds(db: Db, stmts: seq<Stmt>, entry: Id) {
    forall i | 0 <= i < |stmts| && Accepts(Run(db, stmts[..i]), stmts[i]) ::
      !Releases(Run(db, stmts[..i]), stmts[i], entry)
  }

  lemma {:induction false} RunHoldsPrefix(db: Db, stmts: seq<Stmt>, entry: Id, n: nat)
    requires RunHolds(db, stmts, entry) && n <= |stmts|
    ensures RunHolds(db, stmts[..n], entry)
  {
    var front := stmts[..n];
    forall i | 0 <= i < |front| && Accepts(Run(db, front[..i]), front[i])
      ensures !Releases(Run(db, front[..i]), front[i], entry)
    {
      assert front[..i] == stmts[..i];
    }
  }

  predicate HasCopy(db: Db, entry: Id, copy: seq<GlRow>) {
    Find(db.headers, entry).Some? && Copy(db, entry) == copy
  }

  lemma {:induction false} SnapsPost(db: Db, target: Id, poster: Option<string>, entry: Id, copy: seq<GlRow>)
    requires Consistent(db) && HasCopy(db, entry, copy)
    ensures EntrySnaps(db.gl + Join(db.lines, db.headers, db.accounts, target, poster), entry)
         == if target == entry then EntrySnaps(db.gl, entry) + copy else EntrySnaps(db.gl, entry)
  {
    var added := Join(db.lines, db.headers, db.accounts, target, poster);
    EntrySnapsAppend(db.gl, added, entry);
    SnapsOfJoin(db, target, poster, entry);
    if target != entry {
      assert EntrySnaps(db.gl, entry) + [] == EntrySnaps(db.gl, entry);
    }
  }

  predicate Posts(s: Stmt, entry: Id) {
    s.PostToGl? && s.entry == entry
  }

  lemma {:induction false} NextGl(db: Db, s: Stmt)
    ensures s.PostToGl? ==>
              Next(db, s).gl == db.gl + Join(db.lines, db.headers, db.accounts, s.entry, s.poster)
    ensures !s.PostToGl? ==> Next(db, s).gl == db.gl
  {
  }

  /** Posting an entry appends one copy of its lines to its own rows and nothing to another's. */
  lemma {:induction false} SnapsNext(db: Db, s: Stmt, entry: Id, copy: seq<GlRow>)
    requires Consistent(db) && HasCopy(db, entry, copy)
    ensures EntrySnaps(Next(db, s).gl, entry)
         == if Posts(s, entry) then EntrySnaps(db.gl, entry) + copy else EntrySnaps(db.gl, entry)
  {
    NextGl(db, s);
    if s.PostToGl? {
      SnapsPost(db, s.entry, s.poster, entry, copy);
    }
  }

  lemma {:induction false} RepeatOnceMore<T>(base: seq<T>, k: nat, s: seq<T>)
    ensures base + Repeat(k, s) + s == base + Repeat(k + 1, s)
  {
    assert base + Repeat(k, s) + s == base + (Repeat(k, s) + s);
  }

  lemma {:induction false} EntryHeld(db: Db, stmts: seq<Stmt>, entry: Id)
    requires Consistent(db) && Posted(db.headers, entry) && RunHolds(db, stmts, entry)
    ensures SameEntry(db, Run(db, stmts), entry)
  {
    if |stmts| > 0 {
      var n := |stmts| - 1;
      RunHoldsPrefix(db, stmts, entry, n);
      EntryHeld(db, stmts[..n], entry);
      ConsistentRun(db, stmts[..n]);
      if Accepts(Run(db, stmts[..n]), stmts[n]) {
        PostedFrozenIff(Run(db, stmts[..n]), stmts[n], entry);
      }
    }
  }

  lemma {:induction false} SnapsAlong(db: Db, stmts: seq<Stmt>, entry: Id, copy: seq<GlRow>)
    requires Consistent(db)
    requires forall i | 0 <= i <= |stmts| :: HasCopy(Run(db, stmts[..i]), entry, copy)
    ensures EntrySnaps(Run(db, stmts).gl, entry) == EntrySnaps(db.gl, entry) + Repeat(Postings(stmts, entry), copy)
  {
    hide EntrySnaps, HasCopy, Consistent, Next;
    if |stmts| > 0 {
      var n := |stmts| - 1;
      forall i | 0 <= i <= n ensures HasCopy(Run(db, stmts[..n][..i]), entry, copy) {
        assert stmts[..n][..i] == stmts[..i];
      }
      SnapsAlong(db, stmts[..n], entry, copy);
      ConsistentRun(db, stmts[..n]);
      assert stmts[..n + 1][..n] == stmts[..n];
      SnapsNext(Run(db, stmts[..n]), stmts[n], entry, copy);
      RepeatOnceMore(EntrySnaps(db.gl, entry), Postings(stmts[..n], entry), copy);
    }
  }

  /** From the moment an entry is POSTED, in any run that does not release it, its header and
      lines stay as they are and its k further posts add exactly k copies of its lines. */
  lemma {:induction false} SnapshotAgreement(db: Db, stmts: seq<Stmt>, entry: Id)
    requires Consistent(db) && Posted(db.headers, entry) && RunHolds(db, stmts, entry)
    ensures SameEntry(db, Run(db, stmts), entry)
    ensures EntrySnaps(Run(db, stmts).gl, entry)
         == EntrySnaps(db.gl, entry) + Repeat(Postings(stmts, entry), Copy(db, entry))
  {
    forall i | 0 <= i <= |stmts| ensures SameEntry(db, Run(db, stmts[..i]), entry) {
      RunHoldsPrefix(db, stmts, entry, i);
      EntryHeld(db, stmts[..i], entry);
    }
    assert stmts[..|stmts|] == stmts;
    SnapsAlong(db, stmts, entry, Copy(db, entry));
  }
}
