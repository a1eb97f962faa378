/** The approval audit trail: one trigger on seven document tables that logs status changes. */
module Approval {
  import opened Options
  import opened Sql
  import opened Table

  /** The tables the trigger is attached to. */
  datatype Document =
    | ArInvoice | ArReceipt | ArCreditNote
    | ApVendorInvoice | ApPaymentAgainstInvoice | ApPaymentWithoutInvoice | ApDebitNote

  datatype Key = Key(document: Document, id: Id)

  type Status = Option<string>

  datatype Doc = Doc(status: Status, remarks: Option<string>, lastUpdatedBy: Option<string>,
                     approvedBy: Option<string>, createdBy: Option<string>)

  datatype Entry = Entry(key: Key, from: Status, to: Status, action: string,
                         actor: Option<string>, remarks: string)

  /** `codes` is the status lookup that approval_status refers to. */
  datatype Db = Db(docs: map<Key, Doc>, history: seq<Entry>, codes: set<string>)

  datatype Stmt =
    | Insert(document: Document, rows: seq<Row<Doc>>)
    | Update(document: Document, rows: seq<Row<Doc>>)
    | Delete(document: Document, ids: seq<Id>)

  function ActionFor(to: Status): string {
    if to == Some("Pending Approval") then "Submitted"
    else if to == Some("Approved") then "Approved"
    else if to == Some("Returned") then "Returned"
    else if to == Some("Posted") then "Posted"
    else "StatusChanged"
  }

  function EntryFor(key: Key, was: Doc, now: Doc): Entry {
    Entry(key, was.status, now.status, ActionFor(now.status),
          Coalesce(Coalesce(now.lastUpdatedBy, now.approvedBy), now.createdBy),
          if now.remarks.Some? then now.remarks.value else "")
  }

  /** What the trigger appends for the rows of one UPDATE, fired in their order. */
  function Logged(docs: map<Key, Doc>, document: Document, rows: seq<Row<Doc>>): seq<Entry> {
    if |rows| == 0 then []
    else
      var row := rows[|rows| - 1];
      var front := Logged(docs, document, rows[..|rows| - 1]);
      var key := Key(document, row.id);
      if key in docs && docs[key].status != row.cols.status
      then front + [EntryFor(key, docs[key], row.cols)] else front
  }

  function WriteAll(docs: map<Key, Doc>, document: Document, rows: seq<Row<Doc>>): map<Key, Doc> {
    if |rows| == 0 then docs
    else
      var row := rows[|rows| - 1];
      WriteAll(docs, document, rows[..|rows| - 1])[Key(document, row.id) := row.cols]
  }

  predicate StatusKnown(codes: set<string>, status: Status) {
    status.Some? ==> status.value in codes
  }

  predicate Accepts(db: Db, s: Stmt) {
    match s
    case Insert(document, rows) =>
      && Unique(rows, IdOf)
      && forall k | 0 <= k < |rows| ::
           Key(document, rows[k].id) !in db.docs && StatusKnown(db.codes, rows[k].cols.status)
    case Update(document, rows) =>
      && Unique(rows, IdOf)
      && forall k | 0 <= k < |rows| ::
           Key(document, rows[k].id) in db.docs && StatusKnown(db.codes, rows[k].cols.status)
    case Delete(_, _) => true
  }

  function Effect(db: Db, s: Stmt): Db {
    match s
    case Insert(document, rows) => db.(docs := WriteAll(db.docs, document, rows))
    case Update(document, rows) =>
      db.(docs := WriteAll(db.docs, document, rows), history := db.history + Logged(db.docs, document, rows))
    case Delete(document, ids) =>
      db.(docs := map key | key in db.docs && !(key.document == document && key.id in ids) :: db.docs[key])
  }

  function Next(db: Db, s: Stmt): Db {
    if Accepts(db, s) then Effect(db, s) else db
  }

  function Run(db: Db, stmts: seq<Stmt>): Db {
    if |stmts| == 0 then db
    else Next(Run(db, stmts[..|stmts| - 1]), stmts[|stmts| - 1])
  }

  function Fresh(codes: set<string>): Db {
    Db(map[], [], codes)
  }

  /** Documents are inserted when none of them is there, their ids differ and their codes are known,
      and are there afterwards; a DELETE takes away just the ones it names, and neither logs. */
  lemma {:induction false} InsertAndDelete(db: Db, document: Document, rows: seq<Row<Doc>>, ids: seq<Id>, key: Key)
    ensures Accepts(db, Insert(document, rows)) <==>
              && (forall i, j | 0 <= i < j < |rows| :: rows[i].id != rows[j].id)
              && (forall k | 0 <= k < |rows| ::
                    && Key(document, rows[k].id) !in db.docs
                    && (rows[k].cols.status.Some? ==> rows[k].cols.status.value in db.codes))
    ensures Accepts(db, Insert(document, rows)) ==>
              && Next(db, Insert(document, rows)).history == db.history
              && (key in Next(db, Insert(document, rows)).docs <==>
                    key in db.docs || (key.document == document && Has(rows, key.id)))
              && (key in db.docs ==> Next(db, Insert(document, rows)).docs[key] == db.docs[key])
    ensures Next(db, Delete(document, ids)).history == db.history
    ensures key in Next(db, Delete(document, ids)).docs <==>
              key in db.docs && !(key.document == document && key.id in ids)
    ensures key in Next(db, Delete(document, ids)).docs ==> Next(db, Delete(document, ids)).docs[key] == db.docs[key]
  {
    hide WriteAll;
    WriteAllAt(db.docs, document, rows, key);
    if Unique(rows, IdOf) {
      forall i, j | 0 <= i < j < |rows| ensures rows[i].id != rows[j].id {
        assert IdOf(rows[i]) != IdOf(rows[j]);
      }
    }
  }

  // ---- The statuses a document went through ----

  /** The status a statement gives the document, if it writes it. */
  function Written(s: Stmt, key: Key): Option<Status> {
    if (s.Insert? || s.Update?) && s.document == key.document && Has(s.rows, key.id)
    then Some(Find(s.rows, key.id).value.status) else None
  }

  /** The traces of a document after an accepted statement: an INSERT opens a new one, an UPDATE
      of the row extends the last one, whether the status changes or not. */
  function Grown(lives: seq<seq<Status>>, s: Stmt, key: Key): seq<seq<Status>> {
    var written := Written(s, key);
    if written.None? then lives
    else if s.Insert? then lives + [[written.value]]
    else if |lives| == 0 then lives
    else lives[..|lives| - 1] + [lives[|lives| - 1] + [written.value]]
  }

  /** One status trace for each time the document was inserted. */
  function Lives(codes: set<string>, stmts: seq<Stmt>, key: Key): seq<seq<Status>> {
    if |stmts| == 0 then []
    else
      var front := stmts[..|stmts| - 1];
      var lives := Lives(codes, front, key);
      if Accepts(Run(Fresh(codes), front), stmts[|stmts| - 1]) then Grown(lives, stmts[|stmts| - 1], key) else lives
  }

  /** Drops every element equal to the one before it. */
  function Destutter(s: seq<Status>): (r: seq<Status>)
    ensures |s| > 0 ==> |r| > 0 && r[0] == s[0] && r[|r| - 1] == s[|s| - 1]
  {
    if |s| <= 1 then s
    else
      var front := Destutter(s[..|s| - 1]);
      if s[|s| - 1] == s[|s| - 2] then front else front + [s[|s| - 1]]
  }

  function Pairs(s: seq<Status>): (r: seq<(Status, Status)>)
    ensures |r| == if |s| == 0 then 0 else |s| - 1
  {
    if |s| <= 1 then [] else Pairs(s[..|s| - 1]) + [(s[|s| - 2], s[|s| - 1])]
  }

  lemma {:induction false} PairsAt(s: seq<Status>, i: nat)
    requires i + 1 < |s|
    ensures Pairs(s)[i] == (s[i], s[i + 1])
  {
    if i + 2 < |s| {
      PairsAt(s[..|s| - 1], i);
    }
  }

  lemma {:induction false} DestutterMoves(s: seq<Status>, i: nat)
    requires i + 1 < |Destutter(s)|
    ensures Destutter(s)[i] != Destutter(s)[i + 1]
  {
    var front := Destutter(s[..|s| - 1]);
    if i + 1 < |front| {
      DestutterMoves(s[..|s| - 1], i);
    }
  }

  /** The steps of all lives of a document, oldest first. */
  function Steps(lives: seq<seq<Status>>): seq<(Status, Status)> {
    if |lives| == 0 then []
    else Steps(lives[..|lives| - 1]) + Pairs(Destutter(lives[|lives| - 1]))
  }

  /** The log as seen by one document. */
  function LogOf(history: seq<Entry>, key: Key): seq<(Status, Status)> {
    if |history| == 0 then []
    else
      var front := LogOf(history[..|history| - 1], key);
      var e := history[|history| - 1];
      if e.key == key then front + [(e.from, e.to)] else front
  }

  lemma {:induction false} LogOfAppend(s: seq<Entry>, t: seq<Entry>, key: Key)
    ensures LogOf(s + t, key) == LogOf(s, key) + LogOf(t, key)
  {
    if |t| == 0 {
      assert s + t == s;
    } else {
      assert (s + t)[..|s + t| - 1] == s + t[..|t| - 1];
      LogOfAppend(s, t[..|t| - 1], key);
    }
  }

  /** What one UPDATE logs for one document: one step if the status changes, nothing otherwise. */
  function StepOf(docs: map<Key, Doc>, document: Document, rows: seq<Row<Doc>>, key: Key): seq<(Status, Status)> {
    if key in docs && key.document == document && Has(rows, key.id)
       && docs[key].status != Find(rows, key.id).value.status
    then [(docs[key].status, Find(rows, key.id).value.status)] else []
  }

  lemma {:induction false} LogOfSnoc(s: seq<Entry>, e: Entry, key: Key)
    ensures LogOf(s + [e], key) == if e.key == key then LogOf(s, key) + [(e.from, e.to)] else LogOf(s, key)
  {
    assert (s + [e])[..|s|] == s;
  }

  lemma {:induction false} FindSnoc<T>(rows: seq<Row<T>>, row: Row<T>, id: Id)
    ensures Find(rows + [row], id) == if row.id == id then Some(row.cols) else Find(rows, id)
  {
    assert (rows + [row])[..|rows|] == rows;
  }

  lemma {:induction false} LoggedSnoc(docs: map<Key, Doc>, document: Document, rows: seq<Row<Doc>>, row: Row<Doc>,
                                      key: Key)
    ensures LogOf(Logged(docs, document, rows + [row]), key)
         == LogOf(Logged(docs, document, rows), key)
            + if key == Key(document, row.id) && key in docs && docs[key].status != row.cols.status
              then [(docs[key].status, row.cols.status)] else []
  {
    hide LogOf;
    var k := Key(document, row.id);
    assert (rows + [row])[..|rows|] == rows;
    if k in docs {
      LogOfSnoc(Logged(docs, document, rows), EntryFor(k, docs[k], row.cols), key);
    }
  }

  lemma {:induction false} NothingLogged(docs: map<Key, Doc>, document: Document)
    ensures Logged(docs, document, []) == []
  {
  }

  lemma {:induction false} LoggedStep(docs: map<Key, Doc>, document: Document, rows: seq<Row<Doc>>, i: nat)
    requires i < |rows| && Key(document, rows[i].id) in docs
    ensures var key := Key(document, rows[i].id);
            Logged(docs, document, rows[..i + 1])
            == Logged(docs, document, rows[..i])
               + if docs[key].status != rows[i].cols.status then [EntryFor(key, docs[key], rows[i].cols)] else []
  {
    hide EntryFor;
    assert rows[..i + 1][..i] == rows[..i];
  }

  lemma {:induction false} StepSnoc(docs: map<Key, Doc>, document: Document, rows: seq<Row<Doc>>, row: Row<Doc>,
                                    key: Key)
    requires !Has(rows, row.id)
    ensures StepOf(docs, document, rows + [row], key)
         == StepOf(docs, document, rows, key)
            + if key == Key(document, row.id) && key in docs && docs[key].status != row.cols.status
              then [(docs[key].status, row.cols.status)] else []
  {
    hide Find, Has;
    FindSnoc(rows, row, key.id);
  }

  lemma {:induction false} LoggedOnce(docs: map<Key, Doc>, document: Document, rows: seq<Row<Doc>>, key: Key)
    requires Unique(rows, IdOf)
    ensures LogOf(Logged(docs, document, rows), key) == StepOf(docs, document, rows, key)
  {
    if |rows| > 0 {
      hide Logged, LogOf, StepOf, Has, Unique;
      var n := |rows| - 1;
      UniquePrefix(rows, IdOf, n);
      LastIsFirst(rows);
      LoggedOnce(docs, document, rows[..n], key);
      LoggedSnoc(docs, document, rows[..n], rows[n], key);
      StepSnoc(docs, document, rows[..n], rows[n], key);
      assert rows == rows[..n] + [rows[n]];
    }
  }

  lemma {:induction false} LastIsFirst<T>(rows: seq<Row<T>>)
    requires |rows| > 0 && Unique(rows, IdOf)
    ensures !Has(rows[..|rows| - 1], rows[|rows| - 1].id)
  {
    var n := |rows| - 1;
    assert forall i | 0 <= i < n :: IdOf(rows[i]) != IdOf(rows[n]);
  }

  /** What a multi-row UPDATE logs for a document does not depend on the order of the rows. */
  lemma {:induction false} LoggedOrderIrrelevant(docs: map<Key, Doc>, document: Document, rows: seq<Row<Doc>>,
                                                 other: seq<Row<Doc>>, key: Key)
    requires Unique(rows, IdOf) && multiset(rows) == multiset(other)
    ensures LogOf(Logged(docs, document, rows), key) == LogOf(Logged(docs, document, other), key)
  {
    UniquePermuted(rows, other, IdOf);
    LoggedOnce(docs, document, rows, key);
    LoggedOnce(docs, document, other, key);
    HasPermuted(rows, other, key.id);
    HasPermuted(other, rows, key.id);
    if Has(rows, key.id) {
      var r := Row(key.id, Find(rows, key.id).value);
      assert r in multiset(rows);
      assert r in multiset(other);
      FindByRow(other, r);
    }
  }

  lemma {:induction false} WriteAllAt(docs: map<Key, Doc>, document: Document, rows: seq<Row<Doc>>, key: Key)
    ensures key in WriteAll(docs, document, rows) <==> key in docs || (key.document == document && Has(rows, key.id))
    ensures key.document == document && Has(rows, key.id) ==>
              WriteAll(docs, document, rows)[key] == Find(rows, key.id).value
    ensures !(key.document == document && Has(rows, key.id)) && key in docs ==>
              WriteAll(docs, document, rows)[key] == docs[key]
  {
    if |rows| > 0 {
      var n := |rows| - 1;
      WriteAllAt(docs, document, rows[..n], key);
      assert forall i | 0 <= i < n :: rows[..n][i] == rows[i];
      assert Has(rows, key.id) <==> Has(rows[..n], key.id) || rows[n].id == key.id;
    }
  }

  /** A document that exists has a current life, which ends in its present status. */
  predicate LifeIsCurrent(db: Db, lives: seq<seq<Status>>, key: Key) {
    && (forall i | 0 <= i < |lives| :: |lives[i]| > 0)
    && (key in db.docs ==>
          |lives| > 0 && var life := lives[|lives| - 1]; life[|life| - 1] == db.docs[key].status)
  }

  predicate Agrees(db: Db, lives: seq<seq<Status>>, key: Key) {
    LifeIsCurrent(db, lives, key) && LogOf(db.history, key) == Steps(lives)
  }

  lemma {:induction false} StepsOfOne(life: seq<Status>)
    ensures Steps([life]) == Pairs(Destutter(life))
  {
    assert [life][..0] == [];
  }

  lemma {:induction false} StepsSnoc(lives: seq<seq<Status>>, life: seq<Status>)
    ensures Steps(lives + [life]) == Steps(lives) + Pairs(Destutter(life))
  {
    assert (lives + [life])[..|lives|] == lives;
  }

  /** One more status adds its step to the path, or nothing if it repeats the last one. */
  lemma {:induction false} PathGrows(life: seq<Status>, status: Status)
    requires |life| > 0
    ensures var last := life[|life| - 1];
            Pairs(Destutter(life + [status]))
            == if last == status then Pairs(Destutter(life)) else Pairs(Destutter(life)) + [(last, status)]
  {
    assert (life + [status])[..|life|] == life;
    var d := Destutter(life);
    assert (d + [status])[..|d|] == d;
  }

  lemma {:induction false} AgreesInsert(db: Db, s: Stmt, lives: seq<seq<Status>>, key: Key)
    requires Agrees(db, lives, key) && s.Insert? && Accepts(db, s)
    ensures Agrees(Effect(db, s), Grown(lives, s, key), key)
  {
    hide Steps, LogOf, WriteAll;
    WriteAllAt(db.docs, s.document, s.rows, key);
    if Written(s, key).Some? {
      var life := [Written(s, key).value];
      StepsSnoc(lives, life);
      assert Pairs(Destutter(life)) == [];
    }
  }

  lemma {:induction false} WrittenIsThere(db: Db, s: Stmt, key: Key)
    requires s.Update? && Accepts(db, s) && Written(s, key).Some?
    ensures key in db.docs
  {
    var k :| 0 <= k < |s.rows| && s.rows[k].id == key.id;
    assert Key(s.document, s.rows[k].id) in db.docs;
  }

  lemma {:induction false} AgreesUpdate(db: Db, s: Stmt, lives: seq<seq<Status>>, key: Key)
    requires Agrees(db, lives, key) && s.Update? && Accepts(db, s)
    ensures Agrees(Effect(db, s), Grown(lives, s, key), key)
  {
    hide Steps, LogOf, WriteAll, Logged, Pairs, Destutter, Unique, Find, Has;
    WriteAllAt(db.docs, s.document, s.rows, key);
    LogOfAppend(db.history, Logged(db.docs, s.document, s.rows), key);
    LoggedOnce(db.docs, s.document, s.rows, key);
    if Written(s, key).Some? {
      WrittenIsThere(db, s, key);
      var n := |lives| - 1;
      var status := Written(s, key).value;
      PathGrows(lives[n], status);
      StepsSnoc(lives[..n], lives[n]);
      StepsSnoc(lives[..n], lives[n] + [status]);
      assert lives == lives[..n] + [lives[n]];
    }
  }

  lemma {:induction false} AgreesDelete(db: Db, s: Stmt, lives: seq<seq<Status>>, key: Key)
    requires Agrees(db, lives, key) && s.Delete?
    ensures Agrees(Effect(db, s), Grown(lives, s, key), key)
  {
  }

  /** The log reconstructs the path of every document: it is the consecutive pairs of the
      destuttered status traces, for any run of single- and multi-row statements. */
  lemma {:induction false} HistoryIsStatusPath(codes: set<string>, stmts: seq<Stmt>, key: Key)
    ensures LifeIsCurrent(Run(Fresh(codes), stmts), Lives(codes, stmts, key), key)
    ensures LogOf(Run(Fresh(codes), stmts).history, key) == Steps(Lives(codes, stmts, key))
  {
    if |stmts| > 0 {
      hide Steps, LogOf, WriteAll, Logged, Unique, LifeIsCurrent;
      var front, s := stmts[..|stmts| - 1], stmts[|stmts| - 1];
      HistoryIsStatusPath(codes, front, key);
      var db := Run(Fresh(codes), front);
      if Accepts(db, s) {
        match s
        case Insert(_, _) => AgreesInsert(db, s, Lives(codes, front, key), key);
        case Update(_, _) => AgreesUpdate(db, s, Lives(codes, front, key), key);
        case Delete(_, _) => AgreesDelete(db, s, Lives(codes, front, key), key);
      }
    }
  }

  /** The log starts at `start`, each step begins where the one before ended, none stays in place,
      and the last one ends at `end`. */
  predicate IsPath(log: seq<(Status, Status)>, start: Status, end: Status) {
    && (if |log| == 0 then start == end else log[0].0 == start && log[|log| - 1].1 == end)
    && (forall i | 0 <= i < |log| :: log[i].0 != log[i].1)
    && (forall i, j | 0 <= i < |log| && 0 <= j < |log| && j == i + 1 :: log[i].1 == log[j].0)
  }

  lemma {:induction false} StepAt(life: seq<Status>, i: nat)
    requires i < |Pairs(Destutter(life))|
    ensures var log := Pairs(Destutter(life));
            log[i].0 != log[i].1 && (i + 1 < |log| ==> log[i].1 == log[i + 1].0)
  {
    hide Destutter, Pairs;
    var d := Destutter(life);
    PairsAt(d, i);
    DestutterMoves(life, i);
    if i + 1 < |Pairs(d)| {
      PairsAt(d, i + 1);
    }
  }

  lemma {:induction false} PathEnds(life: seq<Status>)
    requires |life| > 0
    ensures var log := Pairs(Destutter(life));
            if |log| == 0 then life[0] == life[|life| - 1]
            else log[0].0 == life[0] && log[|log| - 1].1 == life[|life| - 1]
  {
    hide Destutter, Pairs;
    var d := Destutter(life);
    if |d| > 1 {
      PairsAt(d, 0);
      PairsAt(d, |d| - 2);
    }
  }

  lemma {:induction false} PairsOfDestutterIsPath(life: seq<Status>)
    requires |life| > 0
    ensures IsPath(Pairs(Destutter(life)), life[0], life[|life| - 1])
  {
    hide Destutter, Pairs;
    var log := Pairs(Destutter(life));
    PathEnds(life);
    forall i | 0 <= i < |log| ensures log[i].0 != log[i].1 {
      StepAt(life, i);
    }
    forall i, j | 0 <= i < |log| && 0 <= j < |log| && j == i + 1 ensures log[i].1 == log[j].0 {
      StepAt(life, i);
    }
  }

  /** For a document inserted once, the log read forwards is its path from the inserted status to
      the present one. */
  lemma {:induction false} PathReconstructed(codes: set<string>, stmts: seq<Stmt>, key: Key)
    requires |Lives(codes, stmts, key)| == 1
    ensures var life := Lives(codes, stmts, key)[0];
            && |life| > 0
            && IsPath(LogOf(Run(Fresh(codes), stmts).history, key), life[0], life[|life| - 1])
            && (key in Run(Fresh(codes), stmts).docs ==>
                  Run(Fresh(codes), stmts).docs[key].status == life[|life| - 1])
  {
    hide IsPath, LogOf, Lives;
    HistoryIsStatusPath(codes, stmts, key);
    var lives := Lives(codes, stmts, key);
    assert lives == [lives[0]];
    StepsOfOne(lives[0]);
    PairsOfDestutterIsPath(lives[0]);
  }

  // ---- What an entry says ----

  /** The entry names the document and the step, the one who last updated it, else the approver,
      else the creator, its remarks or none, and the action its new status stands for. */
  predicate Describes(e: Entry, key: Key, was: Doc, now: Doc) {
    && e.key == key && e.from == was.status && e.to == now.status && was.status != now.status
    && (now.lastUpdatedBy.Some? ==> e.actor == now.lastUpdatedBy)
    && (now.lastUpdatedBy.None? && now.approvedBy.Some? ==> e.actor == now.approvedBy)
    && (now.lastUpdatedBy.None? && now.approvedBy.None? ==> e.actor == now.createdBy)
    && (now.remarks.Some? ==> e.remarks == now.remarks.value)
    && (now.remarks.None? ==> e.remarks == "")
    && (now.status == Some("Pending Approval") ==> e.action == "Submitted")
    && (now.status == Some("Approved") ==> e.action == "Approved")
    && (now.status == Some("Returned") ==> e.action == "Returned")
    && (now.status == Some("Posted") ==> e.action == "Posted")
    && (now.status !in {Some("Pending Approval"), Some("Approved"), Some("Returned"), Some("Posted")} ==>
          e.action == "StatusChanged")
  }

  lemma {:induction false} EntryDescribes(key: Key, was: Doc, now: Doc)
    requires was.status != now.status
    ensures Describes(EntryFor(key, was, now), key, was, now)
  {
    assert "Pending Approval"[0] == 'P' && "Posted"[1] == 'o' && "Approved"[0] == 'A' && "Returned"[0] == 'R'
        && "Pending Approval"[1] == 'e';
  }

  /** The row is logged by this entry. */
  predicate LoggedAs(docs: map<Key, Doc>, document: Document, row: Row<Doc>, e: Entry) {
    Key(document, row.id) in docs && Describes(e, Key(document, row.id), docs[Key(document, row.id)], row.cols)
  }

  /** The rows of an UPDATE that change the status of their document, in their order. */
  function Changed(docs: map<Key, Doc>, document: Document, rows: seq<Row<Doc>>): seq<Row<Doc>> {
    if |rows| == 0 then []
    else
      var front, row := Changed(docs, document, rows[..|rows| - 1]), rows[|rows| - 1];
      if Key(document, row.id) in docs && docs[Key(document, row.id)].status != row.cols.status
      then front + [row] else front
  }

  /** One entry for each row that changes a status, in the order of the rows, and each says what
      its row did. */
  lemma {:induction false} LoggedSays(docs: map<Key, Doc>, document: Document, rows: seq<Row<Doc>>)
    ensures |Logged(docs, document, rows)| == |Changed(docs, document, rows)|
    ensures forall i | 0 <= i < |Changed(docs, document, rows)| ::
              && Changed(docs, document, rows)[i] in rows
              && LoggedAs(docs, document, Changed(docs, document, rows)[i], Logged(docs, document, rows)[i])
  {
    if |rows| > 0 {
      hide Describes, EntryFor;
      var n := |rows| - 1;
      LoggedSays(docs, document, rows[..n]);
      assert forall r | r in rows[..n] :: r in rows;
      var key := Key(document, rows[n].id);
      if key in docs && docs[key].status != rows[n].cols.status {
        EntryDescribes(key, docs[key], rows[n].cols);
      }
    }
  }

  /** The statement updated the entry's document in the way the entry says. */
  predicate WroteEntry(db: Db, s: Stmt, e: Entry) {
    && s.Update? && Accepts(db, s)
    && exists k | 0 <= k < |s.rows| :: LoggedAs(db.docs, s.document, s.rows[k], e)
  }

  /** Every entry in the log of any run was written by an UPDATE of the run that did to the document
      what the entry says. */
  lemma {:induction false} HistoryIsTrue(codes: set<string>, stmts: seq<Stmt>, i: nat) returns (j: nat)
    requires i < |Run(Fresh(codes), stmts).history|
    ensures j < |stmts| && WroteEntry(Run(Fresh(codes), stmts[..j]), stmts[j], Run(Fresh(codes), stmts).history[i])
  {
    hide LoggedAs;
    var n := |stmts| - 1;
    var db := Run(Fresh(codes), stmts[..n]);
    if i < |db.history| {
      j := HistoryIsTrue(codes, stmts[..n], i);
      assert stmts[..n][..j] == stmts[..j];
    } else {
      j := n;
      var s := stmts[n];
      LoggedSays(db.docs, s.document, s.rows);
      var row := Changed(db.docs, s.document, s.rows)[i - |db.history|];
      var k :| 0 <= k < |s.rows| && s.rows[k] == row;
    }
  }

  // ---- The action column ----

  /** The codes that db/finance_lookups_insert.sql seeds. */
  const SEEDED := {"DRAFT", "RETURNED", "PENDING_APPROVAL", "APPROVED", "POSTED"}

  predicate Generic(history: seq<Entry>) {
    forall i | 0 <= i < |history| :: history[i].action == "StatusChanged"
  }

  /** The trigger spells its codes in mixed case, the lookup in upper case. */
  lemma {:induction false} SeededAction(to: Status)
    requires StatusKnown(SEEDED, to)
    ensures ActionFor(to) == "StatusChanged"
  {
    assert "RETURNED"[1] == 'E' && "PENDING_APPROVAL"[1] == 'E' && "APPROVED"[1] == 'P' && "POSTED"[1] == 'O'
        && "DRAFT"[1] == 'R';
    assert "Pending Approval"[1] == 'e' && "Approved"[1] == 'p' && "Returned"[1] == 'e' && "Posted"[1] == 'o';
  }

  lemma {:induction false} LoggedGeneric(docs: map<Key, Doc>, document: Document, rows: seq<Row<Doc>>)
    requires forall k | 0 <= k < |rows| :: StatusKnown(SEEDED, rows[k].cols.status)
    ensures Generic(Logged(docs, document, rows))
  {
    if |rows| > 0 {
      hide ActionFor, StatusKnown;
      LoggedGeneric(docs, document, rows[..|rows| - 1]);
      SeededAction(rows[|rows| - 1].cols.status);
    }
  }

  /** With the seeded status codes, the trigger's literals never match: every entry of every run
      carries the action StatusChanged. */
  lemma {:induction false} SeededActionsAreGeneric(stmts: seq<Stmt>)
    ensures Generic(Run(Fresh(SEEDED), stmts).history) && Run(Fresh(SEEDED), stmts).codes == SEEDED
  {
    if |stmts| > 0 {
      var front, s := stmts[..|stmts| - 1], stmts[|stmts| - 1];
      SeededActionsAreGeneric(front);
      if s.Update? && Accepts(Run(Fresh(SEEDED), front), s) {
        LoggedGeneric(Run(Fresh(SEEDED), front).docs, s.document, s.rows);
      }
    }
  }

  /** All rows are in place afterwards, and no other document is touched. */
  lemma {:induction false} RowsWritten(docs: map<Key, Doc>, document: Document, rows: seq<Row<Doc>>)
    requires Unique(rows, IdOf) && forall k | 0 <= k < |rows| :: Key(document, rows[k].id) in docs
    ensures WriteAll(docs, document, rows).Keys == docs.Keys
    ensures forall k | 0 <= k < |rows| :: WriteAll(docs, document, rows)[Key(document, rows[k].id)] == rows[k].cols
    ensures forall key | key in docs && !(key.document == document && Has(rows, key.id)) ::
              WriteAll(docs, document, rows)[key] == docs[key]
  {
    hide WriteAll;
    var after := WriteAll(docs, document, rows);
    forall key ensures key in after <==> key in docs {
      WriteAllAt(docs, document, rows, key);
      if key.document == document && Has(rows, key.id) {
        var k :| 0 <= k < |rows| && rows[k].id == key.id;
        assert Key(document, rows[k].id) in docs;
      }
    }
    forall key | key in docs && !(key.document == document && Has(rows, key.id)) ensures after[key] == docs[key] {
      WriteAllAt(docs, document, rows, key);
    }
    forall k | 0 <= k < |rows| ensures after[Key(document, rows[k].id)] == rows[k].cols {
      WriteAllAt(docs, document, rows, Key(document, rows[k].id));
      FindUnique(rows, k);
    }
  }

  // ---- The trigger as the database runs it ----

  class AuditedTables {
    var docs: map<Key, Doc>
    var history: seq<Entry>
    const codes: set<string>

    function Tables(): Db
      reads this
    {
      Db(docs, history, codes)
    }

    constructor (codes: set<string>)
      ensures Tables() == Fresh(codes)
    {
      this.codes := codes;
      docs, history := map[], [];
    }

    /** AFTER UPDATE, once per row. */
    method Audit(key: Key, was: Doc, now: Doc)
      modifies this`history
      ensures history == if was.status != now.status then old(history) + [EntryFor(key, was, now)] else old(history)
    {
      if now.status != was.status {
        var from, to := was.status, now.status;
        var action := "StatusChanged";
        if to == Some("Pending Approval") {
          action := "Submitted";
        } else if to == Some("Approved") {
          action := "Approved";
        } else if to == Some("Returned") {
          action := "Returned";
        } else if to == Some("Posted") {
          action := "Posted";
        }
        var actor := Coalesce(now.lastUpdatedBy, Coalesce(now.approvedBy, now.createdBy));
        var remarks := Coalesce(now.remarks, Some("")).value;
        history := history + [Entry(key, from, to, action, actor, remarks)];
      }
    }

    method WriteRows(document: Document, rows: seq<Row<Doc>>) returns (ok: bool)
      modifies this`docs
      ensures ok <==> forall k | 0 <= k < |rows| :: StatusKnown(codes, rows[k].cols.status)
      ensures ok ==> docs == WriteAll(old(docs), document, rows)
    {
      var i := 0;
      while i < |rows|
        invariant 0 <= i <= |rows|
        invariant docs == WriteAll(old(docs), document, rows[..i])
        invariant forall k | 0 <= k < i :: StatusKnown(codes, rows[k].cols.status)
      {
        if !StatusKnown(codes, rows[i].cols.status) {
          return false;
        }
        docs := docs[Key(document, rows[i].id) := rows[i].cols];
        assert rows[..i + 1][..i] == rows[..i];
        i := i + 1;
      }
      assert rows[..i] == rows;
      return true;
    }

    /** The rows are those the WHERE clause selects. All are written before the triggers fire. The
        log only grows, and each document's part of it by at most the one step it took. */
    method UpdateRows(document: Document, rows: seq<Row<Doc>>) returns (ok: bool)
      requires Unique(rows, IdOf) && forall k | 0 <= k < |rows| :: Key(document, rows[k].id) in docs
      modifies this
      ensures ok <==> Accepts(old(Tables()), Update(document, rows))
      ensures Tables() == Next(old(Tables()), Update(document, rows))
      ensures ok <==> forall k | 0 <= k < |rows| ::
                rows[k].cols.status.Some? ==> rows[k].cols.status.value in codes
      ensures docs.Keys == old(docs).Keys
      ensures ok ==> forall k | 0 <= k < |rows| ::
                Key(document, rows[k].id) in docs && docs[Key(document, rows[k].id)] == rows[k].cols
      ensures forall key | key in docs && !(key.document == document && Has(rows, key.id)) ::
                docs[key] == old(docs)[key]
      ensures old(history) <= history
      ensures var changed := if ok then Changed(old(docs), document, rows) else [];
              |history| == |old(history)| + |changed|
              && forall i | 0 <= i < |changed| ::
                   LoggedAs(old(docs), document, changed[i], history[|old(history)| + i])
      ensures forall key :: LogOf(history, key)
                == LogOf(old(history), key) + if ok then StepOf(old(docs), document, rows, key) else []
    {
      hide LogOf, StepOf, Logged, WriteAll, Changed, LoggedAs;
      LoggedSays(docs, document, rows);
      RowsWritten(docs, document, rows);
      forall key
        ensures LogOf(history + Logged(docs, document, rows), key)
             == LogOf(history, key) + StepOf(docs, document, rows, key)
      {
        LogOfAppend(history, Logged(docs, document, rows), key);
        LoggedOnce(docs, document, rows, key);
      }
      var saved := docs;
      ok := WriteRows(document, rows);
      if !ok {
        docs := saved;
        return;
      }
      AuditRows(saved, document, rows);
    }

    /** The row triggers of one UPDATE, in the order of the rows. */
    method AuditRows(was: map<Key, Doc>, document: Document, rows: seq<Row<Doc>>)
      requires forall k | 0 <= k < |rows| :: Key(document, rows[k].id) in was
      modifies this`history
      ensures history == old(history) + Logged(was, document, rows)
    {
      hide Logged, EntryFor;
      assert rows[..0] == [] && Logged(was, document, []) == [] by { NothingLogged(was, document); }
      var i := 0;
      while i < |rows|
        invariant 0 <= i <= |rows|
        invariant history == old(history) + Logged(was, document, rows[..i])
      {
        var key := Key(document, rows[i].id);
        Audit(key, was[key], rows[i].cols);
        LoggedStep(was, document, rows, i);
        i := i + 1;
      }
      assert rows[..i] == rows;
    }
  }
}
