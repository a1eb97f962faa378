/** The shared tenant registry: registration, module subscription and the provisioning log. */
module Tenants {
  import opened Options
  import opened Sql
  import opened Table

  const OPERATIONS := "operations"

  const FINANCE := "finance"

  datatype Tenant = Tenant(name: string, email: Option<string>, slug: string,
                           operations: Option<string>, finance: Option<string>)

  datatype LogRow = LogRow(tenant: Id, mod: string, schema: string, status: string,
                           error: Option<string>, at: int)

  datatype Db = Db(tenants: map<Id, Tenant>, log: seq<LogRow>)

  const EMPTY := Db(map[], [])

  /** `generated` is the uuid used when no id is given, `at` the transaction's timestamp, and
      `pick` the log row that the query of a mark returns. */
  datatype Call =
    | Register(id: Option<Id>, slug: Option<string>, name: Option<string>, email: Option<string>, generated: Id)
    | Subscribe(tenant: Id, mod: string, schema: Option<string>, at: int)
    | Mark(tenant: Id, mod: string, status: Option<string>, error: Option<string>, pick: nat)

  function Lower(c: char): char {
    if 'A' <= c <= 'Z' then (c as int + 32) as char else c
  }

  predicate SlugChar(c: char) {
    'a' <= c <= 'z' || '0' <= c <= '9' || c == '_'
  }

  predicate SlugOk(s: string) {
    |s| > 0 && forall i | 0 <= i < |s| :: SlugChar(s[i])
  }

  /** regexp_replace(lower(name), '[^a-z0-9]', '_', 'g') */
  function DerivedSlug(name: string): (r: string)
    ensures |r| == |name|
  {
    seq(|name|, i requires 0 <= i < |name| =>
      var c := Lower(name[i]);
      if 'a' <= c <= 'z' || '0' <= c <= '9' then c else '_')
  }

  function RegisteredId(c: Call): Id
    requires c.Register?
  {
    if c.id.Some? then c.id.value else c.generated
  }

  function ProposedSlug(c: Call): Option<string>
    requires c.Register?
  {
    Coalesce(c.slug, if c.name.Some? then Some(DerivedSlug(c.name.value)) else None)
  }

  predicate ModuleKnown(mod: string) {
    mod == OPERATIONS || mod == FINANCE
  }

  function Column(t: Tenant, mod: string): Option<string> {
    if mod == OPERATIONS then t.operations else if mod == FINANCE then t.finance else None
  }

  function SetColumn(t: Tenant, mod: string, schema: string): Tenant {
    if mod == OPERATIONS then t.(operations := Some(schema)) else t.(finance := Some(schema))
  }

  function SchemaFor(db: Db, c: Call): string
    requires c.Subscribe? && c.tenant in db.tenants
  {
    if c.schema.Some? then c.schema.value else c.mod + "_" + db.tenants[c.tenant].slug
  }

  predicate IsPending(r: LogRow, tenant: Id, mod: string) {
    r.tenant == tenant && r.mod == mod && r.status == "pending"
  }

  predicate AnyPending(log: seq<LogRow>, tenant: Id, mod: string) {
    exists i | 0 <= i < |log| :: IsPending(log[i], tenant, mod)
  }

  /** ORDER BY provisioned_at DESC LIMIT 1 over the pending rows of a tenant and module may return
      any of the latest ones: ties are open. */
  predicate MayPick(log: seq<LogRow>, tenant: Id, mod: string, k: nat) {
    && k < |log| && IsPending(log[k], tenant, mod)
    && forall i | 0 <= i < |log| && IsPending(log[i], tenant, mod) :: log[i].at <= log[k].at
  }

  predicate StatusOk(status: Option<string>) {
    status == Some("pending") || status == Some("success") || status == Some("failed")
  }

  /** A mark whose pick its query cannot return is no step either. */
  predicate Accepts(db: Db, c: Call) {
    match c
    case Register(_, _, name, _, _) =>
      var slug := ProposedSlug(c);
      && name.Some? && slug.Some? && SlugOk(slug.value)
      && (RegisteredId(c) in db.tenants || forall t | t in db.tenants :: db.tenants[t].slug != slug.value)
    case Subscribe(tenant, mod, _, _) => tenant in db.tenants && ModuleKnown(mod)
    case Mark(tenant, mod, status, _, pick) =>
      !AnyPending(db.log, tenant, mod) || (StatusOk(status) && MayPick(db.log, tenant, mod, pick))
  }

  function Effect(db: Db, c: Call): Db
    requires Accepts(db, c)
  {
    match c
    case Register(_, _, name, email, _) =>
      var id := RegisteredId(c);
      var row := if id in db.tenants then db.tenants[id].(name := name.value, email := email)
                 else Tenant(name.value, email, ProposedSlug(c).value, None, None);
      db.(tenants := db.tenants[id := row])
    case Subscribe(tenant, mod, _, at) =>
      var schema := SchemaFor(db, c);
      Db(db.tenants[tenant := SetColumn(db.tenants[tenant], mod, schema)],
         db.log + [LogRow(tenant, mod, schema, "pending", None, at)])
    case Mark(tenant, mod, status, error, pick) =>
      if !AnyPending(db.log, tenant, mod) then db
      else db.(log := db.log[pick := db.log[pick].(status := status.value, error := error)])
  }

  function Next(db: Db, c: Call): Db {
    if Accepts(db, c) then Effect(db, c) else db
  }

  function Run(db: Db, calls: seq<Call>): Db {
    if |calls| == 0 then db
    else Next(Run(db, calls[..|calls| - 1]), calls[|calls| - 1])
  }

  // ---- Slugs ----

  lemma {:induction false} DerivedSlugOk(name: string)
    ensures SlugOk(DerivedSlug(name)) <==> name != ""
  {
  }

  /** ASCII capitals become small letters, small letters and digits stay, anything else becomes an
      underscore. */
  lemma {:induction false} DerivedSlugChars(name: string, i: nat)
    requires i < |name|
    ensures |DerivedSlug(name)| == |name|
    ensures 'A' <= name[i] <= 'Z' ==>
              'a' <= DerivedSlug(name)[i] <= 'z' && DerivedSlug(name)[i] - 'a' == name[i] - 'A'
    ensures 'a' <= name[i] <= 'z' || '0' <= name[i] <= '9' ==> DerivedSlug(name)[i] == name[i]
    ensures !('A' <= name[i] <= 'Z' || 'a' <= name[i] <= 'z' || '0' <= name[i] <= '9') ==> DerivedSlug(name)[i] == '_'
  {
  }

  predicate SlugsUnique(db: Db) {
    && (forall t | t in db.tenants :: SlugOk(db.tenants[t].slug))
    && (forall t, u | t in db.tenants && u in db.tenants && t != u :: db.tenants[t].slug != db.tenants[u].slug)
  }

  /** Slugs are well-formed, unique, and never change once a tenant is registered. */
  lemma {:induction false} SlugsKept(db: Db, c: Call)
    requires SlugsUnique(db)
    ensures SlugsUnique(Next(db, c))
    ensures forall t | t in db.tenants :: t in Next(db, c).tenants && Next(db, c).tenants[t].slug == db.tenants[t].slug
  {
  }

  // ---- The cached column ----

  /** The schema of the newest log row of a tenant and module. */
  function LatestSchema(log: seq<LogRow>, tenant: Id, mod: string): Option<string> {
    if |log| == 0 then None
    else
      var r := log[|log| - 1];
      if r.tenant == tenant && r.mod == mod then Some(r.schema) else LatestSchema(log[..|log| - 1], tenant, mod)
  }

  lemma {:induction false} LatestSchemaSome(log: seq<LogRow>, tenant: Id, mod: string)
    ensures LatestSchema(log, tenant, mod).Some?
       <==> exists i | 0 <= i < |log| :: log[i].tenant == tenant && log[i].mod == mod
  {
    if |log| > 0 {
      var n := |log| - 1;
      assert forall i | 0 <= i < n :: log[..n][i] == log[i];
      LatestSchemaSome(log[..n], tenant, mod);
      if i :| 0 <= i < |log| && log[i].tenant == tenant && log[i].mod == mod && i < n {
        assert log[..n][i] == log[i];
      }
    }
  }

  lemma {:induction false} LatestSchemaSame(log: seq<LogRow>, other: seq<LogRow>, tenant: Id, mod: string)
    requires |log| == |other|
    requires forall i | 0 <= i < |log| ::
               log[i].tenant == other[i].tenant && log[i].mod == other[i].mod && log[i].schema == other[i].schema
    ensures LatestSchema(log, tenant, mod) == LatestSchema(other, tenant, mod)
  {
    if |log| > 0 {
      LatestSchemaSame(log[..|log| - 1], other[..|log| - 1], tenant, mod);
    }
  }

  /** The column of every tenant equals its log, and only registered tenants are in the log. */
  ghost predicate ColumnsCached(db: Db) {
    && (forall t, m | t in db.tenants && ModuleKnown(m) :: Column(db.tenants[t], m) == LatestSchema(db.log, t, m))
    && (forall i | 0 <= i < |db.log| :: db.log[i].tenant in db.tenants && ModuleKnown(db.log[i].mod))
  }

  lemma {:induction false} NewTenantHasNoSchema(db: Db, t: Id, m: string)
    requires ColumnsCached(db) && t !in db.tenants
    ensures LatestSchema(db.log, t, m) == None
  {
    LatestSchemaSome(db.log, t, m);
  }

  lemma {:induction false} ColumnsCachedNext(db: Db, c: Call)
    requires ColumnsCached(db)
    ensures ColumnsCached(Next(db, c))
  {
    if Accepts(db, c) {
      var after := Effect(db, c);
      forall t, m | t in after.tenants && ModuleKnown(m)
        ensures Column(after.tenants[t], m) == LatestSchema(after.log, t, m)
      {
        match c
        case Register(_, _, _, _, _) =>
          if t !in db.tenants { NewTenantHasNoSchema(db, t, m); }
        case Subscribe(_, _, _, _) =>
          assert after.log[..|db.log|] == db.log;
        case Mark(_, _, _, _, _) =>
          LatestSchemaSame(db.log, after.log, t, m);
      }
    }
  }

  function HasModuleIn(db: Db, tenant: Id, mod: string): bool {
    tenant in db.tenants && Column(db.tenants[tenant], mod).Some?
  }

  /** From the empty registry, after any calls: the schema column is the newest log row's schema,
      and a tenant has a module exactly when the log has a row for it. */
  lemma {:induction false} ColumnsAreLatest(calls: seq<Call>, t: Id, m: string)
    ensures ColumnsCached(Run(EMPTY, calls))
    ensures var db := Run(EMPTY, calls);
            HasModuleIn(db, t, m) <==> exists i | 0 <= i < |db.log| :: db.log[i].tenant == t && db.log[i].mod == m
  {
    if |calls| > 0 {
      ColumnsAreLatest(calls[..|calls| - 1], t, m);
      ColumnsCachedNext(Run(EMPTY, calls[..|calls| - 1]), calls[|calls| - 1]);
    }
    LatestSchemaSome(Run(EMPTY, calls).log, t, m);
  }

  // ---- Names ----

  /** Every set column is the module's name, an underscore and the tenant's slug. */
  ghost predicate NamesDerived(db: Db) {
    forall t, m | t in db.tenants && ModuleKnown(m) && Column(db.tenants[t], m).Some? ::
      Column(db.tenants[t], m).value == m + "_" + db.tenants[t].slug
  }

  lemma {:induction false} NamesDerivedRun(calls: seq<Call>)
    requires forall i | 0 <= i < |calls| && calls[i].Subscribe? :: calls[i].schema.None?
    ensures SlugsUnique(Run(EMPTY, calls)) && NamesDerived(Run(EMPTY, calls))
  {
    if |calls| > 0 {
      var front := calls[..|calls| - 1];
      NamesDerivedRun(front);
      SlugsKept(Run(EMPTY, front), calls[|calls| - 1]);
    }
  }

  lemma {:induction false} NamesDiffer(m: string, n: string, s: string, u: string)
    requires ModuleKnown(m) && ModuleKnown(n) && (m != n || s != u)
    ensures m + "_" + s != n + "_" + u
  {
    if m == n {
      var k := |m + "_"|;
      assert (m + "_" + s)[k..] == s && (n + "_" + u)[k..] == u;
    } else {
      assert OPERATIONS[0] == 'o' && FINANCE[0] == 'f';
      assert (m + "_" + s)[0] == m[0] && (n + "_" + u)[0] == n[0];
    }
  }

  /** Without explicit schema names, distinct tenant-module pairs get distinct schemas. */
  lemma {:induction false} SchemasDistinct(calls: seq<Call>, t: Id, m: string, u: Id, n: string)
    requires forall i | 0 <= i < |calls| && calls[i].Subscribe? :: calls[i].schema.None?
    requires HasModuleIn(Run(EMPTY, calls), t, m) && HasModuleIn(Run(EMPTY, calls), u, n)
    requires t != u || m != n
    ensures Column(Run(EMPTY, calls).tenants[t], m) != Column(Run(EMPTY, calls).tenants[u], n)
  {
    NamesDerivedRun(calls);
    var db := Run(EMPTY, calls);
    NamesDiffer(m, n, db.tenants[t].slug, db.tenants[u].slug);
  }

  // ---- The provisioning log ----

  /** The pending rows of a tenant and module, oldest first. */
  function Pending(log: seq<LogRow>, tenant: Id, mod: string): (r: seq<nat>)
    ensures forall i | 0 <= i < |r| :: r[i] < |log|
  {
    if |log| == 0 then []
    else
      var front := Pending(log[..|log| - 1], tenant, mod);
      if IsPending(log[|log| - 1], tenant, mod) then front + [|log| - 1] else front
  }

  /** The mark resolves a row: its query returns one, and its status is final. */
  predicate Resolves(db: Db, c: Call) {
    && c.Mark? && (c.status == Some("success") || c.status == Some("failed"))
    && MayPick(db.log, c.tenant, c.mod, c.pick)
  }

  predicate Concerns(c: Call, tenant: Id, mod: string) {
    (c.Subscribe? || c.Mark?) && c.tenant == tenant && c.mod == mod
  }

  function Subscribes(calls: seq<Call>, tenant: Id, mod: string): nat {
    if |calls| == 0 then 0
    else
      var front, c := calls[..|calls| - 1], calls[|calls| - 1];
      Subscribes(front, tenant, mod)
      + if Concerns(c, tenant, mod) && c.Subscribe? && Accepts(Run(EMPTY, front), c) then 1 else 0
  }

  function EffectiveMarks(calls: seq<Call>, tenant: Id, mod: string): nat {
    if |calls| == 0 then 0
    else
      var front, c := calls[..|calls| - 1], calls[|calls| - 1];
      EffectiveMarks(front, tenant, mod)
      + if Concerns(c, tenant, mod) && Resolves(Run(EMPTY, front), c) then 1 else 0
  }

  /** Open subscriptions as a stack of log rows: subscribe pushes, an effective mark pops. */
  function Open(calls: seq<Call>, tenant: Id, mod: string): seq<nat> {
    if |calls| == 0 then []
    else
      var front, c := calls[..|calls| - 1], calls[|calls| - 1];
      var db := Run(EMPTY, front);
      var open := Open(front, tenant, mod);
      if !Concerns(c, tenant, mod) then open
      else if c.Subscribe? && Accepts(db, c) then open + [|db.log|]
      else if Resolves(db, c) && |open| > 0 then open[..|open| - 1]
      else open
  }

  lemma {:induction false} PendingIs(log: seq<LogRow>, tenant: Id, mod: string)
    ensures forall k :: k in Pending(log, tenant, mod) <==> 0 <= k < |log| && IsPending(log[k], tenant, mod)
  {
    if |log| > 0 {
      var n := |log| - 1;
      assert forall i | 0 <= i < n :: log[..n][i] == log[i];
      PendingIs(log[..n], tenant, mod);
    }
  }

  lemma {:induction false} PendingSame(log: seq<LogRow>, other: seq<LogRow>, tenant: Id, mod: string)
    requires |log| == |other|
    requires forall i | 0 <= i < |log| :: IsPending(log[i], tenant, mod) <==> IsPending(other[i], tenant, mod)
    ensures Pending(log, tenant, mod) == Pending(other, tenant, mod)
  {
    if |log| > 0 {
      PendingSame(log[..|log| - 1], other[..|log| - 1], tenant, mod);
    }
  }

  /** Resolving one pending row takes it, and only it, out of the pending ones. */
  lemma {:induction false} PendingResolved(log: seq<LogRow>, k: nat, r: LogRow, tenant: Id, mod: string)
    requires k < |log| && IsPending(log[k], tenant, mod) && !IsPending(r, tenant, mod)
    ensures |Pending(log[k := r], tenant, mod)| == |Pending(log, tenant, mod)| - 1
    ensures var p := Pending(log, tenant, mod);
            |p| > 0 && (p[|p| - 1] == k ==> Pending(log[k := r], tenant, mod) == p[..|p| - 1])
  {
    hide IsPending;
    var n := |log| - 1;
    if k == n {
      assert log[k := r][..n] == log[..n];
    } else {
      assert log[k := r][..n] == log[..n][k := r];
      PendingResolved(log[..n], k, r, tenant, mod);
      if IsPending(log[n], tenant, mod) {
        var p := Pending(log, tenant, mod);
        assert p[|p| - 1] == n;
      }
    }
  }

  /** Timestamps of a tenant and module grow along the log, as they do when each subscription is
      a transaction of its own. */
  predicate Increasing(log: seq<LogRow>, tenant: Id, mod: string) {
    forall i, j | 0 <= i < j < |log| && log[i].tenant == log[j].tenant == tenant && log[i].mod == log[j].mod == mod ::
      log[i].at < log[j].at
  }

  lemma {:induction false} PendingSorted(log: seq<LogRow>, tenant: Id, mod: string)
    ensures var p := Pending(log, tenant, mod);
            |p| > 0 ==> p[|p| - 1] < |log| && IsPending(log[p[|p| - 1]], tenant, mod)
                        && forall i | p[|p| - 1] < i < |log| :: !IsPending(log[i], tenant, mod)
  {
    if |log| > 0 {
      var n := |log| - 1;
      assert forall i | 0 <= i < n :: log[..n][i] == log[i];
      PendingSorted(log[..n], tenant, mod);
    }
  }

  /** Where something is pending, the query returns some row. */
  lemma {:induction false} SomePick(log: seq<LogRow>, tenant: Id, mod: string) returns (k: nat)
    requires AnyPending(log, tenant, mod)
    ensures MayPick(log, tenant, mod, k)
  {
    var n := |log| - 1;
    assert forall i | 0 <= i < n :: log[..n][i] == log[i];
    if AnyPending(log[..n], tenant, mod) {
      k := SomePick(log[..n], tenant, mod);
      if IsPending(log[n], tenant, mod) && log[k].at < log[n].at {
        k := n;
      }
    } else {
      forall i | 0 <= i < n ensures !IsPending(log[i], tenant, mod) {
        assert log[..n][i] == log[i];
      }
      k := n;
    }
  }

  /** Every row that the query of a mark may return is the latest open subscription, if and only
      if no other open one carries a timestamp as late as its own. */
  lemma {:induction false} MarkFindsNewestIff(log: seq<LogRow>, tenant: Id, mod: string)
    requires |Pending(log, tenant, mod)| > 0
    ensures var newest := Pending(log, tenant, mod)[|Pending(log, tenant, mod)| - 1];
            ((forall k | MayPick(log, tenant, mod, k) :: k == newest)
             <==> forall i | 0 <= i < |log| && IsPending(log[i], tenant, mod) && i != newest ::
                    log[i].at < log[newest].at)
  {
    PendingSorted(log, tenant, mod);
    var newest := Pending(log, tenant, mod)[|Pending(log, tenant, mod)| - 1];
    var k := SomePick(log, tenant, mod);
    if i :| 0 <= i < |log| && IsPending(log[i], tenant, mod) && i != newest && log[i].at >= log[newest].at {
      assert k == newest ==> MayPick(log, tenant, mod, i);
    }
  }

  lemma {:induction false} MarkFindsNewest(log: seq<LogRow>, tenant: Id, mod: string, k: nat)
    requires Increasing(log, tenant, mod) && MayPick(log, tenant, mod, k)
    ensures var p := Pending(log, tenant, mod);
            |p| > 0 && k == p[|p| - 1]
  {
    PendingIs(log, tenant, mod);
    assert k in Pending(log, tenant, mod);
    PendingSorted(log, tenant, mod);
    MarkFindsNewestIff(log, tenant, mod);
  }

  // ---- Steps on the log ----

  /** Log rows keep all but status and error, and resolved rows keep those too. */
  predicate LogExtends(log: seq<LogRow>, after: seq<LogRow>) {
    && |log| <= |after|
    && forall i | 0 <= i < |log| ::
         && after[i] == log[i].(status := after[i].status, error := after[i].error)
         && (log[i].status != "pending" ==> after[i] == log[i])
  }

  /** Success and failed rows never change again, in any run. */
  lemma {:induction false} ResolvedIsFinal(db: Db, calls: seq<Call>)
    ensures LogExtends(db.log, Run(db, calls).log)
  {
    if |calls| > 0 {
      ResolvedIsFinal(db, calls[..|calls| - 1]);
    }
  }

  lemma {:induction false} PendingNext(db: Db, c: Call, tenant: Id, mod: string)
    ensures !Concerns(c, tenant, mod) ==> Pending(Next(db, c).log, tenant, mod) == Pending(db.log, tenant, mod)
    ensures Concerns(c, tenant, mod) && c.Subscribe? ==>
              Pending(Next(db, c).log, tenant, mod)
              == if Accepts(db, c) then Pending(db.log, tenant, mod) + [|db.log|] else Pending(db.log, tenant, mod)
    ensures Concerns(c, tenant, mod) && c.Mark? && !Resolves(db, c) ==>
              Pending(Next(db, c).log, tenant, mod) == Pending(db.log, tenant, mod)
    ensures Concerns(c, tenant, mod) && Resolves(db, c) ==>
              var p := Pending(db.log, tenant, mod);
              |p| > 0 && |Pending(Next(db, c).log, tenant, mod)| == |p| - 1
              && (Increasing(db.log, tenant, mod) ==> Pending(Next(db, c).log, tenant, mod) == p[..|p| - 1])
  {
    var log := Next(db, c).log;
    if c.Subscribe? && Accepts(db, c) {
      assert log[..|db.log|] == db.log;
    } else if c.Mark? && Accepts(db, c) && AnyPending(db.log, c.tenant, c.mod) {
      if Concerns(c, tenant, mod) && Resolves(db, c) {
        PendingResolved(db.log, c.pick, log[c.pick], tenant, mod);
        if Increasing(db.log, tenant, mod) { MarkFindsNewest(db.log, tenant, mod, c.pick); }
      } else {
        PendingSame(db.log, log, tenant, mod);
      }
    }
  }

  /** Pending rows are the accepted subscribes minus the effective marks, in every run and
      whatever rows the marks pick. */
  lemma {:induction false} PendingCount(calls: seq<Call>, tenant: Id, mod: string)
    ensures |Pending(Run(EMPTY, calls).log, tenant, mod)|
         == Subscribes(calls, tenant, mod) - EffectiveMarks(calls, tenant, mod)
  {
    if |calls| > 0 {
      var front := calls[..|calls| - 1];
      PendingCount(front, tenant, mod);
      PendingNext(Run(EMPTY, front), calls[|calls| - 1], tenant, mod);
    }
  }

  /** Bracket matching: with growing timestamps the pending rows are exactly the stack of open
      subscriptions, so each effective mark resolves the latest unmatched subscribe. */
  lemma {:induction false} PendingIsStack(calls: seq<Call>, tenant: Id, mod: string)
    requires Increasing(Run(EMPTY, calls).log, tenant, mod)
    ensures Pending(Run(EMPTY, calls).log, tenant, mod) == Open(calls, tenant, mod)
  {
    if |calls| > 0 {
      var front := calls[..|calls| - 1];
      var db := Run(EMPTY, front);
      ResolvedIsFinal(db, [calls[|calls| - 1]]);
      assert [calls[|calls| - 1]][..0] == [];
      assert Run(db, []) == db;
      IncreasingBefore(db.log, Run(EMPTY, calls).log, tenant, mod);
      PendingIsStack(front, tenant, mod);
      PendingNext(db, calls[|calls| - 1], tenant, mod);
    }
  }

  lemma {:induction false} IncreasingBefore(log: seq<LogRow>, after: seq<LogRow>, tenant: Id, mod: string)
    requires LogExtends(log, after) && Increasing(after, tenant, mod)
    ensures Increasing(log, tenant, mod)
  {
    forall i, j | 0 <= i < j < |log| && log[i].tenant == log[j].tenant == tenant && log[i].mod == log[j].mod == mod
      ensures log[i].at < log[j].at
    {
      assert after[i] == log[i].(status := after[i].status, error := after[i].error);
      assert after[j] == log[j].(status := after[j].status, error := after[j].error);
    }
  }

  // ---- Where a log row comes from ----

  /** This call appended the row: a pending one with the schema name asked for, or else the module's
      name, an underscore and the tenant's slug. */
  predicate Opened(db: Db, c: Call, r: LogRow) {
    && c.Subscribe? && Accepts(db, c)
    && r.tenant == c.tenant && r.mod == c.mod && r.at == c.at
    && (c.schema.Some? ==> r.schema == c.schema.value)
    && (c.schema.None? ==> r.schema == c.mod + "_" + db.tenants[c.tenant].slug)
  }

  /** This call picked row k, pending until then, and gave it its status and error. */
  predicate Closed(db: Db, c: Call, k: nat, r: LogRow) {
    && c.Mark? && Accepts(db, c)
    && c.pick == k < |db.log| && db.log[k].status == "pending" && db.log[k].tenant == c.tenant && db.log[k].mod == c.mod
    && Some(r.status) == c.status && r.error == c.error
  }

  lemma {:induction false} RowNext(db: Db, c: Call, k: nat)
    requires k < |Next(db, c).log|
    ensures k < |db.log| ==>
              Next(db, c).log[k] == db.log[k] || Closed(db, c, k, Next(db, c).log[k])
    ensures k >= |db.log| ==>
              Opened(db, c, Next(db, c).log[k]) && Next(db, c).log[k].status == "pending"
              && Next(db, c).log[k].error == None
  {
  }

  /** Every row of the log of any run was appended by a subscribe of the run, with that call's
      tenant, module, time and schema name. */
  lemma {:induction false} RowWasOpened(calls: seq<Call>, k: nat) returns (j: nat)
    requires k < |Run(EMPTY, calls).log|
    ensures j < |calls| && Opened(Run(EMPTY, calls[..j]), calls[j], Run(EMPTY, calls).log[k])
  {
    hide Next, Opened, Closed;
    var n := |calls| - 1;
    var db := Run(EMPTY, calls[..n]);
    RowNext(db, calls[n], k);
    if k < |db.log| {
      j := RowWasOpened(calls[..n], k);
      assert calls[..n][..j] == calls[..j];
      OpenedSame(Run(EMPTY, calls[..j]), calls[j], db, calls[n], k);
    } else {
      j := n;
    }
  }

  lemma {:induction false} OpenedSame(before: Db, opener: Call, db: Db, c: Call, k: nat)
    requires k < |db.log| && Opened(before, opener, db.log[k])
    ensures k < |Next(db, c).log| && Opened(before, opener, Next(db, c).log[k])
  {
  }

  /** A row of any run that is no longer pending has the status and the error of the mark of the run
      that picked it. */
  lemma {:induction false} RowWasClosed(calls: seq<Call>, k: nat) returns (j: nat)
    requires k < |Run(EMPTY, calls).log| && Run(EMPTY, calls).log[k].status != "pending"
    ensures j < |calls| && Closed(Run(EMPTY, calls[..j]), calls[j], k, Run(EMPTY, calls).log[k])
  {
    hide Next, Closed, Opened;
    var n := |calls| - 1;
    var db := Run(EMPTY, calls[..n]);
    RowNext(db, calls[n], k);
    if k < |db.log| && Run(EMPTY, calls).log[k] == db.log[k] {
      j := RowWasClosed(calls[..n], k);
      assert calls[..n][..j] == calls[..j];
    } else {
      j := n;
    }
  }

  // ---- What every procedure keeps ----

  /** Slugs are well-formed and unique, and the schema columns are those of the log. */
  ghost predicate Sound(db: Db) {
    SlugsUnique(db) && ColumnsCached(db)
  }

  lemma {:induction false} SoundNext(db: Db, c: Call)
    requires Sound(db)
    ensures Sound(Next(db, c))
  {
    SlugsKept(db, c);
    ColumnsCachedNext(db, c);
  }

  /** What a call leaves alone for the pairs it does not concern: column and open subscriptions. */
  ghost predicate OthersKept(db: Db, after: Db, tenant: Id, mod: string) {
    forall t, m | t in db.tenants && (t != tenant || m != mod) ::
      && t in after.tenants
      && Column(after.tenants[t], m) == Column(db.tenants[t], m)
      && Pending(after.log, t, m) == Pending(db.log, t, m)
  }

  lemma {:induction false} OthersKeptNext(db: Db, c: Call)
    requires c.Subscribe? || c.Mark?
    ensures OthersKept(db, Next(db, c), c.tenant, c.mod)
  {
    hide Pending;
    forall t, m | t in db.tenants && (t != c.tenant || m != c.mod)
      ensures Pending(Next(db, c).log, t, m) == Pending(db.log, t, m)
    {
      PendingNext(db, c, t, m);
    }
  }

  /** What a mark does, pick and all. */
  lemma {:induction false} MarkNext(db: Db, c: Call)
    requires c.Mark?
    ensures var after := Next(db, c);
            && after.tenants == db.tenants && |after.log| == |db.log| && LogExtends(db.log, after.log)
            && (AnyPending(db.log, c.tenant, c.mod) && Accepts(db, c) ==>
                  after.log == db.log[c.pick := db.log[c.pick].(status := c.status.value, error := c.error)])
  {
  }

  // ---- The procedures ----

  class Registry {
    var tenants: map<Id, Tenant>
    var log: seq<LogRow>

    function Tables(): Db
      reads this
    {
      Db(tenants, log)
    }

    constructor ()
      ensures Tables() == EMPTY && Sound(Tables())
    {
      tenants, log := map[], [];
    }

    /** Registers a tenant under a slug that no other has, or renames a known one, which keeps its
        slug and its modules. */
    method RegisterTenant(id: Option<Id>, slug: Option<string>, name: Option<string>, email: Option<string>,
                          generated: Id) returns (ok: bool)
      requires Sound(Tables())
      modifies this
      ensures ok <==> Accepts(old(Tables()), Register(id, slug, name, email, generated))
      ensures Tables() == Next(old(Tables()), Register(id, slug, name, email, generated)) && Sound(Tables())
      ensures log == old(log)
      ensures forall t | t in old(tenants) ::
                t in tenants && tenants[t] == old(tenants)[t].(name := tenants[t].name, email := tenants[t].email)
      ensures forall t | t in old(tenants) && t != (if id.Some? then id.value else generated) ::
                tenants[t] == old(tenants)[t]
      ensures ok ==>
                var t := if id.Some? then id.value else generated;
                && name.Some? && t in tenants && tenants.Keys == old(tenants).Keys + {t}
                && tenants[t].name == name.value && tenants[t].email == email
                && (t !in old(tenants) ==>
                      && tenants[t].operations == tenants[t].finance == None
                      && tenants[t].slug == (if slug.Some? then slug.value else DerivedSlug(name.value))
                      && forall u | u in old(tenants) :: old(tenants)[u].slug != tenants[t].slug)
      ensures ok <==>
                && name.Some?
                && var s := if slug.Some? then slug.value else DerivedSlug(name.value);
                   && s != ""
                   && (forall i | 0 <= i < |s| :: 'a' <= s[i] <= 'z' || '0' <= s[i] <= '9' || s[i] == '_')
                   && ((if id.Some? then id.value else generated) in old(tenants)
                       || forall u | u in old(tenants) :: old(tenants)[u].slug != s)
    {
      SoundNext(Tables(), Register(id, slug, name, email, generated));
      hide ColumnsCached;
      var tenantId := if id.Some? then id.value else generated;
      var derived: Option<string> := None;
      if name.Some? {
        derived := Some(DerivedSlug(name.value));
      }
      var tenantSlug := Coalesce(slug, derived);
      if name.None? || tenantSlug.None? || !SlugOk(tenantSlug.value) {
        return false;
      }
      if tenantId in tenants {
        tenants := tenants[tenantId := tenants[tenantId].(name := name.value, email := email)];
      } else if exists t | t in tenants :: tenants[t].slug == tenantSlug.value {
        return false;
      } else {
        tenants := tenants[tenantId := Tenant(name.value, email, tenantSlug.value, None, None)];
      }
      ok := true;
    }

    /** Gives the tenant the module and opens a subscription, the newest one; all other columns and
        open subscriptions stay. */
    method SubscribeTenantToModule(tenant: Id, mod: string, schema: Option<string>, at: int) returns (ok: bool)
      requires Sound(Tables())
      modifies this
      ensures ok <==> Accepts(old(Tables()), Subscribe(tenant, mod, schema, at))
      ensures Tables() == Next(old(Tables()), Subscribe(tenant, mod, schema, at)) && Sound(Tables())
      ensures ok <==> tenant in old(tenants) && (mod == "operations" || mod == "finance")
      ensures ok ==>
                var was := old(tenants)[tenant];
                var name := if schema.Some? then schema.value else mod + "_" + was.slug;
                && tenants == old(tenants)[tenant := if mod == "operations" then was.(operations := Some(name))
                                                     else was.(finance := Some(name))]
                && log == old(log) + [LogRow(tenant, mod, name, "pending", None, at)]
      ensures !ok ==> Tables() == old(Tables())
      ensures ok ==> HasModuleIn(Tables(), tenant, mod)
                     && Column(tenants[tenant], mod) == LatestSchema(log, tenant, mod)
                     && Pending(log, tenant, mod) == Pending(old(log), tenant, mod) + [|old(log)|]
      ensures OthersKept(old(Tables()), Tables(), tenant, mod)
    {
      ghost var call := Subscribe(tenant, mod, schema, at);
      SoundNext(Tables(), call);
      OthersKeptNext(Tables(), call);
      PendingNext(Tables(), call, tenant, mod);
      hide SlugsUnique, Pending, LatestSchema, OthersKept;
      if tenant !in tenants {
        return false;
      }
      var name: string;
      if schema.Some? {
        name := schema.value;
      } else {
        name := tenants[tenant].slug;
        name := mod + "_" + name;
      }
      if mod == OPERATIONS {
        tenants := tenants[tenant := tenants[tenant].(operations := Some(name))];
      } else if mod == FINANCE {
        tenants := tenants[tenant := tenants[tenant].(finance := Some(name))];
      } else {
        return false;
      }
      log := log + [LogRow(tenant, mod, name, "pending", None, at)];
      ok := true;
    }

    /** The query of a mark: one of the latest pending rows, whichever of several. */
    method LatestPending(tenant: Id, mod: string) returns (latest: Option<nat>)
      ensures latest.None? <==> !AnyPending(log, tenant, mod)
      ensures latest.Some? ==> MayPick(log, tenant, mod, latest.value)
    {
      latest := None;
      var i := 0;
      while i < |log|
        invariant 0 <= i <= |log|
        invariant latest.None? ==> forall k | 0 <= k < i :: !IsPending(log[k], tenant, mod)
        invariant latest.Some? ==>
                    && latest.value < i && IsPending(log[latest.value], tenant, mod)
                    && forall k | 0 <= k < i && IsPending(log[k], tenant, mod) :: log[k].at <= log[latest.value].at
      {
        if IsPending(log[i], tenant, mod) {
          if latest.None? || log[latest.value].at < log[i].at {
            latest := Some(i);
          } else if log[latest.value].at == log[i].at {
            if * {
              latest := Some(i);
            }
          }
        }
        i := i + 1;
      }
    }

    /** Closes one of the latest open subscriptions of the pair, if there is one and the status is
        final, and nothing else: resolved rows and all other pairs stay. */
    method MarkModuleProvisioned(tenant: Id, mod: string, status: Option<string>, error: Option<string>)
      returns (ok: bool, pick: nat)
      requires Sound(Tables())
      modifies this
      ensures AnyPending(old(log), tenant, mod) ==> MayPick(old(log), tenant, mod, pick)
      ensures ok <==> AnyPending(old(log), tenant, mod) ==>
                status == Some("pending") || status == Some("success") || status == Some("failed")
      ensures tenants == old(tenants) && |log| == |old(log)| && LogExtends(old(log), log)
      ensures AnyPending(old(log), tenant, mod) && ok ==>
                && pick < |log| && log[pick].status == status.value && log[pick].error == error
                && forall i | 0 <= i < |log| && i != pick :: log[i] == old(log)[i]
      ensures !AnyPending(old(log), tenant, mod) || !ok ==> log == old(log)
      ensures ok <==> Accepts(old(Tables()), Mark(tenant, mod, status, error, pick))
      ensures Tables() == Next(old(Tables()), Mark(tenant, mod, status, error, pick)) && Sound(Tables())
      ensures AnyPending(old(log), tenant, mod) && (status == Some("success") || status == Some("failed")) ==>
                |Pending(log, tenant, mod)| == |Pending(old(log), tenant, mod)| - 1
      ensures OthersKept(old(Tables()), Tables(), tenant, mod)
    {
      var latest := LatestPending(tenant, mod);
      pick := if latest.Some? then latest.value else 0;
      ghost var call := Mark(tenant, mod, status, error, pick);
      SoundNext(Tables(), call);
      OthersKeptNext(Tables(), call);
      PendingNext(Tables(), call, tenant, mod);
      MarkNext(Tables(), call);
      hide Sound, Pending, OthersKept, MayPick, AnyPending, LogExtends;
      if latest.None? {
        ok := true;
        return;
      }
      if !StatusOk(status) {
        ok := false;
        return;
      }
      log := log[latest.value := log[latest.value].(status := status.value, error := error)];
      ok := true;
    }

    method TenantHasModule(tenant: Id, mod: string) returns (has: bool)
      ensures has <==> HasModuleIn(Tables(), tenant, mod)
      ensures has <==> tenant in tenants && (|| (mod == "operations" && tenants[tenant].operations.Some?)
                                             || (mod == "finance" && tenants[tenant].finance.Some?))
    {
      var known: Option<bool> := None;
      if mod == OPERATIONS {
        if tenant in tenants { known := Some(tenants[tenant].operations.Some?); }
      } else if mod == FINANCE {
        if tenant in tenants { known := Some(tenants[tenant].finance.Some?); }
      } else {
        known := Some(false);
      }
      has := Coalesce(known, Some(false)).value;
    }

    /** Raises for an unknown module; an unknown tenant has no schema. */
    method GetTenantSchema(tenant: Id, mod: string) returns (raised: bool, schema: Option<string>)
      ensures raised <==> !ModuleKnown(mod)
      ensures !raised && tenant in tenants ==>
                schema == if mod == "operations" then tenants[tenant].operations else tenants[tenant].finance
      ensures raised <==> mod != "operations" && mod != "finance"
      ensures schema.Some? <==> HasModuleIn(Tables(), tenant, mod)
    {
      raised, schema := false, None;
      if mod == OPERATIONS {
        if tenant in tenants { schema := tenants[tenant].operations; }
      } else if mod == FINANCE {
        if tenant in tenants { schema := tenants[tenant].finance; }
      } else {
        raised := true;
      }
    }
  }
}
