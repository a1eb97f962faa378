/** Heap tables with a primary key that updates keep: lookup, row replacement,
    row removal, and uniqueness of an arbitrary key. */
module Table {
  import opened Options
  import opened Sql

  type Id = int

  datatype Row<+T> = Row(id: Id, cols: T)

  function IdOf<T>(r: Row<T>): Id {
    r.id
  }

  predicate Unique<T, K(==)>(s: seq<T>, key: T -> K) {
    forall i, j {:trigger key(s[i]), key(s[j])} | 0 <= i < j < |s| :: key(s[i]) != key(s[j])
  }

  function Ids<T>(t: seq<Row<T>>): (r: seq<Id>)
    ensures |r| == |t| && forall i | 0 <= i < |t| :: r[i] == t[i].id
  {
    seq(|t|, i requires 0 <= i < |t| => t[i].id)
  }

  predicate Has<T>(t: seq<Row<T>>, id: Id) {
    exists i | 0 <= i < |t| :: t[i].id == id
  }

  /** SELECT ... WHERE key = id. */
  function Find<T>(t: seq<Row<T>>, id: Id): (r: Option<T>)
    ensures r.Some? <==> Has(t, id)
    ensures r.Some? ==> Row(id, r.value) in t
  {
    if |t| == 0 then None
    else if t[|t| - 1].id == id then Some(t[|t| - 1].cols)
    else Find(t[..|t| - 1], id)
  }

  /** Replaces the version of the row that has the id of `row`. */
  function Put<T>(t: seq<Row<T>>, row: Row<T>): (r: seq<Row<T>>)
    ensures |r| == |t|
    ensures forall i | 0 <= i < |t| :: r[i] == if t[i].id == row.id then row else t[i]
  {
    seq(|t|, i requires 0 <= i < |t| => if t[i].id == row.id then row else t[i])
  }

  /** Replaces rows one after another. */
  function PutAll<T>(t: seq<Row<T>>, rows: seq<Row<T>>): (r: seq<Row<T>>)
    ensures |r| == |t|
    ensures forall i | 0 <= i < |t| :: r[i].id == t[i].id
  {
    if |rows| == 0 then t
    else Put(PutAll(t, rows[..|rows| - 1]), rows[|rows| - 1])
  }

  function Drop<T(!new)>(t: seq<Row<T>>, ids: seq<Id>): (r: seq<Row<T>>)
    ensures forall x :: x in r <==> x in t && x.id !in ids
  {
    if |t| == 0 then []
    else
      var front := Drop(t[..|t| - 1], ids);
      if t[|t| - 1].id in ids then front else front + [t[|t| - 1]]
  }

  /** The rows of one UPDATE: new versions of distinct rows that are in the table. */
  predicate IsSelection<T>(t: seq<Row<T>>, rows: seq<Row<T>>) {
    Unique(rows, IdOf) && forall k | 0 <= k < |rows| :: Has(t, rows[k].id)
  }

  /** Uniqueness is checked as each row is written, so it must hold after every row. */
  predicate UniqueThroughout<T, K(==)>(t: seq<Row<T>>, rows: seq<Row<T>>, key: Row<T> -> K) {
    forall k | 0 <= k <= |rows| :: Unique(PutAll(t, rows[..k]), key)
  }

  lemma {:induction false} FindUnique<T>(t: seq<Row<T>>, i: nat)
    requires i < |t| && Unique(t, IdOf)
    ensures Find(t, t[i].id) == Some(t[i].cols)
  {
    var id := t[i].id;
    assert Has(t, id);
    var j :| 0 <= j < |t| && t[j] == Row(id, Find(t, id).value);
    assert IdOf(t[i]) == IdOf(t[j]);
  }

  lemma {:induction false} FindByRow<T>(t: seq<Row<T>>, r: Row<T>)
    requires r in t && Unique(t, IdOf)
    ensures Find(t, r.id) == Some(r.cols)
  {
    var i :| 0 <= i < |t| && t[i] == r;
    FindUnique(t, i);
  }

  lemma {:induction false} FindAppend<T>(t: seq<Row<T>>, rows: seq<Row<T>>, id: Id)
    requires Has(t, id) && Unique(t + rows, IdOf)
    ensures Find(t + rows, id) == Find(t, id)
  {
    var i :| 0 <= i < |t| && t[i].id == id;
    var u := t + rows;
    assert u[i] == t[i];
    FindUnique(u, i);
    assert Unique(t, IdOf) by {
      forall a, b | 0 <= a < b < |t| ensures IdOf(t[a]) != IdOf(t[b]) {
        assert u[a] == t[a] && u[b] == t[b];
      }
    }
    FindUnique(t, i);
  }

  /** A row that no replacement names stays as it is. */
  lemma {:induction false} PutAllMiss<T>(t: seq<Row<T>>, rows: seq<Row<T>>, i: nat)
    requires i < |t| && !Has(rows, t[i].id)
    ensures PutAll(t, rows)[i] == t[i]
  {
    if |rows| > 0 {
      var n := |rows| - 1;
      assert forall k | 0 <= k < n :: rows[..n][k] == rows[k];
      PutAllMiss(t, rows[..n], i);
    }
  }

  /** A row named by a replacement ends as that replacement. */
  lemma {:induction false} PutAllHit<T>(t: seq<Row<T>>, rows: seq<Row<T>>, i: nat, k: nat)
    requires i < |t| && k < |rows| && rows[k].id == t[i].id && Unique(rows, IdOf)
    ensures PutAll(t, rows)[i] == rows[k]
  {
    var n := |rows| - 1;
    if k < n {
      UniquePrefix(rows, IdOf, n);
      assert rows[..n][k] == rows[k];
      PutAllHit(t, rows[..n], i, k);
      assert IdOf(rows[k]) != IdOf(rows[n]);
    }
  }

  lemma {:induction false} UniquePrefix<T, K>(s: seq<T>, key: T -> K, n: nat)
    requires n <= |s| && Unique(s, key)
    ensures Unique(s[..n], key)
  {
    forall i, j | 0 <= i < j < n ensures key(s[..n][i]) != key(s[..n][j]) {
      assert s[..n][i] == s[i] && s[..n][j] == s[j];
    }
  }

  lemma {:induction false} UniqueAppend<T, K>(s: seq<T>, x: T, key: T -> K)
    requires Unique(s, key) && forall i | 0 <= i < |s| :: key(s[i]) != key(x)
    ensures Unique(s + [x], key)
  {
  }

  lemma {:induction false} UniqueOnce<T, K>(s: seq<T>, key: T -> K, x: T)
    requires Unique(s, key)
    ensures multiset(s)[x] <= 1
  {
    if |s| > 0 {
      var n := |s| - 1;
      assert s == s[..n] + [s[n]];
      UniquePrefix(s, key, n);
      UniqueOnce(s[..n], key, x);
      forall i | 0 <= i < n ensures s[..n][i] != s[n] {
        assert key(s[i]) != key(s[n]);
      }
    }
  }

  lemma {:induction false} OccursTwice<T>(s: seq<T>, i: nat, j: nat)
    requires i < j < |s| && s[i] == s[j]
    ensures multiset(s)[s[i]] >= 2
  {
    assert s == s[..j] + s[j..];
    assert s[..j][i] == s[i] && s[j..][0] == s[i];
    assert s[i] in multiset(s[..j]) && s[i] in multiset(s[j..]);
  }

  /** Uniqueness of a key does not depend on the order of the rows. */
  lemma {:induction false} UniquePermuted<T, K>(s: seq<T>, t: seq<T>, key: T -> K)
    requires multiset(s) == multiset(t) && Unique(s, key)
    ensures Unique(t, key)
  {
    forall i, j | 0 <= i < j < |t| ensures key(t[i]) != key(t[j]) {
      if t[i] == t[j] {
        OccursTwice(t, i, j);
        UniqueOnce(s, key, t[i]);
        assert false;
      } else {
        assert t[i] in multiset(t) && t[j] in multiset(t);
        assert t[i] in multiset(s) && t[j] in multiset(s);
        assert t[i] in s && t[j] in s;
        var a :| 0 <= a < |s| && s[a] == t[i];
        var b :| 0 <= b < |s| && s[b] == t[j];
        assert a != b;
        if a < b { assert key(s[a]) != key(s[b]); } else { assert key(s[b]) != key(s[a]); }
      }
    }
  }

  lemma {:induction false} HasPermuted<T>(rows: seq<Row<T>>, other: seq<Row<T>>, id: Id)
    requires multiset(rows) == multiset(other)
    ensures Has(rows, id) ==> Has(other, id)
  {
    if k :| 0 <= k < |rows| && rows[k].id == id {
      assert rows[k] in multiset(rows);
      assert rows[k] in multiset(other);
      assert rows[k] in other;
    }
  }

  /** The table after row replacements does not depend on the order in which the rows are visited. */
  lemma {:induction false} PutAllPermuted<T(!new)>(t: seq<Row<T>>, rows: seq<Row<T>>, other: seq<Row<T>>)
    requires multiset(rows) == multiset(other) && Unique(rows, IdOf)
    ensures PutAll(t, rows) == PutAll(t, other)
  {
    UniquePermuted(rows, other, IdOf);
    forall i | 0 <= i < |t| ensures PutAll(t, rows)[i] == PutAll(t, other)[i] {
      if Has(rows, t[i].id) {
        var k :| 0 <= k < |rows| && rows[k].id == t[i].id;
        assert rows[k] in multiset(rows);
        assert rows[k] in multiset(other);
        assert rows[k] in other;
        var m :| 0 <= m < |other| && other[m] == rows[k];
        PutAllHit(t, rows, i, k);
        PutAllHit(t, other, i, m);
      } else {
        HasPermuted(other, rows, t[i].id);
        PutAllMiss(t, rows, i);
        PutAllMiss(t, other, i);
      }
    }
  }

  /** Writing one version meets another row's key exactly when it breaks uniqueness. */
  lemma {:induction false} PutClash<T, K>(t: seq<Row<T>>, row: Row<T>, key: Row<T> -> K)
    requires Unique(t, IdOf) && Unique(t, key) && Has(t, row.id)
    ensures Unique(Put(t, row), key)
       <==> forall j | 0 <= j < |t| && t[j].id != row.id :: key(t[j]) != key(row)
  {
    var u := Put(t, row);
    var i :| 0 <= i < |t| && t[i].id == row.id;
    assert forall j | 0 <= j < |t| && j != i :: IdOf(t[j]) != IdOf(t[i]);
    assert u == t[i := row];
    if Unique(u, key) {
      forall j | 0 <= j < |t| && t[j].id != row.id ensures key(t[j]) != key(row) {
        assert u[j] == t[j] && u[i] == row;
        if j < i { assert key(u[j]) != key(u[i]); } else { assert key(u[i]) != key(u[j]); }
      }
    }
  }

  lemma {:induction false} PutAllStep<T>(t: seq<Row<T>>, rows: seq<Row<T>>, i: nat)
    requires i < |rows|
    ensures PutAll(t, rows[..i + 1]) == Put(PutAll(t, rows[..i]), rows[i])
  {
    assert rows[..i + 1][..i] == rows[..i];
  }

  lemma {:induction false} ThroughoutNone<T, K>(t: seq<Row<T>>, rows: seq<Row<T>>, key: Row<T> -> K)
    requires Unique(t, key)
    ensures PutAll(t, rows[..0]) == t && UniqueThroughout(t, rows[..0], key)
  {
    assert rows[..0] == [];
  }

  lemma {:induction false} ThroughoutStep<T, K>(t: seq<Row<T>>, rows: seq<Row<T>>, i: nat, key: Row<T> -> K)
    requires i < |rows| && UniqueThroughout(t, rows[..i], key)
    ensures UniqueThroughout(t, rows[..i + 1], key) <==> Unique(PutAll(t, rows[..i + 1]), key)
    ensures UniqueThroughout(t, rows, key) ==> Unique(PutAll(t, rows[..i + 1]), key)
  {
    var p, q := rows[..i], rows[..i + 1];
    assert q[..i + 1] == q;
    forall k | 0 <= k <= i ensures Unique(PutAll(t, q[..k]), key) {
      assert q[..k] == p[..k];
    }
  }
}
