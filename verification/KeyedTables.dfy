/** Tables of the statistics database as maps from unique keys to rows, and the
    statement `executemany(INSERT ... ON CONFLICT ...)` over them. */
module KeyedTables {
  import opened Options

  /** Every table is keyed by the session file and, depending on the table, a
      call id and a line or section number. */
  datatype Key = Key(file: string, call: string, n: nat)

  type Rows<R> = seq<(Key, R)>

  function Get<V>(table: map<Key, V>, k: Key): Option<V> {
    if k in table then Some(table[k]) else None
  }

  /** INSERT OR REPLACE. */
  function Replace<V>(old_: Option<V>, row: V): V {
    row
  }

  /** The table after one upsert per row, in order; `f` merges a row into the
      one stored under its key. */
  function ApplyAll<V, R>(table: map<Key, V>, rows: Rows<R>, f: (Option<V>, R) -> V): map<Key, V>
    decreases |rows|
  {
    if rows == [] then table else
    var before := ApplyAll(table, rows[..|rows| - 1], f);
    var (k, r) := rows[|rows| - 1];
    before[k := f(Get(before, k), r)]
  }

  method ExecuteMany<V, R>(table: map<Key, V>, rows: Rows<R>, f: (Option<V>, R) -> V) returns (result: map<Key, V>)
    ensures result == ApplyAll(table, rows, f)
  {
    result := table;
    for i := 0 to |rows|
      invariant result == ApplyAll(table, rows[..i], f)
    {
      var (k, r) := rows[i];
      assert rows[..i + 1][..i] == rows[..i];
      result := result[k := f(Get(result, k), r)];
    }
    assert rows[..|rows|] == rows;
  }

  /** Two executions in a row are one execution of the joined rows. */
  lemma {:induction false} ApplyAppend<V, R>(table: map<Key, V>, a: Rows<R>, b: Rows<R>, f: (Option<V>, R) -> V)
    ensures ApplyAll(ApplyAll(table, a, f), b, f) == ApplyAll(table, a + b, f)
    decreases |b|
  {
    if b == [] {
      assert a + b == a;
    } else {
      var ab := a + b;
      assert ab[..|ab| - 1] == a + b[..|b| - 1];
      assert ab[|ab| - 1] == b[|b| - 1];
      ApplyAppend(table, a, b[..|b| - 1], f);
    }
  }

  ghost predicate AllOf<R>(rows: Rows<R>, file: string) {
    forall i :: 0 <= i < |rows| ==> rows[i].0.file == file
  }

  function FileRows<V>(table: map<Key, V>, file: string): map<Key, V> {
    map k | k in table && k.file == file :: table[k]
  }

  /** DELETE ... WHERE session_file = file. */
  function DeleteFile<V>(table: map<Key, V>, file: string): map<Key, V> {
    map k | k in table && k.file != file :: table[k]
  }

  /** Upserts of one file's rows act on that file's part of a table alone. */
  lemma {:induction false} ApplyLocal<V, R>(table: map<Key, V>, rows: Rows<R>, f: (Option<V>, R) -> V, file: string)
    requires AllOf(rows, file)
    ensures FileRows(ApplyAll(table, rows, f), file) == ApplyAll(FileRows(table, file), rows, f)
    ensures forall other :: other != file ==> FileRows(ApplyAll(table, rows, f), other) == FileRows(table, other)
    decreases |rows|
  {
    if rows != [] {
      var front := rows[..|rows| - 1];
      var (k, r) := rows[|rows| - 1];
      assert rows[|rows| - 1].0.file == file;
      ApplyLocal(table, front, f, file);
      PutLocal(ApplyAll(table, front, f), k, f(Get(ApplyAll(table, front, f), k), r));
    }
  }

  lemma PutLocal<V>(table: map<Key, V>, k: Key, v: V)
    ensures FileRows(table[k := v], k.file) == FileRows(table, k.file)[k := v]
    ensures Get(FileRows(table, k.file), k) == Get(table, k)
    ensures forall other :: other != k.file ==> FileRows(table[k := v], other) == FileRows(table, other)
  {
  }

  /** Upserts that touch different columns may be exchanged. */
  ghost predicate Independent<V(!new), R(!new), S(!new)>(f: (Option<V>, R) -> V, g: (Option<V>, S) -> V) {
    forall o, r, s :: f(Some(g(o, s)), r) == g(Some(f(o, r)), s)
  }

  lemma {:induction false} ApplyOne<V(!new), R(!new), S(!new)>(
      table: map<Key, V>, row: (Key, R), rows: Rows<S>, f: (Option<V>, R) -> V, g: (Option<V>, S) -> V)
    requires Independent(f, g)
    ensures ApplyAll(ApplyAll(table, [row], f), rows, g) == ApplyAll(ApplyAll(table, rows, g), [row], f)
    decreases |rows|
  {
    if rows != [] {
      var front := rows[..|rows| - 1];
      ApplyOne(table, row, front, f, g);
      var mid := ApplyAll(table, front, g);
      ApplySingle(table, row, f);
      ApplySingle(mid, row, f);
      ApplySingle(ApplyAll(table, rows, g), row, f);
      ExchangeTwo(mid, row, rows[|rows| - 1], f, g);
    }
  }

  lemma ApplySingle<V, R>(table: map<Key, V>, row: (Key, R), f: (Option<V>, R) -> V)
    ensures ApplyAll(table, [row], f) == table[row.0 := f(Get(table, row.0), row.1)]
  {
    assert [row][..0] == [];
  }

  lemma ExchangeTwo<V(!new), R(!new), S(!new)>(
      t: map<Key, V>, x: (Key, R), y: (Key, S), f: (Option<V>, R) -> V, g: (Option<V>, S) -> V)
    requires Independent(f, g)
    ensures
      var tx := t[x.0 := f(Get(t, x.0), x.1)];
      var ty := t[y.0 := g(Get(t, y.0), y.1)];
      tx[y.0 := g(Get(tx, y.0), y.1)] == ty[x.0 := f(Get(ty, x.0), x.1)]
  {
    if x.0 == y.0 {
      assert f(Some(g(Get(t, x.0), y.1)), x.1) == g(Some(f(Get(t, x.0), x.1)), y.1);
    }
  }

  lemma {:induction false} ApplyExchange<V(!new), R(!new), S(!new)>(
      table: map<Key, V>, xs: Rows<R>, ys: Rows<S>, f: (Option<V>, R) -> V, g: (Option<V>, S) -> V)
    requires Independent(f, g)
    ensures ApplyAll(ApplyAll(table, xs, f), ys, g) == ApplyAll(ApplyAll(table, ys, g), xs, f)
    decreases |xs|
  {
    if xs != [] {
      var front, last := xs[..|xs| - 1], xs[|xs| - 1];
      assert xs == front + [last];
      ApplyAppend(table, front, [last], f);
      ApplyOne(ApplyAll(table, front, f), last, ys, f, g);
      ApplyExchange(table, front, ys, f, g);
      ApplyAppend(ApplyAll(table, ys, g), front, [last], f);
    }
  }
}
