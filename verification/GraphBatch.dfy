/** Writing many rows with one statement, in chunks (tools/_shared/graph_batch.py:22, 50-89). */
module GraphBatch {

  const CHUNK := 250

  /** What a statement that `UNWIND`s its rows does to a state: one row after the other. */
  function Fold<S, R>(stmt: (S, R) -> S, s: S, rows: seq<R>): S {
    if rows == [] then s else stmt(Fold(stmt, s, rows[..|rows| - 1]), rows[|rows| - 1])
  }

  lemma {:induction false} FoldAppend<S, R>(stmt: (S, R) -> S, s: S, a: seq<R>, b: seq<R>)
    ensures Fold(stmt, s, a + b) == Fold(stmt, Fold(stmt, s, a), b)
    decreases |b|
  {
    if b == [] {
      assert a + b == a;
    } else {
      assert (a + b)[..|a + b| - 1] == a + b[..|b| - 1];
      FoldAppend(stmt, s, a, b[..|b| - 1]);
    }
  }

  /** One write statement over its rows. */
  method Write<S, R>(stmt: (S, R) -> S, s: S, rows: seq<R>) returns (t: S)
    ensures t == Fold(stmt, s, rows)
  {
    t := s;
    for i := 0 to |rows|
      invariant t == Fold(stmt, s, rows[..i])
    {
      assert rows[..i + 1][..i] == rows[..i];
      t := stmt(t, rows[i]);
    }
    assert rows[..|rows|] == rows;
  }

  /** Writing in chunks of 250 rows is one pass over all rows. */
  method WriteRows<S, R>(stmt: (S, R) -> S, s: S, rows: seq<R>) returns (t: S)
    ensures t == Fold(stmt, s, rows)
  {
    t := s;
    var start := 0;
    while start < |rows|
      invariant 0 <= start <= |rows|
      invariant t == Fold(stmt, s, rows[..start])
    {
      var end := if start + CHUNK < |rows| then start + CHUNK else |rows|;
      assert rows[..end] == rows[..start] + rows[start..end];
      FoldAppend(stmt, s, rows[..start], rows[start..end]);
      t := Write(stmt, t, rows[start..end]);
      start := end;
    }
    assert rows[..|rows|] == rows;
  }
}
