/**
The row semantics of the queue tables: rows carry rowids, insertion appends one
past the largest rowid, reading returns the first rows in rowid order, and a
block's transactions are removed by a rowid threshold.
*/
module Tables {

  datatype Row<+T> = Row(rowId: nat, value: T)

  /** The row limit of the queue queries. */
  const LIMIT: nat := 5000

  /** Rowids are positive and strictly increasing. */
  ghost predicate Ordered<T>(t: seq<Row<T>>) {
    && (forall i :: 0 <= i < |t| ==> 1 <= t[i].rowId)
    && (forall i, j :: 0 <= i < j < |t| ==> t[i].rowId < t[j].rowId)
  }

  /** A table without AUTOINCREMENT: one more than the largest rowid in use, 1 when empty. */
  function NextRowId<T>(t: seq<Row<T>>): nat {
    if t == [] then 1 else t[|t| - 1].rowId + 1
  }

  function Insert<T>(t: seq<Row<T>>, v: T): seq<Row<T>> {
    t + [Row(NextRowId(t), v)]
  }

  function InsertAll<T>(t: seq<Row<T>>, vs: seq<T>): (r: seq<Row<T>>)
    ensures |r| == |t| + |vs|
    decreases |vs|
  {
    if vs == [] then t else InsertAll(Insert(t, vs[0]), vs[1..])
  }

  /** SELECT ... LIMIT 5000 */
  function First<T>(t: seq<Row<T>>): seq<Row<T>> {
    if |t| <= LIMIT then t else t[..LIMIT]
  }

  /** DELETE ... WHERE rowid <= threshold */
  function DeleteUpTo<T>(t: seq<Row<T>>, threshold: nat): seq<Row<T>> {
    if t == [] then []
    else (if t[0].rowId <= threshold then [] else [t[0]]) + DeleteUpTo(t[1..], threshold)
  }

  function Values<T>(t: seq<Row<T>>): (vs: seq<T>)
    ensures |vs| == |t|
    ensures forall i :: 0 <= i < |t| ==> vs[i] == t[i].value
  {
    seq(|t|, i requires 0 <= i < |t| => t[i].value)
  }

  lemma {:induction false} InsertAllKeeps<T>(t: seq<Row<T>>, vs: seq<T>)
    requires Ordered(t)
    ensures Ordered(InsertAll(t, vs))
    ensures Values(InsertAll(t, vs)) == Values(t) + vs
    ensures t <= InsertAll(t, vs)
    ensures var r := InsertAll(t, vs);
            forall k :: |t| <= k < |r| ==> r[k].rowId == if k == 0 then 1 else r[k - 1].rowId + 1
    decreases |vs|
  {
    if vs != [] {
      InsertAllKeeps(Insert(t, vs[0]), vs[1..]);
      assert vs == [vs[0]] + vs[1..];
    }
  }

  lemma {:induction false} InsertAllSplit<T>(t: seq<Row<T>>, a: seq<T>, b: seq<T>)
    ensures InsertAll(t, a + b) == InsertAll(InsertAll(t, a), b)
    decreases |a|
  {
    if a == [] {
      assert a + b == b;
    } else {
      assert (a + b)[1..] == a[1..] + b;
      InsertAllSplit(Insert(t, a[0]), a[1..], b);
    }
  }

  /** The threshold a taking loop ends with: the rowid of its last taken row, or 0. */
  function LastTaken<T>(t: seq<Row<T>>, k: nat): nat
    requires k <= |t|
  {
    if k == 0 then 0 else t[k - 1].rowId
  }

  /** Deleting by rowid threshold removes exactly the first `k` rows. */
  lemma {:induction false} DeleteRemovesTaken<T>(t: seq<Row<T>>, k: nat)
    requires Ordered(t) && k <= |t|
    ensures DeleteUpTo(t, LastTaken(t, k)) == t[k..]
    ensures Ordered(t[k..])
  {
    DeleteBelow(t, k, LastTaken(t, k));
  }

  lemma {:induction false} DeleteBelow<T>(t: seq<Row<T>>, k: nat, threshold: nat)
    requires k <= |t|
    requires forall i :: 0 <= i < k ==> t[i].rowId <= threshold
    requires forall i :: k <= i < |t| ==> threshold < t[i].rowId
    ensures DeleteUpTo(t, threshold) == t[k..]
  {
    if t != [] {
      DeleteBelow(t[1..], if k == 0 then 0 else k - 1, threshold);
    }
  }

  /** The bulk insertion of a list in batches of 2000 rows. */
  method BulkInsert<T>(t: seq<Row<T>>, vs: seq<T>) returns (r: seq<Row<T>>)
    ensures r == InsertAll(t, vs)
  {
    r := t;
    var i := 0;
    assert vs[..0] == [];
    while i < |vs|
      invariant 0 <= i
      invariant r == InsertAll(t, vs[..if i <= |vs| then i else |vs|])
    {
      var limit := if |vs| < i + 2000 then |vs| else i + 2000;
      InsertAllSplit(t, vs[..i], vs[i..limit]);
      assert vs[..i] + vs[i..limit] == vs[..limit];
      r := InsertAll(r, vs[i..limit]);
      i := i + 2000;
    }
    assert vs[..|vs|] == vs;
  }
}
