/** Vocabulary shared by both revisions of the material-location table:
    nullable values, partial-patch fields, and the store's
    WHERE / OFFSET / LIMIT query shape. */
module Common {

  /** A nullable column or argument (SQL NULL / Python None). */
  datatype Option<+T> = None | Some(value: T)

  /** One field of a partial patch: absent from the request (left as it is),
      or explicitly set to a value (which may itself be None). */
  datatype Field<+T> = Unset | Set(value: T)

  predicate NoDuplicates<T(==)>(s: seq<T>)
  {
    forall i, j :: 0 <= i < j < |s| ==> s[i] != s[j]
  }

  /** An element of a non-empty set, for a loop that picks one. */
  lemma ElementOf<T>(s: set<T>) returns (x: T)
    requires s != {}
    ensures x in s
  {
    assert (forall y :: y !in s) ==> s == {};
    x :| x in s;
  }

  /** `scan` is an order in which the store may return the rows of `rows`:
      every row id exactly once and nothing else. The store adds no ORDER BY,
      so this order is the engine's and is a parameter of every query. */
  predicate IsScanOf<V>(rows: map<int, V>, scan: seq<int>)
  {
    && NoDuplicates(scan)
    && (forall i :: 0 <= i < |scan| ==> scan[i] in rows)
    && (forall k :: k in rows ==> k in scan)
  }

  /** The ids, in scan order, of the rows that satisfy the WHERE clause `p`. */
  function SelectIds<V>(rows: map<int, V>, scan: seq<int>, p: V -> bool): (r: seq<int>)
    ensures |r| <= |scan|
    ensures forall i :: 0 <= i < |r| ==> r[i] in rows && p(rows[r[i]])
    ensures forall i :: 0 <= i < |r| ==> r[i] in scan
  {
    if scan == [] then []
    else
      var rest := SelectIds(rows, scan[1..], p);
      if scan[0] in rows && p(rows[scan[0]]) then [scan[0]] + rest else rest
  }

  /** A WHERE clause misses no row: every row the scan visits and the clause
      accepts is selected. */
  lemma {:induction false} SelectIdsComplete<V>(rows: map<int, V>, scan: seq<int>, p: V -> bool, k: int)
    requires k in rows && k in scan && p(rows[k])
    ensures k in SelectIds(rows, scan, p)
  {
    if scan[0] != k {
      SelectIdsComplete(rows, scan[1..], p, k);
    }
  }

  /** A WHERE clause no row satisfies selects nothing. */
  lemma {:induction false} SelectIdsNone<V>(rows: map<int, V>, scan: seq<int>, p: V -> bool)
    requires forall k :: k in rows ==> !p(rows[k])
    ensures SelectIds(rows, scan, p) == []
  {
    if scan != [] {
      SelectIdsNone(rows, scan[1..], p);
    }
  }

  /** A selection over a scan that visits each row once holds each row once. */
  lemma {:induction false} SelectIdsNoDuplicates<V>(rows: map<int, V>, scan: seq<int>, p: V -> bool)
    requires NoDuplicates(scan)
    ensures NoDuplicates(SelectIds(rows, scan, p))
  {
    if scan != [] {
      SelectIdsNoDuplicates(rows, scan[1..], p);
      var rest := SelectIds(rows, scan[1..], p);
      assert forall i :: 0 <= i < |rest| ==> rest[i] != scan[0] by {
        forall i | 0 <= i < |rest| ensures rest[i] != scan[0] {
          assert rest[i] in scan[1..];
        }
      }
    }
  }

  /** Over a scan of the whole table, the selection holds exactly the rows
      that satisfy the WHERE clause, each once. */
  lemma SelectIdsExactly<V>(rows: map<int, V>, scan: seq<int>, p: V -> bool)
    requires IsScanOf(rows, scan)
    ensures NoDuplicates(SelectIds(rows, scan, p))
    ensures forall k :: k in SelectIds(rows, scan, p) <==> k in rows && p(rows[k])
  {
    SelectIdsNoDuplicates(rows, scan, p);
    forall k | k in rows && p(rows[k])
      ensures k in SelectIds(rows, scan, p)
    {
      SelectIdsComplete(rows, scan, p, k);
    }
  }

  /** The selection depends only on what the WHERE clause says of the rows
      the scan visits: two tables with the same ids on which two clauses agree
      select the same ids. */
  lemma {:induction false} SelectIdsAgree<V>(rows: map<int, V>, rows': map<int, V>, scan: seq<int>, p: V -> bool, q: V -> bool)
    requires forall k :: k in scan ==> (k in rows <==> k in rows')
    requires forall k :: k in scan && k in rows ==> p(rows[k]) == q(rows'[k])
    ensures SelectIds(rows, scan, p) == SelectIds(rows', scan, q)
  {
    if scan != [] {
      var k := scan[0];
      assert k in scan;
      assert forall x :: x in scan[1..] ==> x in scan;
      SelectIdsAgree(rows, rows', scan[1..], p, q);
      assert (k in rows && p(rows[k])) == (k in rows' && q(rows'[k]));
    }
  }

  /** The lookup by primary key (`get_location`, `get_material_location`):
      the row with that id, if any. */
  function Get<V>(rows: map<int, V>, id: int): (r: Option<V>)
    ensures r.Some? <==> id in rows
    ensures r.Some? ==> r.value == rows[id]
  {
    if id in rows then Some(rows[id]) else None
  }

  /** The rows with the given ids, in the order of the ids. */
  function RowsOf<V>(rows: map<int, V>, ids: seq<int>): (r: seq<V>)
    requires forall i :: 0 <= i < |ids| ==> ids[i] in rows
    ensures |r| == |ids|
    ensures forall i :: 0 <= i < |ids| ==> r[i] == rows[ids[i]]
  {
    seq(|ids|, i requires 0 <= i < |ids| => rows[ids[i]])
  }

  /** How many of `n` elements an OFFSET `skip` LIMIT `limit` window holds. */
  function WindowSize(n: nat, skip: nat, limit: nat): nat
  {
    if skip >= n then 0 else if n - skip < limit then n - skip else limit
  }

  /** OFFSET `skip` LIMIT `limit`: drop the first `skip` elements, keep at most `limit`. */
  function Page<T>(s: seq<T>, skip: nat, limit: nat): (r: seq<T>)
    ensures |r| <= limit
    ensures |r| == WindowSize(|s|, skip, limit)
    ensures skip >= |s| ==> r == []
    ensures forall i :: 0 <= i < |r| ==> skip + i < |s| && r[i] == s[skip + i]
  {
    if skip >= |s| then []
    else if |s| - skip <= limit then s[skip..]
    else s[skip..skip + limit]
  }

  /** The query `SELECT * WHERE p OFFSET skip LIMIT limit` over the store's
      scan order: exactly the window [skip, skip + limit) of the matching ids,
      read back as rows. */
  function Query<V(==)>(rows: map<int, V>, scan: seq<int>, p: V -> bool, skip: nat, limit: nat): (r: seq<V>)
    ensures |r| <= limit
    ensures |r| == WindowSize(|SelectIds(rows, scan, p)|, skip, limit)
    ensures forall i :: 0 <= i < |r| ==>
      skip + i < |SelectIds(rows, scan, p)| && r[i] == rows[SelectIds(rows, scan, p)[skip + i]]
    ensures forall x :: x in r ==> p(x) && x in rows.Values
  {
    var ids := Page(SelectIds(rows, scan, p), skip, limit);
    var r := RowsOf(rows, ids);
    assert forall x :: x in r ==> p(x) && x in rows.Values by {
      forall x | x in r ensures p(x) && x in rows.Values {
        var i :| 0 <= i < |r| && r[i] == x;
        assert ids[i] in rows;
      }
    }
    r
  }

  /** With no offset and a limit no smaller than the table, a query over a
      scan of the whole table returns every row that satisfies the WHERE clause. */
  lemma QueryFindsEveryMatch<V>(rows: map<int, V>, scan: seq<int>, p: V -> bool, limit: nat, k: int)
    requires IsScanOf(rows, scan) && |scan| <= limit
    requires k in rows && p(rows[k])
    ensures rows[k] in Query(rows, scan, p, 0, limit)
  {
    SelectIdsComplete(rows, scan, p, k);
    var ids := SelectIds(rows, scan, p);
    var j :| 0 <= j < |ids| && ids[j] == k;
    assert Query(rows, scan, p, 0, limit)[j] == rows[k];
  }
}
