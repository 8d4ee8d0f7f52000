/**
 * One database table as the queries of the application see it.
 *
 * A table is the sequence of its rows in ascending primary-key order. SQL
 * promises no order without ORDER BY, and SQLite leaves it undefined too;
 * the model fixes rowid order.
 * New primary keys follow SQLite's rule for an INTEGER PRIMARY KEY without
 * AUTOINCREMENT: one more than the largest key in the table, 1 when empty.
 */
module Tables {
  import opened Wrappers
  import opened Models

  /** A stored row: its primary key beside the other columns. */
  datatype Row = Row(id: int, rec: Record)

  predicate Ascending(rows: seq<Row>)
  {
    forall i, j :: 0 <= i < j < |rows| ==> rows[i].id < rows[j].id
  }

  /** Keys are positive and strictly increasing, hence distinct. */
  predicate ValidRows(rows: seq<Row>)
  {
    Ascending(rows) && forall i :: 0 <= i < |rows| ==> rows[i].id > 0
  }

  function Ids(rows: seq<Row>): set<int>
  {
    set row | row in rows :: row.id
  }

  /** `db.get(Model, id)`: the row with that primary key, if there is one. */
  function Find(rows: seq<Row>, id: int): (r: Option<Row>)
    ensures r.Some? ==> r.value in rows && r.value.id == id
    ensures r.None? <==> id !in Ids(rows)
  {
    if rows == [] then None
    else if rows[0].id == id then Some(rows[0])
    else Find(rows[1..], id)
  }

  /** In a valid table a row is the only one with its key, so `Find` returns exactly it. */
  lemma {:induction false} FindUnique(rows: seq<Row>, row: Row)
    requires Ascending(rows)
    requires row in rows
    ensures Find(rows, row.id) == Some(row)
  {
    if rows[0] != row {
      assert row in rows[1..];
      var k :| 1 <= k < |rows| && rows[k] == row;
      assert rows[0].id < rows[k].id;
      FindUnique(rows[1..], row);
    }
  }

  /** In an ascending table a key identifies its row. */
  lemma SameKeySameRow(rows: seq<Row>, a: Row, b: Row)
    requires Ascending(rows)
    requires a in rows && b in rows && a.id == b.id
    ensures a == b
  {
    var i :| 0 <= i < |rows| && rows[i] == a;
    var j :| 0 <= j < |rows| && rows[j] == b;
    assert i == j;
  }

  /** The key SQLite gives the next inserted row: the largest key plus one. */
  function NewId(rows: seq<Row>): (id: int)
    ensures ValidRows(rows) ==> id > 0
    ensures Ascending(rows) ==> forall x :: x in Ids(rows) ==> x < id
    ensures Ascending(rows) ==> id !in Ids(rows)
  {
    if rows == [] then 1 else rows[|rows| - 1].id + 1
  }

  /** Appending a row under the new key keeps the table valid and adds just that key. */
  lemma AppendValid(rows: seq<Row>, rec: Record)
    requires ValidRows(rows)
    ensures ValidRows(rows + [Row(NewId(rows), rec)])
    ensures Ids(rows + [Row(NewId(rows), rec)]) == Ids(rows) + {NewId(rows)}
  {
    var r := rows + [Row(NewId(rows), rec)];
    forall i, j | 0 <= i < j < |r|
      ensures r[i].id < r[j].id
    {
      if j == |rows| {
        assert r[i] in rows;
      }
    }
  }

  /** `WHERE p`: the rows that satisfy `p`, in table order. */
  function Where(rows: seq<Row>, p: Row -> bool): (r: seq<Row>)
    ensures forall row :: row in r <==> row in rows && p(row)
    ensures |r| <= |rows|
    ensures Ascending(rows) ==> Ascending(r)
  {
    if rows == [] then []
    else
      var rest := Where(rows[1..], p);
      if p(rows[0]) then
        HeadBelowRest(rows, rest);
        [rows[0]] + rest
      else rest
  }

  /** In an ascending table the first key is below every key that comes after it. */
  lemma HeadBelowRest(rows: seq<Row>, rest: seq<Row>)
    requires |rows| > 0
    requires forall row :: row in rest ==> row in rows[1..]
    ensures Ascending(rows) && Ascending(rest) ==> Ascending([rows[0]] + rest)
  {
    if Ascending(rows) && Ascending(rest) {
      forall row | row in rest
        ensures rows[0].id < row.id
      {
        var k :| 0 <= k < |rows[1..]| && rows[1..][k] == row;
        assert rows[k + 1] == row;
      }
      var r := [rows[0]] + rest;
      forall i, j | 0 <= i < j < |r|
        ensures r[i].id < r[j].id
      {
        if i > 0 {
          assert r[i] == rest[i - 1] && r[j] == rest[j - 1];
        } else {
          assert r[j] in rest;
        }
      }
    }
  }

  /** A filtered valid table is valid. */
  lemma WhereValid(rows: seq<Row>, p: Row -> bool)
    requires ValidRows(rows)
    ensures ValidRows(Where(rows, p))
  {
    var r := Where(rows, p);
    forall i | 0 <= i < |r|
      ensures r[i].id > 0
    {
      assert r[i] in rows;
    }
  }

  /** A column test of a filter: the column holds exactly `v`. */
  predicate Matches(row: Row, col: Column, v: Value)
  {
    col in row.rec && row.rec[col] == v
  }

  /** `WHERE col = v`: the rows whose column holds `v`, in table order. */
  function WhereEq(rows: seq<Row>, col: Column, v: Value): (r: seq<Row>)
    ensures forall row :: row in r <==> row in rows && Matches(row, col, v)
    ensures Ascending(rows) ==> Ascending(r)
  {
    if rows == [] then []
    else
      var rest := WhereEq(rows[1..], col, v);
      if Matches(rows[0], col, v) then
        HeadBelowRest(rows, rest);
        [rows[0]] + rest
      else rest
  }

  /** Filtering a table with one more row at the end filters the old rows, then tests the new one. */
  lemma {:induction false} WhereEqSnoc(rows: seq<Row>, x: Row, col: Column, v: Value)
    ensures WhereEq(rows + [x], col, v) == WhereEq(rows, col, v) + (if Matches(x, col, v) then [x] else [])
  {
    if rows == [] {
      assert [x][1..] == [];
    } else {
      assert (rows + [x])[0] == rows[0];
      assert (rows + [x])[1..] == rows[1..] + [x];
      WhereEqSnoc(rows[1..], x, col, v);
    }
  }

  /**
   * The row position an `OFFSET skip` starts at: SQLite reads a negative
   * offset as zero, and an offset past the end leaves nothing.
   */
  function Offset(skip: int, n: nat): (start: nat)
    ensures start <= n
    ensures 0 <= skip <= n ==> start == skip
  {
    if skip <= 0 then 0 else if skip >= n then n else skip
  }

  /**
   * `r` is what `OFFSET skip LIMIT limit` selects from `xs`: the items from
   * the offset position on, in order, all that remain when the limit is
   * negative or not reached, `limit` of them otherwise.
   */
  ghost predicate IsPageOf<T>(r: seq<T>, xs: seq<T>, skip: int, limit: int)
  {
    var start := Offset(skip, |xs|);
    && |r| == (if limit < 0 || |xs| - start <= limit then |xs| - start else limit)
    && forall i :: 0 <= i < |r| ==> r[i] == xs[start + i]
  }

  /** A page is determined by the list, the offset and the limit. */
  lemma PageOfUnique<T>(a: seq<T>, b: seq<T>, xs: seq<T>, skip: int, limit: int)
    requires IsPageOf(a, xs, skip, limit) && IsPageOf(b, xs, skip, limit)
    ensures a == b
  {
    assert |a| == |b|;
    forall i | 0 <= i < |a|
      ensures a[i] == b[i]
    {
      assert a[i] == xs[Offset(skip, |xs|) + i];
    }
  }

  /**
   * `.offset(skip).limit(limit)`: drop the first `skip` items, then keep at
   * most `limit`. SQLite reads a negative limit as "no limit".
   */
  function Page<T>(xs: seq<T>, skip: int, limit: int): (r: seq<T>)
    ensures IsPageOf(r, xs, skip, limit)
    ensures limit >= 0 ==> |r| <= limit
    ensures |r| <= |xs| - Offset(skip, |xs|)
    ensures forall i :: 0 <= i < |r| ==> r[i] == xs[Offset(skip, |xs|) + i]
    ensures limit < 0 || |xs| - Offset(skip, |xs|) <= limit ==> |r| == |xs| - Offset(skip, |xs|)
    ensures 0 <= limit <= |xs| - Offset(skip, |xs|) ==> |r| == limit
  {
    var start := Offset(skip, |xs|);
    if limit < 0 || |xs| - start <= limit then xs[start..] else xs[start..start + limit]
  }

  /** Every item of a page is an item of the list it was cut from. */
  lemma PageWithin<T>(xs: seq<T>, skip: int, limit: int, x: T)
    requires x in Page(xs, skip, limit)
    ensures x in xs
  {
    var r := Page(xs, skip, limit);
    var i :| 0 <= i < |r| && r[i] == x;
    assert xs[Offset(skip, |xs|) + i] == x;
  }

  /** Without paging (no offset, no limit) the whole list comes back. */
  lemma {:induction false} PageAll<T>(xs: seq<T>, skip: int, limit: int)
    requires skip <= 0 && limit < 0
    ensures Page(xs, skip, limit) == xs
  {
    var r := Page(xs, skip, limit);
    assert |r| == |xs|;
    forall i | 0 <= i < |r|
      ensures r[i] == xs[i]
    {
    }
  }

  /**
   * Pagination neither skips nor repeats: two consecutive pages of size `k`
   * are together the page of size `2k` that starts where the first does.
   */
  lemma {:induction false} ConsecutivePages<T>(xs: seq<T>, skip: int, k: int)
    requires skip >= 0 && k >= 0
    ensures Page(xs, skip, k) + Page(xs, skip + k, k) == Page(xs, skip, 2 * k)
  {
    var a := Page(xs, skip, k);
    var b := Page(xs, skip + k, k);
    var c := Page(xs, skip, 2 * k);
    var n := |xs|;
    var s := Offset(skip, n);
    var t := Offset(skip + k, n);
    assert s + |a| == t;
    assert |c| == |a| + |b|;
    forall i | 0 <= i < |c|
      ensures (a + b)[i] == c[i]
    {
      if i < |a| {
        assert (a + b)[i] == a[i];
      } else {
        assert (a + b)[i] == b[i - |a|];
      }
    }
  }

  /** The table with the record of row `id` replaced; every row keeps its place and key. */
  function Replace(rows: seq<Row>, id: int, rec: Record): (r: seq<Row>)
    ensures |r| == |rows|
    ensures forall i :: 0 <= i < |rows| ==> r[i].id == rows[i].id
    ensures forall i :: 0 <= i < |rows| && rows[i].id != id ==> r[i] == rows[i]
    ensures forall i :: 0 <= i < |rows| && rows[i].id == id ==> r[i].rec == rec
    ensures Ids(r) == Ids(rows)
    ensures Ascending(rows) ==> Ascending(r)
    ensures ValidRows(rows) ==> ValidRows(r)
  {
    var r := seq(|rows|, i requires 0 <= i < |rows| => if rows[i].id == id then Row(id, rec) else rows[i]);
    assert Ids(r) == Ids(rows) by {
      forall x | x in Ids(rows) ensures x in Ids(r) {
        var row :| row in rows && row.id == x;
        var i :| 0 <= i < |rows| && rows[i] == row;
        assert r[i].id == x;
      }
      forall x | x in Ids(r) ensures x in Ids(rows) {
        var row :| row in r && row.id == x;
        var i :| 0 <= i < |r| && r[i] == row;
        assert rows[i].id == x;
      }
    }
    r
  }

  /** After a replacement in a valid table, the key finds the new record and no other key moved. */
  lemma ReplaceFind(rows: seq<Row>, id: int, rec: Record)
    requires Ascending(rows) && id in Ids(rows)
    ensures Find(Replace(rows, id, rec), id) == Some(Row(id, rec))
    ensures forall row :: row in rows && row.id != id ==> row in Replace(rows, id, rec)
  {
    var r := Replace(rows, id, rec);
    var old_row :| old_row in rows && old_row.id == id;
    var i :| 0 <= i < |rows| && rows[i] == old_row;
    assert r[i] == Row(id, rec);
    FindUnique(r, Row(id, rec));
    forall row | row in rows && row.id != id
      ensures row in r
    {
      var j :| 0 <= j < |rows| && rows[j] == row;
      assert r[j] == row;
    }
  }
}
