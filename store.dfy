/** A database table as the route handlers see it through the service
    modules, whose code is not part of this model. What is assumed of them:
    rows carry a store-generated id and are read all at once or by id,
    inserted, deleted by id and updated by id. A table is a sequence of rows
    in id order; `AsMap` is its content as a map from id to row data. */
module Store {
  import opened Http

  datatype Row<+T> = Row(id: int, data: T)

  /** Ids are positive, strictly increasing, and below `next`, the id the
      store's sequence hands out on the next insert. */
  predicate Wellformed<T>(rows: seq<Row<T>>, next: int) {
    && 1 <= next
    && (forall i :: 0 <= i < |rows| ==> 1 <= rows[i].id < next)
    && (forall i, j :: 0 <= i < j < |rows| ==> rows[i].id < rows[j].id)
  }

  /** The table's content keyed by id. */
  function AsMap<T>(rows: seq<Row<T>>): map<int, T> {
    if rows == [] then map[]
    else
      var n := |rows| - 1;
      AsMap(rows[..n])[rows[n].id := rows[n].data]
  }

  /** The map has exactly the ids of the rows as keys. */
  lemma {:induction false} AsMapKeys<T>(rows: seq<Row<T>>, k: int)
    ensures k in AsMap(rows) <==> exists i :: 0 <= i < |rows| && rows[i].id == k
  {
    if rows != [] {
      var n := |rows| - 1;
      AsMapKeys(rows[..n], k);
      if k in AsMap(rows[..n]) {
        var i :| 0 <= i < n && rows[..n][i].id == k;
        assert rows[i].id == k;
      }
      if exists i :: 0 <= i < |rows| && rows[i].id == k {
        var i :| 0 <= i < |rows| && rows[i].id == k;
        if i < n { assert rows[..n][i].id == k; }
      }
    }
  }

  /** In a well-formed table each row is what the map holds for its id. */
  lemma {:induction false} AsMapAt<T>(rows: seq<Row<T>>, next: int, i: int)
    requires Wellformed(rows, next) && 0 <= i < |rows|
    ensures rows[i].id in AsMap(rows) && AsMap(rows)[rows[i].id] == rows[i].data
  {
    var n := |rows| - 1;
    if i < n {
      assert Wellformed(rows[..n], next);
      AsMapAt(rows[..n], next, i);
      assert rows[..n][i] == rows[i];
    }
  }

  /** `getById`, as assumed: the row with that id, if there is one. */
  function Find<T>(rows: seq<Row<T>>, id: int): (r: Option<Row<T>>)
    ensures r.Some? <==> id in AsMap(rows)
    ensures r.Some? ==> r.value == Row(id, AsMap(rows)[id])
  {
    if rows == [] then None
    else
      var n := |rows| - 1;
      if rows[n].id == id then Some(rows[n]) else Find(rows[..n], id)
  }

  /** The delete services, as assumed: the rows without that id, in the
      same order. */
  function Delete<T>(rows: seq<Row<T>>, id: int): (r: seq<Row<T>>)
    ensures |r| <= |rows|
  {
    if rows == [] then []
    else
      var n := |rows| - 1;
      var init := Delete(rows[..n], id);
      if rows[n].id == id then init else init + [rows[n]]
  }

  /** After the delete no row has the id, and every other id keeps its data. */
  lemma {:induction false} DeleteAsMap<T>(rows: seq<Row<T>>, id: int)
    ensures AsMap(Delete(rows, id)) == AsMap(rows) - {id}
  {
    if rows != [] {
      var n := |rows| - 1;
      var last := rows[n];
      var before := AsMap(rows[..n]);
      var init := Delete(rows[..n], id);
      DeleteAsMap(rows[..n], id);
      assert AsMap(init) == before - {id};
      assert AsMap(rows) == before[last.id := last.data];
      if last.id != id {
        var r := init + [last];
        assert Delete(rows, id) == r;
        assert r[..|init|] == init;
        assert AsMap(r) == AsMap(init)[last.id := last.data];
        assert (before - {id})[last.id := last.data] == before[last.id := last.data] - {id};
      } else {
        assert Delete(rows, id) == init;
        assert before[id := last.data] - {id} == before - {id};
      }
    }
  }

  /** The update services, as assumed: the row with that id gets `f` of its
      data; every row keeps its id and its place. */
  function Update<T>(rows: seq<Row<T>>, id: int, f: T -> T): (r: seq<Row<T>>)
    ensures |r| == |rows|
    ensures forall i :: 0 <= i < |r| ==> r[i].id == rows[i].id
    ensures forall i :: 0 <= i < |r| && rows[i].id != id ==> r[i] == rows[i]
  {
    if rows == [] then []
    else
      var n := |rows| - 1;
      var last := if rows[n].id == id then Row(id, f(rows[n].data)) else rows[n];
      Update(rows[..n], id, f) + [last]
  }

  /** After the update the id's data is `f` of what it was (if the id was
      there at all), and every other id keeps its data. */
  lemma {:induction false} UpdateAsMap<T>(rows: seq<Row<T>>, id: int, f: T -> T)
    ensures AsMap(Update(rows, id, f))
         == if id in AsMap(rows) then AsMap(rows)[id := f(AsMap(rows)[id])] else AsMap(rows)
  {
    if rows != [] {
      var n := |rows| - 1;
      var last := rows[n];
      var before := AsMap(rows[..n]);
      var init := Update(rows[..n], id, f);
      var newLast := if last.id == id then Row(id, f(last.data)) else last;
      UpdateAsMap(rows[..n], id, f);
      assert Update(rows, id, f) == init + [newLast];
      AppendAsMap(init, newLast);
      if last.id != id && id in before {
        assert before[id := f(before[id])][last.id := last.data]
            == before[last.id := last.data][id := f(before[id])];
      }
    }
  }

  /** Appending a row puts its data under its id. */
  lemma AppendAsMap<T>(rows: seq<Row<T>>, row: Row<T>)
    ensures AsMap(rows + [row]) == AsMap(rows)[row.id := row.data]
  {
    var r := rows + [row];
    assert r[..|rows|] == rows;
  }

  /** The id the store hands out next is not in the table yet. */
  lemma NextIsFresh<T>(rows: seq<Row<T>>, next: int)
    requires Wellformed(rows, next)
    ensures next !in AsMap(rows)
  {
    if next in AsMap(rows) {
      AsMapKeys(rows, next);
    }
  }

  /** `insert(data)`: the store gives the row the next id of its sequence,
      an id no row has yet, and the table stays well-formed. */
  lemma InsertFresh<T>(rows: seq<Row<T>>, next: int, data: T)
    requires Wellformed(rows, next)
    ensures next !in AsMap(rows)
    ensures Wellformed(rows + [Row(next, data)], next + 1)
    ensures AsMap(rows + [Row(next, data)]) == AsMap(rows)[next := data]
  {
    NextIsFresh(rows, next);
    AppendAsMap(rows, Row(next, data));
  }

  /** Deleting keeps a bound every id of the table respects. */
  lemma {:induction false} DeleteBounded<T>(rows: seq<Row<T>>, id: int, bound: int)
    requires forall i :: 0 <= i < |rows| ==> rows[i].id < bound
    ensures forall i :: 0 <= i < |Delete(rows, id)| ==> Delete(rows, id)[i].id < bound
  {
    if rows != [] {
      var n := |rows| - 1;
      assert forall i :: 0 <= i < n ==> rows[..n][i] == rows[i];
      DeleteBounded(rows[..n], id, bound);
    }
  }

  lemma {:induction false} DeleteWellformed<T>(rows: seq<Row<T>>, next: int, id: int)
    requires Wellformed(rows, next)
    ensures Wellformed(Delete(rows, id), next)
  {
    if rows != [] {
      var n := |rows| - 1;
      var prefix := rows[..n];
      assert forall i :: 0 <= i < n ==> prefix[i] == rows[i];
      DeleteWellformed(prefix, next, id);
      DeleteBounded(prefix, id, rows[n].id);
    }
  }

  lemma UpdateWellformed<T>(rows: seq<Row<T>>, next: int, id: int, f: T -> T)
    requires Wellformed(rows, next)
    ensures Wellformed(Update(rows, id, f), next)
  {
  }

  /** A row `Find` returns is one of the table's rows. */
  lemma {:induction false} FindIsListed<T>(rows: seq<Row<T>>, id: int)
    requires Find(rows, id).Some?
    ensures exists k :: 0 <= k < |rows| && rows[k] == Find(rows, id).value
  {
    var n := |rows| - 1;
    if rows[n].id != id {
      FindIsListed(rows[..n], id);
      var k :| 0 <= k < n && rows[..n][k] == Find(rows[..n], id).value;
      assert rows[k] == rows[..n][k];
    }
  }
}
