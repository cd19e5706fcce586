/** What creating, moving, renaming and removing a category writes, row by row. */
module CategoryRows {
  import opened Text
  import opened Forest
  import opened ForestOps

  /** The row with the id. */
  function RowWith(table: seq<Row>, id: string): Option<Row> {
    if table == [] then None else if table[0].id == id then Some(table[0]) else RowWith(table[1..], id)
  }

  /** The slugs of all rows but those with the id, deleted ones included. */
  function SlugsBut(table: seq<Row>, id: string): set<string> {
    set r | r in table && r.id != id :: r.slug
  }

  /** A slug is refused exactly when another row, deleted or not, has it. */
  lemma {:induction false} SlugTakenIff(table: seq<Row>, slug: string, id: string)
    ensures SlugTaken(table, slug, id) <==> slug in SlugsBut(table, id)
  {
    assert forall i :: 0 <= i < |table| ==> table[i] in table;
  }

  /** A new category has the given slug and parent, and no other row changes. */
  lemma {:induction false} CreatedRows(table: seq<Row>, id: string, slug: string, parent: Option<string>, x: string)
    requires !HasId(table, id)
    ensures RowWith(Created(table, id, slug, parent), x)
         == if x == id then Some(Row(id, slug, parent, false)) else RowWith(table, x)
  {
    var row := Row(id, slug, parent, false);
    if table != [] {
      assert table[0].id != id;
      assert Created(table, id, slug, parent)[1..] == Created(table[1..], id, slug, parent);
      assert forall i :: 0 <= i < |table| - 1 ==> table[1..][i] == table[i + 1];
      CreatedRows(table[1..], id, slug, parent, x);
    } else {
      assert Created(table, id, slug, parent) == [row];
    }
  }

  /** A move sets the parent of the category and nothing else. */
  lemma {:induction false} MovedRows(table: seq<Row>, id: string, parent: Option<string>, x: string)
    ensures var old' := RowWith(table, x);
            RowWith(Moved(table, id, parent), x)
            == if x == id && old'.Some? then Some(Row(id, old'.value.slug, parent, old'.value.deleted)) else old'
  {
    if table != [] {
      assert Moved(table, id, parent)[1..] == Moved(table[1..], id, parent);
      MovedRows(table[1..], id, parent, x);
    }
  }

  /** A new slug changes nothing else. */
  lemma {:induction false} RenamedRows(table: seq<Row>, id: string, slug: string, x: string)
    ensures var old' := RowWith(table, x);
            RowWith(Renamed(table, id, slug), x)
            == if x == id && old'.Some? then Some(Row(id, slug, old'.value.parent, old'.value.deleted)) else old'
  {
    if table != [] {
      assert Renamed(table, id, slug)[1..] == Renamed(table[1..], id, slug);
      RenamedRows(table[1..], id, slug, x);
    }
  }

  /** Removing marks the row, which keeps its slug and its parent. */
  lemma {:induction false} RemovedRows(table: seq<Row>, id: string, x: string)
    ensures var old' := RowWith(table, x);
            RowWith(Removed(table, id), x)
            == if x == id && old'.Some? then Some(Row(id, old'.value.slug, old'.value.parent, true)) else old'
  {
    if table != [] {
      assert Removed(table, id)[1..] == Removed(table[1..], id);
      RemovedRows(table[1..], id, x);
    }
  }

  /** The live rows are those not marked deleted, in the table's order. */
  lemma {:induction false} LiveIff(table: seq<Row>, id: string)
    requires DistinctIds(table)
    ensures HasId(Live(table), id) <==> RowWith(table, id).Some? && !RowWith(table, id).value.deleted
  {
    LiveRows(table);
    RowIsIn(table, id);
    if HasId(Live(table), id) {
      var r := LiveRow(table, id);
      RowIs(table, r);
    }
    if RowWith(table, id).Some? && !RowWith(table, id).value.deleted {
      ListedId(Live(table), RowWith(table, id).value);
    }
  }

  lemma {:induction false} ListedId(rows: seq<Row>, r: Row)
    requires r in rows
    ensures HasId(rows, r.id)
  {
    var k :| 0 <= k < |rows| && rows[k] == r;
  }

  lemma {:induction false} RowIsIn(table: seq<Row>, id: string)
    ensures RowWith(table, id).Some? ==> RowWith(table, id).value in table && RowWith(table, id).value.id == id
  {
    if table != [] {
      RowIsIn(table[1..], id);
    }
  }

  lemma {:induction false} RowIs(table: seq<Row>, r: Row)
    requires DistinctIds(table) && r in table
    ensures RowWith(table, r.id) == Some(r)
  {
    if table[0] != r {
      assert r in table[1..];
      var k :| 0 <= k < |table| - 1 && table[1..][k] == r;
      assert table[k + 1] == r;
      RowIs(table[1..], r);
    }
  }
}
