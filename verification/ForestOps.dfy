/**
 Creating, moving and removing categories: which of them keep the parent pointers of
 the live rows acyclic, and exactly when a move does.
 */
module ForestOps {
  import opened Text
  import opened Forest

  datatype Error = NotFound | ParentNotFound | OwnParent | SlugConflict

  /** What an update says about the parent: nothing, make it a root, or move it. */
  datatype ParentChange = Keep | Clear | Move(to: string)

  function Live(table: seq<Row>): seq<Row> {
    if table == [] then []
    else Live(table[..|table| - 1]) + if table[|table| - 1].deleted then [] else [table[|table| - 1]]
  }

  /** Another category, live or not, has the slug. */
  predicate SlugTaken(table: seq<Row>, slug: string, id: string) {
    exists i | 0 <= i < |table| :: table[i].id != id && table[i].slug == slug
  }

  /** Primary key, unique slugs and foreign key of the category table. */
  ghost predicate Consistent(table: seq<Row>) {
    && DistinctIds(table)
    && (forall i, j :: 0 <= i < j < |table| ==> table[i].slug != table[j].slug)
    && (forall i :: 0 <= i < |table| && table[i].parent.Some? ==> HasId(table, table[i].parent.value))
  }

  function Created(table: seq<Row>, id: string, slug: string, parent: Option<string>): seq<Row> {
    table + [Row(id, slug, parent, false)]
  }

  function Moved(table: seq<Row>, id: string, parent: Option<string>): seq<Row> {
    seq(|table|, i requires 0 <= i < |table| => if table[i].id == id then table[i].(parent := parent) else table[i])
  }

  function Renamed(table: seq<Row>, id: string, slug: string): seq<Row> {
    seq(|table|, i requires 0 <= i < |table| => if table[i].id == id then table[i].(slug := slug) else table[i])
  }

  function Removed(table: seq<Row>, id: string): seq<Row> {
    seq(|table|, i requires 0 <= i < |table| => if table[i].id == id then table[i].(deleted := true) else table[i])
  }

  lemma {:induction false} SameIds(a: seq<Row>, b: seq<Row>, id: string)
    requires |a| <= |b| && forall i :: 0 <= i < |a| ==> a[i].id == b[i].id
    ensures HasId(a, id) ==> HasId(b, id)
  {
    if HasId(a, id) {
      var i :| 0 <= i < |a| && a[i].id == id;
      assert b[i].id == id;
    }
  }

  lemma {:induction false} CreatedConsistent(table: seq<Row>, id: string, slug: string, parent: Option<string>)
    requires Consistent(table) && !HasId(table, id) && !SlugTaken(table, slug, id)
    requires parent.Some? ==> HasId(Live(table), parent.value)
    ensures Consistent(Created(table, id, slug, parent))
  {
    var after := Created(table, id, slug, parent);
    forall x ensures HasId(table, x) ==> HasId(after, x) { SameIds(table, after, x); }
    if parent.Some? { LiveListed(table, parent.value); }
    assert forall i :: 0 <= i < |table| ==> after[i] == table[i];
  }

  lemma {:induction false} MovedConsistent(table: seq<Row>, id: string, parent: Option<string>)
    requires Consistent(table) && (parent.Some? ==> HasId(table, parent.value))
    ensures Consistent(Moved(table, id, parent))
  {
    var after := Moved(table, id, parent);
    forall x ensures HasId(table, x) ==> HasId(after, x) { SameIds(table, after, x); }
    assert forall i :: 0 <= i < |table| ==> after[i].id == table[i].id;
  }

  lemma {:induction false} RemovedConsistent(table: seq<Row>, id: string)
    requires Consistent(table)
    ensures Consistent(Removed(table, id))
  {
    var after := Removed(table, id);
    forall x ensures HasId(table, x) ==> HasId(after, x) { SameIds(table, after, x); }
    assert forall i :: 0 <= i < |table| ==> after[i].id == table[i].id && after[i].parent == table[i].parent;
  }

  // ----- The live rows -----------------------------------------------------------------

  /** A live row is listed as it is; ids stay distinct. */
  lemma {:induction false} LiveRows(table: seq<Row>)
    requires DistinctIds(table)
    ensures DistinctIds(Live(table))
    ensures forall r :: r in Live(table) <==> r in table && !r.deleted
  {
    if table != [] {
      var n := |table| - 1;
      LiveRows(table[..n]);
      assert table == table[..n] + [table[n]];
      var before := Live(table[..n]);
      assert forall i :: 0 <= i < |before| ==> before[i] in before && before[i] in table[..n];
      assert forall i :: 0 <= i < |before| ==> before[i].id != table[n].id by {
        forall i | 0 <= i < |before| ensures before[i].id != table[n].id {
          assert before[i] in table[..n];
          var k :| 0 <= k < n && table[k] == before[i];
        }
      }
    }
  }

  lemma {:induction false} LiveListed(table: seq<Row>, id: string)
    requires DistinctIds(table) && HasId(Live(table), id)
    ensures HasId(table, id)
  {
    LiveRows(table);
    var i :| 0 <= i < |Live(table)| && Live(table)[i].id == id;
    assert Live(table)[i] in table;
    var k :| 0 <= k < |table| && table[k] == Live(table)[i];
  }

  /** The listed parent in terms of the table's live rows. */
  lemma {:induction false} UpOfLive(table: seq<Row>, r: Row)
    requires DistinctIds(table) && r in table && !r.deleted
    ensures HasId(Live(table), r.id)
    ensures Up(Live(table), r.id) == if r.parent.Some? && HasId(Live(table), r.parent.value) then r.parent else None
  {
    LiveRows(table);
    var live := Live(table);
    assert r in live;
    var k :| 0 <= k < |live| && live[k] == r;
    assert RowIndex(live, r.id) == k;
  }

  lemma {:induction false} NotLive(table: seq<Row>, id: string)
    requires !HasId(Live(table), id)
    ensures Up(Live(table), id) == None
  {
  }

  lemma {:induction false} LiveRow(table: seq<Row>, id: string) returns (r: Row)
    requires DistinctIds(table) && HasId(Live(table), id)
    ensures r in table && !r.deleted && r.id == id
  {
    LiveRows(table);
    var i :| 0 <= i < |Live(table)| && Live(table)[i].id == id;
    r := Live(table)[i];
    assert r in Live(table);
  }

  // ----- Create and remove ----------------------------------------------------------------

  /** Cutting pointers only shortens chains. */
  lemma {:induction false} CutStillRooted(up: string -> Option<string>, cut: string -> Option<string>, x: string,
                                          k: nat)
    requires forall y :: cut(y) == up(y) || cut(y) == None
    requires Climb(up, x, k) == None
    ensures Climb(cut, x, k) == None
    decreases k
  {
    if cut(x).Some? {
      CutStillRooted(up, cut, cut(x).value, k - 1);
    }
  }

  /** Soft-deleting a category makes its children roots and never hides a row. */
  lemma {:induction false} RemoveKeepsAcyclic(table: seq<Row>, id: string)
    requires Consistent(table) && Acyclic(Live(table))
    ensures Acyclic(Live(Removed(table, id)))
  {
    var after := Removed(table, id);
    RemovedConsistent(table, id);
    var up, cut := UpOf(Live(table)), UpOf(Live(after));
    forall y ensures cut(y) == up(y) || cut(y) == None {
      if HasId(Live(after), y) {
        var r := LiveRow(after, y);
        RemovedRow(table, id, r);
        UpOfLive(after, r);
        UpOfLive(table, r);
        if r.parent.Some? && HasId(Live(after), r.parent.value) {
          var p := LiveRow(after, r.parent.value);
          RemovedRow(table, id, p);
          UpOfLive(table, p);
        }
      } else {
        NotLive(after, y);
      }
    }
    AcyclicIffRooted(Live(table));
    forall x | HasId(Live(after), x) ensures Rooted(cut, x) {
      var r := LiveRow(after, x);
      RemovedRow(table, id, r);
      UpOfLive(table, r);
      var k: nat :| Climb(up, x, k) == None;
      CutStillRooted(up, cut, x, k);
    }
    AcyclicIffRooted(Live(after));
  }

  lemma {:induction false} RemovedRow(table: seq<Row>, id: string, r: Row)
    requires r in Removed(table, id) && !r.deleted
    ensures r in table
  {
  }

  /** Chains that agree pointer by pointer agree. */
  lemma {:induction false} SameChain(up: string -> Option<string>, other: string -> Option<string>, x: string, k: nat,
                                     except: string)
    requires forall y :: y != except ==> other(y) == up(y)
    requires x != except && forall y :: up(y) != Some(except)
    ensures Climb(other, x, k) == Climb(up, x, k)
    decreases k
  {
    if k > 0 && up(x).Some? {
      SameChain(up, other, up(x).value, k - 1, except);
    }
  }

  lemma {:induction false} LiveCreated(table: seq<Row>, id: string, slug: string, parent: Option<string>)
    ensures Live(Created(table, id, slug, parent)) == Live(table) + [Row(id, slug, parent, false)]
  {
    assert Created(table, id, slug, parent)[..|table|] == table;
  }

  /** A new category never hides a row and is shown itself. */
  lemma {:induction false} CreateKeepsAcyclic(table: seq<Row>, id: string, slug: string, parent: Option<string>)
    requires Consistent(table) && !HasId(table, id) && !SlugTaken(table, slug, id) && Acyclic(Live(table))
    requires parent.Some? ==> HasId(Live(table), parent.value)
    ensures Acyclic(Live(Created(table, id, slug, parent)))
  {
    var after := Created(table, id, slug, parent);
    CreatedConsistent(table, id, slug, parent);
    var up, other := UpOf(Live(table)), UpOf(Live(after));
    CreatedPointers(table, id, slug, parent);
    AcyclicIffRooted(Live(table));
    forall x | HasId(Live(after), x) ensures Rooted(other, x) {
      if x != id {
        var k: nat :| Climb(up, x, k) == None;
        SameChain(up, other, x, k, id);
      } else if parent.Some? {
        LiveListed(table, parent.value);
        var k: nat :| Climb(up, parent.value, k) == None;
        SameChain(up, other, parent.value, k, id);
        assert Climb(other, id, k + 1) == None;
      } else {
        assert Climb(other, id, 1) == None;
      }
    }
    AcyclicIffRooted(Live(after));
  }

  lemma {:induction false} CreatedPointers(table: seq<Row>, id: string, slug: string, parent: Option<string>)
    requires Consistent(table) && !HasId(table, id) && !SlugTaken(table, slug, id)
    requires parent.Some? ==> HasId(Live(table), parent.value)
    ensures var up, other := UpOf(Live(table)), UpOf(Live(Created(table, id, slug, parent)));
            && (forall y :: y != id ==> other(y) == up(y)) && other(id) == parent
            && (forall y :: up(y) != Some(id))
            && (forall y :: y != id ==> (HasId(Live(Created(table, id, slug, parent)), y) <==> HasId(Live(table), y)))
  {
    var after, row := Created(table, id, slug, parent), Row(id, slug, parent, false);
    CreatedConsistent(table, id, slug, parent);
    LiveCreated(table, id, slug, parent);
    LiveRows(table);
    var live, live' := Live(table), Live(after);
    forall y ensures HasId(live', y) <==> HasId(live, y) || y == id {
      if HasId(live, y) { SameIds(live, live', y); }
      assert live'[|live|].id == id;
      if HasId(live', y) && y != id {
        var i :| 0 <= i < |live'| && live'[i].id == y;
        assert live[i].id == y;
      }
    }
    assert !HasId(live, id) by {
      if HasId(live, id) { LiveListed(table, id); }
    }
    forall y | y != id ensures Up(live', y) == Up(live, y) {
      if HasId(live, y) {
        var r := LiveRow(table, y);
        UpOfLive(table, r);
        assert r in after;
        UpOfLive(after, r);
        assert r.parent != Some(id) by {
          var i :| 0 <= i < |table| && table[i] == r;
        }
      } else {
        NotLive(table, y);
        NotLive(after, y);
      }
    }
    assert row in after;
    UpOfLive(after, row);
    forall y ensures Up(live, y) != Some(id) {
      if HasId(live, y) {
        var r := LiveRow(table, y);
        UpOfLive(table, r);
      } else {
        NotLive(table, y);
      }
    }
  }

  // ----- Move --------------------------------------------------------------------------------

  /** Some step of the chain of `from` is the given id. */
  ghost predicate Above(up: string -> Option<string>, from: string, id: string) {
    exists k: nat :: Climb(up, from, k) == Some(id)
  }

  lemma {:induction false} MovedPointers(table: seq<Row>, id: string, to: Option<string>)
    requires Consistent(table) && HasId(Live(table), id) && (to.Some? ==> HasId(Live(table), to.value))
    ensures var up, moved := UpOf(Live(table)), UpOf(Live(Moved(table, id, to)));
            && moved(id) == to && forall y :: y != id ==> moved(y) == up(y)
    ensures forall y :: HasId(Live(Moved(table, id, to)), y) <==> HasId(Live(table), y)
  {
    var after := Moved(table, id, to);
    if to.Some? { LiveListed(table, to.value); }
    MovedConsistent(table, id, to);
    forall y ensures HasId(Live(after), y) <==> HasId(Live(table), y) {
      if HasId(Live(table), y) {
        var r := LiveRow(table, y);
        MovedRow(table, id, to, r);
        UpOfLive(after, if y == id then r.(parent := to) else r);
      }
      if HasId(Live(after), y) {
        var r := LiveRow(after, y);
        var i :| 0 <= i < |after| && after[i] == r;
        UpOfLive(table, table[i]);
      }
    }
    forall y ensures Up(Live(after), y) == if y == id then to else Up(Live(table), y) {
      if HasId(Live(table), y) {
        var r := LiveRow(table, y);
        MovedRow(table, id, to, r);
        UpOfLive(table, r);
        UpOfLive(after, if y == id then r.(parent := to) else r);
      } else {
        NotLive(table, y);
        NotLive(after, y);
      }
    }
  }

  lemma {:induction false} MovedRow(table: seq<Row>, id: string, to: Option<string>, r: Row)
    requires r in table
    ensures (if r.id == id then r.(parent := to) else r) in Moved(table, id, to)
  {
    var i :| 0 <= i < |table| && table[i] == r;
    assert Moved(table, id, to)[i] == if r.id == id then r.(parent := to) else r;
  }

  /** If the new parent's chain avoids the moved id, it is the same chain afterwards. */
  lemma {:induction false} ChainAvoids(up: string -> Option<string>, moved: string -> Option<string>, x: string, k: nat,
                                       id: string)
    requires forall y :: y != id ==> moved(y) == up(y)
    requires forall j: nat :: j < k ==> Climb(up, x, j) != Some(id)
    ensures Climb(moved, x, k) == Climb(up, x, k)
    decreases k
  {
    if k > 0 {
      assert Climb(up, x, 0) == Some(x);
      if up(x).Some? {
        forall j: nat | j < k - 1 ensures Climb(up, up(x).value, j) != Some(id) {
          assert Climb(up, x, j + 1) != Some(id);
        }
        ChainAvoids(up, moved, up(x).value, k - 1, id);
      }
    }
  }

  /** Every chain still ends when the moved row's does. */
  lemma {:induction false} MovedStillRooted(up: string -> Option<string>, moved: string -> Option<string>, x: string,
                                            k: nat, id: string)
    requires forall y :: y != id ==> moved(y) == up(y)
    requires Climb(up, x, k) == None && Rooted(moved, id)
    ensures Rooted(moved, x)
    decreases k
  {
    if x != id {
      if up(x) == None {
        assert Climb(moved, x, 1) == None;
      } else {
        MovedStillRooted(up, moved, up(x).value, k - 1, id);
        var n: nat :| Climb(moved, up(x).value, n) == None;
        assert Climb(moved, x, n + 1) == None;
      }
    }
  }

  /** If the new parent's chain meets the moved id, the pointers now form a cycle. */
  lemma {:induction false} MovedMeets(up: string -> Option<string>, moved: string -> Option<string>, x: string, k: nat,
                                      id: string) returns (n: nat)
    requires forall y :: y != id ==> moved(y) == up(y)
    requires Climb(up, x, k) == Some(id)
    ensures Climb(moved, x, n) == Some(id)
    decreases k
  {
    if x == id {
      n := 0;
    } else {
      n := MovedMeets(up, moved, up(x).value, k - 1, id);
      n := n + 1;
    }
  }

  /** Making a category a root never hides a row. */
  lemma {:induction false} ClearKeepsAcyclic(table: seq<Row>, id: string)
    requires Consistent(table) && HasId(Live(table), id) && Acyclic(Live(table))
    ensures Acyclic(Live(Moved(table, id, None)))
  {
    var live, after := Live(table), Live(Moved(table, id, None));
    MovedPointers(table, id, None);
    AcyclicIffRooted(live);
    forall x | HasId(after, x) ensures Rooted(UpOf(after), x) {
      var k: nat :| Climb(UpOf(live), x, k) == None;
      CutStillRooted(UpOf(live), UpOf(after), x, k);
    }
    AcyclicIffRooted(after);
  }

  /**
   Moving a live category under another keeps the tree complete if and only if the
   category is not already above its new parent. The update only checks that the
   two ids differ.
   */
  lemma {:induction false} MoveExact(table: seq<Row>, id: string, to: string)
    requires Consistent(table) && HasId(Live(table), id) && HasId(Live(table), to)
    requires Acyclic(Live(table))
    ensures Acyclic(Live(Moved(table, id, Some(to)))) <==> !Above(UpOf(Live(table)), to, id)
  {
    var live, after := Live(table), Live(Moved(table, id, Some(to)));
    var up, moved := UpOf(live), UpOf(after);
    MovedPointers(table, id, Some(to));
    AcyclicIffRooted(live);
    if Above(up, to, id) {
      var k: nat :| Climb(up, to, k) == Some(id);
      var n := MovedMeets(up, moved, to, k, id);
      assert Climb(moved, id, n + 1) == Some(id);
      assert !Acyclic(after);
    } else {
      var k: nat :| Climb(up, to, k) == None;
      ChainAvoids(up, moved, to, k, id);
      assert Climb(moved, id, k + 1) == None;
      forall x | HasId(after, x) ensures Rooted(moved, x) {
        var j: nat :| Climb(up, x, j) == None;
        MovedStillRooted(up, moved, x, j, id);
      }
      AcyclicIffRooted(after);
    }
  }

  lemma {:induction false} LivePair(a: Row, b: Row)
    requires !a.deleted && !b.deleted
    ensures Live([a, b]) == [a, b]
  {
    assert [a, b][..1] == [a] && [a][..0] == [];
    assert Live([a]) == [a];
  }

  lemma {:induction false} PairPointers(a: Row, b: Row)
    requires a.id != b.id
    ensures DistinctIds([a, b]) && forall x :: HasId([a, b], x) <==> x == a.id || x == b.id
    ensures Up([a, b], a.id) == ParentOf([a, b], a) && Up([a, b], b.id) == ParentOf([a, b], b)
  {
    assert [a, b][0].id == a.id && [a, b][1].id == b.id;
    assert RowIndex([a, b], a.id) == 0 && RowIndex([a, b], b.id) == 1;
  }

  const ROOT_A := Row("a", "a", None, false)
  const CHILD_B := Row("b", "b", Some("a"), false)
  const CHILD_A := Row("a", "a", Some("b"), false)

  lemma {:induction false} PairAcyclic()
    ensures Consistent([ROOT_A, CHILD_B]) && Acyclic([ROOT_A, CHILD_B])
    ensures Above(UpOf([ROOT_A, CHILD_B]), "b", "a")
  {
    var table := [ROOT_A, CHILD_B];
    assert "a"[0] != "b"[0];
    PairPointers(ROOT_A, CHILD_B);
    hide HasId, RowIndex, Up;
    var up := UpOf(table);
    forall x | HasId(table, x) ensures Rooted(up, x) {
      assert Climb(up, "a", 1) == None;
      assert Climb(up, "b", 2) == None;
    }
    assert Climb(up, "b", 1) == Some("a") by { assert Climb(up, "a", 0) == Some("a"); }
    AcyclicIffRooted(table);
  }

  /** Two categories moved under each other: both are live and neither is shown. */
  lemma {:induction false} MutualParents()
    ensures var table := [ROOT_A, CHILD_B];
            var after := Moved(table, "a", Some("b"));
            && Consistent(table) && Acyclic(Live(table)) && HasId(Live(table), "a") && HasId(Live(table), "b")
            && Live(after) == after && |after| == 2 && !Acyclic(after) && Flattened(after) == []
  {
    var table := [ROOT_A, CHILD_B];
    var after := Moved(table, "a", Some("b"));
    assert "a"[0] != "b"[0];
    assert after == [CHILD_A, CHILD_B];
    LivePair(ROOT_A, CHILD_B);
    LivePair(CHILD_A, CHILD_B);
    PairAcyclic();
    PairPointers(ROOT_A, CHILD_B);
    PairPointers(CHILD_A, CHILD_B);
    hide Acyclic, Consistent, Live, HasId, RowIndex, Up;
    MoveExact(table, "a", "b");
    assert Filed(after, 1, None) == [] && Filed(after, 2, None) == [];
    assert RootIds(after) == [];
  }

  // ----- Renaming leaves the tree alone -------------------------------------------------

  ghost predicate SamePointers(a: seq<Row>, b: seq<Row>) {
    |a| == |b| && forall i :: 0 <= i < |a| ==> a[i].id == b[i].id && a[i].parent == b[i].parent
  }

  lemma {:induction false} RenamedConsistent(table: seq<Row>, id: string, slug: string)
    requires Consistent(table) && !SlugTaken(table, slug, id)
    ensures Consistent(Renamed(table, id, slug))
  {
    var after := Renamed(table, id, slug);
    forall x ensures HasId(table, x) ==> HasId(after, x) { SameIds(table, after, x); }
    assert forall i :: 0 <= i < |table| ==> after[i].id == table[i].id && after[i].parent == table[i].parent;
  }

  lemma {:induction false} LiveRenamed(table: seq<Row>, id: string, slug: string)
    ensures SamePointers(Live(table), Live(Renamed(table, id, slug)))
  {
    if table != [] {
      var n := |table| - 1;
      assert Renamed(table, id, slug)[..n] == Renamed(table[..n], id, slug);
      LiveRenamed(table[..n], id, slug);
    }
  }

  lemma {:induction false} SameFiled(a: seq<Row>, b: seq<Row>, n: nat, parent: Option<string>)
    requires SamePointers(a, b) && n <= |a|
    ensures Filed(a, n, parent) == Filed(b, n, parent)
  {
    if n > 0 {
      SameFiled(a, b, n - 1, parent);
      if a[n - 1].parent.Some? {
        SameIds(a, b, a[n - 1].parent.value);
        SameIds(b, a, a[n - 1].parent.value);
      }
    }
  }

  lemma {:induction false} SamePreorder(a: seq<Row>, b: seq<Row>, ids: seq<string>, depth: nat)
    requires SamePointers(a, b)
    ensures PreorderAll(a, ids, depth) == PreorderAll(b, ids, depth)
    decreases depth, |ids|
  {
    if ids != [] {
      if depth > 0 {
        SameFiled(a, b, |a|, Some(ids[0]));
        SamePreorder(a, b, ChildIds(a, ids[0]), depth - 1);
      }
      SamePreorder(a, b, ids[1..], depth);
    }
  }

  /** A new slug changes nothing about what the tree shows. */
  lemma {:induction false} RenameKeepsTree(table: seq<Row>, id: string, slug: string)
    ensures Flattened(Live(Renamed(table, id, slug))) == Flattened(Live(table))
  {
    var a, b := Live(table), Live(Renamed(table, id, slug));
    LiveRenamed(table, id, slug);
    SameFiled(a, b, |a|, None);
    SamePreorder(a, b, RootIds(a), |a|);
  }

  // ----- The service ---------------------------------------------------------------------

  class CategoryTable {
    var rows: seq<Row>

    /** Create under a live parent or as a root. The id is new. */
    method Create(id: string, slug: string, parent: Option<string>) returns (error: Option<Error>)
      requires Consistent(rows) && !HasId(rows, id)
      modifies this
      ensures Consistent(rows)
      ensures error == if parent.Some? && !HasId(Live(old(rows)), parent.value) then Some(ParentNotFound)
                       else if SlugTaken(old(rows), slug, id) then Some(SlugConflict)
                       else None
      ensures rows == if error == None then Created(old(rows), id, slug, parent) else old(rows)
    {
      if parent.Some? && !HasId(Live(rows), parent.value) {
        return Some(ParentNotFound);
      }
      if SlugTaken(rows, slug, id) {
        return Some(SlugConflict);
      }
      CreatedConsistent(rows, id, slug, parent);
      rows := rows + [Row(id, slug, parent, false)];
      return None;
    }

    /** Self-parenting, missing rows and taken slugs are refused, nothing else. */
    method Update(id: string, slug: Option<string>, change: ParentChange) returns (error: Option<Error>)
      requires Consistent(rows)
      modifies this
      ensures Consistent(rows)
      ensures error == if !HasId(Live(old(rows)), id) then Some(NotFound)
                       else if change == Move(id) then Some(OwnParent)
                       else if change.Move? && !HasId(Live(old(rows)), change.to) then Some(ParentNotFound)
                       else if slug.Some? && SlugTaken(old(rows), slug.value, id) then Some(SlugConflict)
                       else None
      ensures error == None ==>
                var renamed := if slug.Some? then Renamed(old(rows), id, slug.value) else old(rows);
                rows == match change
                        case Keep => renamed
                        case Clear => Moved(renamed, id, None)
                        case Move(to) => Moved(renamed, id, Some(to))
      ensures error != None ==> rows == old(rows)
    {
      if !HasId(Live(rows), id) {
        return Some(NotFound);
      }
      if change.Move? {
        if change.to == id {
          return Some(OwnParent);
        }
        if !HasId(Live(rows), change.to) {
          return Some(ParentNotFound);
        }
      }
      if slug.Some? {
        if SlugTaken(rows, slug.value, id) {
          return Some(SlugConflict);
        }
        RenamedConsistent(rows, id, slug.value);
        if change.Move? {
          LiveListed(rows, change.to);
          SameIds(rows, Renamed(rows, id, slug.value), change.to);
        }
        rows := Renamed(rows, id, slug.value);
      } else if change.Move? {
        LiveListed(rows, change.to);
      }
      hide Consistent, HasId, Live;
      match change {
        case Keep =>
        case Clear =>
          MovedConsistent(rows, id, None);
          rows := Moved(rows, id, None);
        case Move(to) =>
          MovedConsistent(rows, id, Some(to));
          rows := Moved(rows, id, Some(to));
      }
      return None;
    }

    /** Soft delete; the row and the pointers to it stay in the table. */
    method Remove(id: string) returns (error: Option<Error>)
      requires Consistent(rows)
      modifies this
      ensures Consistent(rows)
      ensures error == None <==> HasId(Live(old(rows)), id)
      ensures rows == if error == None then Removed(old(rows), id) else old(rows)
    {
      if !HasId(Live(rows), id) {
        return Some(NotFound);
      }
      RemovedConsistent(rows, id);
      rows := Removed(rows, id);
      return None;
    }
  }
}
