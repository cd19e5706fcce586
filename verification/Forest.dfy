/**
 The category forest: a flat table of parent pointers turned into a tree by pushing
 nodes into their parents' lists, and the operations that change the table.
 */
module Forest {
  import opened Text

  /** A category; a soft-deleted row stays in the table. */
  datatype Row = Row(id: string, slug: string, parent: Option<string>, deleted: bool)

  ghost predicate DistinctIds(rows: seq<Row>) {
    forall i, j :: 0 <= i < j < |rows| ==> rows[i].id != rows[j].id
  }

  predicate HasId(rows: seq<Row>, id: string) {
    exists i :: 0 <= i < |rows| && rows[i].id == id
  }

  /** The parent pointer when it leads to a listed row. */
  function ParentOf(rows: seq<Row>, r: Row): Option<string> {
    if r.parent.Some? && HasId(rows, r.parent.value) then r.parent else None
  }

  /** Ids of the rows, among the first n, that land in the list of the given parent; None is the list of roots. */
  function Filed(rows: seq<Row>, n: nat, parent: Option<string>): seq<string>
    requires n <= |rows|
  {
    if n == 0 then []
    else Filed(rows, n - 1, parent) + if ParentOf(rows, rows[n - 1]) == parent then [rows[n - 1].id] else []
  }

  function RootIds(rows: seq<Row>): seq<string> {
    Filed(rows, |rows|, None)
  }

  function ChildIds(rows: seq<Row>, id: string): seq<string> {
    Filed(rows, |rows|, Some(id))
  }

  // ----- Building the tree in place --------------------------------------------------

  class CategoryNode {
    const id: string
    var children: seq<CategoryNode>

    constructor (id: string)
      ensures this.id == id && children == []
    {
      this.id := id;
      children := [];
    }
  }

  /** The nodes are the ones the map holds under their ids. */
  predicate Linked(byId: map<string, CategoryNode>, nodes: seq<CategoryNode>) {
    forall k :: 0 <= k < |nodes| ==> nodes[k].id in byId && nodes[k] == byId[nodes[k].id]
  }

  function Ids(nodes: seq<CategoryNode>): seq<string> {
    seq(|nodes|, i requires 0 <= i < |nodes| => nodes[i].id)
  }

  /** One fresh childless node for each row. */
  method MakeNodes(rows: seq<Row>) returns (byId: map<string, CategoryNode>)
    requires DistinctIds(rows)
    ensures forall id :: id in byId <==> HasId(rows, id)
    ensures forall id :: id in byId ==> fresh(byId[id]) && byId[id].id == id && byId[id].children == []
  {
    byId := map[];
    for n := 0 to |rows|
      invariant forall id :: id in byId <==> HasId(rows[..n], id)
      invariant forall id :: id in byId ==> fresh(byId[id]) && byId[id].id == id && byId[id].children == []
    {
      var node := new CategoryNode(rows[n].id);
      byId := byId[rows[n].id := node];
      forall id ensures HasId(rows[..n + 1], id) <==> HasId(rows[..n], id) || id == rows[n].id {
        if HasId(rows[..n], id) {
          var i :| 0 <= i < n && rows[..n][i].id == id;
          assert rows[..n + 1][i].id == id;
        }
        assert rows[..n + 1][n].id == rows[n].id;
      }
    }
    assert rows[..|rows|] == rows;
  }

  /** The lists as they are after the first n rows were filed. */
  ghost predicate Filled(rows: seq<Row>, n: nat, byId: map<string, CategoryNode>)
    requires n <= |rows|
    reads set id | id in byId :: byId[id]
  {
    forall id :: id in byId ==>
      && byId[id].id == id
      && Ids(byId[id].children) == Filed(rows, n, Some(id))
      && Linked(byId, byId[id].children)
  }

  lemma {:induction false} ParentListed(rows: seq<Row>, r: Row, ids: set<string>)
    requires forall id :: id in ids <==> HasId(rows, id)
    ensures ParentOf(rows, r) == if r.parent.Some? && r.parent.value in ids then r.parent else None
  {
  }

  /** Push row n's node into the list it belongs to. */
  method File(rows: seq<Row>, n: nat, byId: map<string, CategoryNode>, roots: seq<CategoryNode>)
    returns (roots': seq<CategoryNode>)
    requires n < |rows| && (forall id :: id in byId <==> HasId(rows, id)) && rows[n].id in byId
    requires Filled(rows, n, byId) && Ids(roots) == Filed(rows, n, None) && Linked(byId, roots)
    modifies set id | id in byId :: byId[id]
    ensures Filled(rows, n + 1, byId) && Ids(roots') == Filed(rows, n + 1, None) && Linked(byId, roots')
  {
    hide Filed, ParentOf, HasId;
    var node, parentId := byId[rows[n].id], rows[n].parent;
    roots' := roots;
    FiledSteps(rows, n);
    ParentListed(rows, rows[n], byId.Keys);
    if parentId.Some? && parentId.value in byId {
      var parent := byId[parentId.value];
      parent.children := parent.children + [node];
      assert Ids(parent.children) == old(Ids(parent.children)) + [node.id];
      assert forall id :: id in byId && id != parentId.value ==> byId[id].children == old(byId[id].children);
    } else {
      roots' := roots + [node];
      assert Ids(roots') == Ids(roots) + [node.id];
    }
  }

  /** Every node's list holds exactly its children, and the roots are the rows without a listed parent. */
  method Tree(rows: seq<Row>) returns (roots: seq<CategoryNode>, byId: map<string, CategoryNode>)
    requires DistinctIds(rows)
    ensures forall id :: id in byId <==> HasId(rows, id)
    ensures forall id :: id in byId ==> fresh(byId[id])
    ensures Filled(rows, |rows|, byId)
    ensures Ids(roots) == RootIds(rows) && Linked(byId, roots)
  {
    hide Filed, ParentOf;
    byId := MakeNodes(rows);
    roots := [];
    NothingFiled(rows);
    for n := 0 to |rows|
      invariant forall id :: id in byId ==> fresh(byId[id])
      invariant Filled(rows, n, byId) && Ids(roots) == Filed(rows, n, None) && Linked(byId, roots)
    {
      assert HasId(rows, rows[n].id);
      roots := File(rows, n, byId, roots);
    }
  }

  lemma {:induction false} NothingFiled(rows: seq<Row>)
    ensures forall parent :: Filed(rows, 0, parent) == []
  {
  }

  lemma {:induction false} FiledSteps(rows: seq<Row>, n: nat)
    requires n < |rows|
    ensures forall parent ::
              Filed(rows, n + 1, parent)
              == Filed(rows, n, parent) + if ParentOf(rows, rows[n]) == parent then [rows[n].id] else []
  {
  }

  // ----- Ancestor chains -----------------------------------------------------------------

  function RowIndex(rows: seq<Row>, id: string): (i: nat)
    ensures i <= |rows|
    ensures i < |rows| ==> rows[i].id == id
    ensures forall k :: 0 <= k < i ==> rows[k].id != id
  {
    if rows == [] || rows[0].id == id then 0 else 1 + RowIndex(rows[1..], id)
  }

  /** The listed parent of an id. */
  function Up(rows: seq<Row>, id: string): Option<string> {
    var i := RowIndex(rows, id);
    if i < |rows| then ParentOf(rows, rows[i]) else None
  }

  /** The k-th ancestor. */
  function Climb(up: string -> Option<string>, id: string, k: nat): Option<string>
    decreases k
  {
    if k == 0 then Some(id)
    else match up(id)
      case None => None
      case Some(p) => Climb(up, p, k - 1)
  }

  function UpOf(rows: seq<Row>): string -> Option<string> {
    id => Up(rows, id)
  }

  /** The ancestor chain ends at a root. */
  ghost predicate Rooted(up: string -> Option<string>, id: string) {
    exists k: nat :: Climb(up, id, k) == None
  }

  /** The ancestor chain comes back to where it has been. */
  ghost predicate RunsIntoCycle(up: string -> Option<string>, id: string) {
    exists i: nat, j: nat :: i < j && Climb(up, id, i) == Climb(up, id, j) && Climb(up, id, i).Some?
  }

  lemma {:induction false} ClimbAdd(up: string -> Option<string>, id: string, a: nat, b: nat)
    ensures Climb(up, id, a + b)
         == if Climb(up, id, a).Some? then Climb(up, Climb(up, id, a).value, b) else None
    decreases a
  {
    if a > 0 && up(id).Some? {
      ClimbAdd(up, up(id).value, a - 1, b);
    }
  }

  lemma {:induction false} CycleClimbs(up: string -> Option<string>, id: string, p: nat, n: nat)
    requires p > 0 && Climb(up, id, p) == Some(id)
    ensures Climb(up, id, n).Some?
    decreases n
  {
    if n < p {
      ClimbAdd(up, id, n, p - n);
    } else {
      ClimbAdd(up, id, p, n - p);
      CycleClimbs(up, id, p, n - p);
    }
  }

  /** A chain with a repetition never ends. */
  lemma {:induction false} RepeatNeverEnds(up: string -> Option<string>, id: string, i: nat, j: nat, n: nat)
    requires i < j && Climb(up, id, i) == Climb(up, id, j) && Climb(up, id, i).Some?
    ensures Climb(up, id, n).Some?
  {
    var y := Climb(up, id, i).value;
    ClimbAdd(up, id, i, j - i);
    if n < i {
      ClimbAdd(up, id, n, i - n);
    } else {
      ClimbAdd(up, id, i, n - i);
      CycleClimbs(up, y, j - i, n - i);
    }
  }

  /** The first n + 1 elements of a chain. */
  function Chain(up: string -> Option<string>, id: string, n: nat): set<Option<string>> {
    set k | 0 <= k <= n :: Climb(up, id, k)
  }

  lemma {:induction false} ChainSize(up: string -> Option<string>, id: string, n: nat)
    requires forall i: nat, j: nat :: i < j <= n ==> Climb(up, id, i) != Climb(up, id, j)
    ensures |Chain(up, id, n)| == n + 1
  {
    if n == 0 {
      assert Chain(up, id, 0) == {Climb(up, id, 0)};
    } else {
      ChainSize(up, id, n - 1);
      assert Chain(up, id, n) == Chain(up, id, n - 1) + {Climb(up, id, n)};
    }
  }

  function IdSet(rows: seq<Row>): set<Option<string>> {
    set i | 0 <= i < |rows| :: Some(rows[i].id)
  }

  lemma {:induction false} IdSetSize(rows: seq<Row>)
    ensures |IdSet(rows)| <= |rows|
  {
    if rows != [] {
      var n := |rows| - 1;
      IdSetSize(rows[..n]);
      assert IdSet(rows) == IdSet(rows[..n]) + {Some(rows[n].id)};
    }
  }

  lemma {:induction false} ClimbStays(rows: seq<Row>, id: string, k: nat)
    requires HasId(rows, id) && Climb(UpOf(rows), id, k).Some?
    ensures HasId(rows, Climb(UpOf(rows), id, k).value)
    decreases k
  {
    if k > 0 {
      ClimbStays(rows, Up(rows, id).value, k - 1);
    }
  }

  /** By the pigeonhole principle a chain as long as the table repeats itself. */
  lemma {:induction false} LongChainRepeats(rows: seq<Row>, id: string)
    requires HasId(rows, id) && Climb(UpOf(rows), id, |rows|).Some?
    ensures RunsIntoCycle(UpOf(rows), id)
  {
    var up, n := UpOf(rows), |rows|;
    forall k | 0 <= k <= n ensures Climb(up, id, k) in IdSet(rows) {
      ClimbAdd(up, id, k, n - k);
      ClimbStays(rows, id, k);
      var i :| 0 <= i < |rows| && rows[i].id == Climb(up, id, k).value;
    }
    if forall i: nat, j: nat :: i < j <= n ==> Climb(up, id, i) != Climb(up, id, j) {
      ChainSize(up, id, n);
      IdSetSize(rows);
      SubsetSize(Chain(up, id, n), IdSet(rows));
    } else {
      var i: nat, j: nat :| i < j <= n && Climb(up, id, i) == Climb(up, id, j);
      assert Climb(up, id, i) in IdSet(rows);
    }
  }

  /** A chain ends, within as many steps as there are rows, exactly when it does not run into a cycle. */
  lemma {:induction false} RootedIffNoCycle(rows: seq<Row>, id: string)
    requires HasId(rows, id)
    ensures Rooted(UpOf(rows), id) <==> !RunsIntoCycle(UpOf(rows), id)
    ensures Rooted(UpOf(rows), id) <==> Climb(UpOf(rows), id, |rows|) == None
  {
    var up := UpOf(rows);
    if RunsIntoCycle(up, id) {
      var i: nat, j: nat :| i < j && Climb(up, id, i) == Climb(up, id, j) && Climb(up, id, i).Some?;
      forall k: nat ensures Climb(up, id, k).Some? { RepeatNeverEnds(up, id, i, j, k); }
    } else if Climb(up, id, |rows|).Some? {
      LongChainRepeats(rows, id);
    }
  }

  // ----- What the tree shows ---------------------------------------------------------------

  /** The subtree below an id in preorder, down to the given depth. */
  function Preorder(rows: seq<Row>, id: string, depth: nat): seq<string>
    decreases depth, 0
  {
    if depth == 0 then [] else [id] + PreorderAll(rows, ChildIds(rows, id), depth - 1)
  }

  function PreorderAll(rows: seq<Row>, ids: seq<string>, depth: nat): seq<string>
    decreases depth, 1 + |ids|
  {
    if ids == [] then [] else Preorder(rows, ids[0], depth) + PreorderAll(rows, ids[1..], depth)
  }

  /** Everything reachable from the roots. No branch is deeper than the number of rows. */
  function Flattened(rows: seq<Row>): seq<string> {
    PreorderAll(rows, RootIds(rows), |rows|)
  }

  /** The chain of x passes through id within fewer than n steps. */
  ghost predicate Passes(up: string -> Option<string>, x: string, id: string, n: nat) {
    exists k: nat :: k < n && Climb(up, x, k) == Some(id)
  }

  ghost predicate PassesAny(up: string -> Option<string>, x: string, ids: seq<string>, n: nat) {
    exists i :: 0 <= i < |ids| && Passes(up, x, ids[i], n)
  }

  /** At most one of the ids is on the chain of x. */
  ghost predicate OneOnChain(up: string -> Option<string>, x: string, ids: seq<string>, n: nat) {
    forall i, j :: 0 <= i < j < |ids| && Passes(up, x, ids[i], n) ==> !Passes(up, x, ids[j], n)
  }

  function Times(s: seq<string>, x: string): nat {
    multiset(s)[x]
  }

  lemma {:induction false} FiledShape(rows: seq<Row>, n: nat, parent: Option<string>)
    requires n <= |rows| && DistinctIds(rows)
    ensures forall id :: id in Filed(rows, n, parent) <==>
              exists i :: 0 <= i < n && rows[i].id == id && ParentOf(rows, rows[i]) == parent
    ensures forall i, j :: 0 <= i < j < |Filed(rows, n, parent)| ==>
              Filed(rows, n, parent)[i] != Filed(rows, n, parent)[j]
  {
    if n > 0 {
      FiledShape(rows, n - 1, parent);
      var before := Filed(rows, n - 1, parent);
      assert forall i :: 0 <= i < |before| ==> before[i] in before;
    }
  }

  /** An id is filed under its listed parent, and only there. */
  lemma {:induction false} FiledUnderUp(rows: seq<Row>, id: string, parent: Option<string>)
    requires DistinctIds(rows)
    ensures id in Filed(rows, |rows|, parent) <==> HasId(rows, id) && Up(rows, id) == parent
  {
    FiledShape(rows, |rows|, parent);
    var k := RowIndex(rows, id);
    if HasId(rows, id) {
      assert k < |rows|;
      assert forall i :: 0 <= i < |rows| && rows[i].id == id ==> i == k;
    }
  }

  lemma {:induction false} PassesAnyCons(up: string -> Option<string>, x: string, ids: seq<string>, n: nat)
    requires ids != [] && OneOnChain(up, x, ids, n)
    ensures OneOnChain(up, x, ids[1..], n)
    ensures PassesAny(up, x, ids, n) <==> Passes(up, x, ids[0], n) || PassesAny(up, x, ids[1..], n)
    ensures Passes(up, x, ids[0], n) ==> !PassesAny(up, x, ids[1..], n)
  {
    hide Passes;
    assert forall i :: 0 <= i < |ids| - 1 ==> ids[1..][i] == ids[i + 1];
    if PassesAny(up, x, ids, n) {
      var i :| 0 <= i < |ids| && Passes(up, x, ids[i], n);
      assert i > 0 ==> Passes(up, x, ids[1..][i - 1], n);
    }
  }

  lemma {:induction false} CountAll(rows: seq<Row>, ids: seq<string>, depth: nat, x: string)
    requires DistinctIds(rows) && OneOnChain(UpOf(rows), x, ids, depth)
    requires forall i :: 0 <= i < |ids| ==> Rooted(UpOf(rows), ids[i])
    ensures Times(PreorderAll(rows, ids, depth), x) == if PassesAny(UpOf(rows), x, ids, depth) then 1 else 0
    decreases depth, 1 + |ids|
  {
    if ids != [] {
      PassesAnyCons(UpOf(rows), x, ids, depth);
      CountOne(rows, ids[0], depth, x);
      CountAll(rows, ids[1..], depth, x);
      hide Preorder, Passes, PassesAny, OneOnChain, Rooted, UpOf;
    }
  }

  lemma {:induction false} PassesNone(up: string -> Option<string>, x: string, id: string)
    ensures !Passes(up, x, id, 0)
  {
  }

  /** Within the subtree of a rooted id, x occurs once if its chain passes through the id and never otherwise. */
  lemma {:induction false} CountOne(rows: seq<Row>, id: string, depth: nat, x: string)
    requires DistinctIds(rows) && Rooted(UpOf(rows), id)
    ensures Times(Preorder(rows, id, depth), x) == if Passes(UpOf(rows), x, id, depth) then 1 else 0
    decreases depth, 0
  {
    hide Passes, PassesAny, OneOnChain, Rooted, ChildIds, DistinctIds, Climb;
    PassesNone(UpOf(rows), x, id);
    if depth > 0 {
      var kids := ChildIds(rows, id);
      forall i | 0 <= i < |kids| ensures Rooted(UpOf(rows), kids[i]) {
        ChildRooted(rows, id, kids[i]);
      }
      OneKidOnChain(rows, id, x, depth - 1);
      CountAll(rows, kids, depth - 1, x);
      KidOnChain(rows, id, x, depth);
    }
  }

  lemma {:induction false} ChildRooted(rows: seq<Row>, id: string, kid: string)
    requires DistinctIds(rows) && kid in ChildIds(rows, id)
    ensures Up(rows, kid) == Some(id)
    ensures Rooted(UpOf(rows), id) ==> Rooted(UpOf(rows), kid)
  {
    FiledUnderUp(rows, kid, Some(id));
    if Rooted(UpOf(rows), id) {
      var k: nat :| Climb(UpOf(rows), id, k) == None;
      assert Climb(UpOf(rows), kid, k + 1) == None;
    }
  }

  lemma {:induction false} NextOnChain(up: string -> Option<string>, x: string, k: nat, kid: string)
    requires Climb(up, x, k) == Some(kid)
    ensures Climb(up, x, k + 1) == up(kid)
  {
    ClimbAdd(up, x, k, 1);
    assert Climb(up, kid, 1) == match up(kid) case None => None case Some(p) => Climb(up, p, 0);
  }

  lemma {:induction false} KidsDistinct(rows: seq<Row>, id: string)
    requires DistinctIds(rows)
    ensures forall i, j :: 0 <= i < j < |ChildIds(rows, id)| ==> ChildIds(rows, id)[i] != ChildIds(rows, id)[j]
  {
    FiledShape(rows, |rows|, Some(id));
  }

  /** Two children of the same rooted id are never both on one chain. */
  lemma {:induction false} OneKidOnChain(rows: seq<Row>, id: string, x: string, n: nat)
    requires DistinctIds(rows) && Rooted(UpOf(rows), id)
    ensures OneOnChain(UpOf(rows), x, ChildIds(rows, id), n)
  {
    hide ChildIds, DistinctIds, Rooted, Filed;
    var up, kids := UpOf(rows), ChildIds(rows, id);
    KidsDistinct(rows, id);
    forall i, j | 0 <= i < j < |kids| && Passes(up, x, kids[i], n) ensures !Passes(up, x, kids[j], n) {
      if Passes(up, x, kids[j], n) {
        var a: nat :| a < n && Climb(up, x, a) == Some(kids[i]);
        var b: nat :| b < n && Climb(up, x, b) == Some(kids[j]);
        ChildRooted(rows, id, kids[i]);
        ChildRooted(rows, id, kids[j]);
        NextOnChain(up, x, a, kids[i]);
        NextOnChain(up, x, b, kids[j]);
        RootedVisitsOnce(up, x, id, a + 1, b + 1);
      }
    }
  }

  lemma {:induction false} RootedVisitsOnce(up: string -> Option<string>, x: string, id: string, a: nat, b: nat)
    requires Rooted(up, id) && Climb(up, x, a) == Some(id) == Climb(up, x, b)
    ensures a == b
  {
    var k: nat :| Climb(up, id, k) == None;
    var lo, hi := if a < b then a else b, if a < b then b else a;
    ClimbAdd(up, x, lo, k);
    if lo < hi {
      RepeatNeverEnds(up, x, lo, hi, lo + k);
    }
  }

  /** Below a rooted id: x is the id itself, or its chain passes through one of the children, not both. */
  lemma {:induction false} KidOnChain(rows: seq<Row>, id: string, x: string, depth: nat)
    requires DistinctIds(rows) && Rooted(UpOf(rows), id) && depth > 0
    ensures Passes(UpOf(rows), x, id, depth) <==> x == id || PassesAny(UpOf(rows), x, ChildIds(rows, id), depth - 1)
    ensures x == id ==> !PassesAny(UpOf(rows), x, ChildIds(rows, id), depth - 1)
  {
    hide ChildIds, DistinctIds, Rooted;
    var up, kids := UpOf(rows), ChildIds(rows, id);
    assert Climb(up, x, 0) == Some(x);
    if PassesAny(up, x, kids, depth - 1) {
      var i :| 0 <= i < |kids| && Passes(up, x, kids[i], depth - 1);
      var k: nat :| k < depth - 1 && Climb(up, x, k) == Some(kids[i]);
      ChildRooted(rows, id, kids[i]);
      NextOnChain(up, x, k, kids[i]);
      if x == id {
        RootedVisitsOnce(up, x, id, 0, k + 1);
      }
    }
    if Passes(up, x, id, depth) && x != id {
      var k: nat :| k < depth && Climb(up, x, k) == Some(id);
      ClimbAdd(up, x, k - 1, 1);
      var kid := Climb(up, x, k - 1).value;
      NextOnChain(up, x, k - 1, kid);
      KidFiled(rows, kid, id);
      var i :| 0 <= i < |kids| && kids[i] == kid;
      assert Passes(up, x, kids[i], depth - 1);
    }
  }

  lemma {:induction false} KidFiled(rows: seq<Row>, kid: string, id: string)
    requires DistinctIds(rows) && Up(rows, kid) == Some(id)
    ensures kid in ChildIds(rows, id)
  {
    FiledUnderUp(rows, kid, Some(id));
  }

  lemma {:induction false} LastOfChain(up: string -> Option<string>, x: string, k: nat) returns (j: nat)
    requires Climb(up, x, k) == None
    ensures j < k && Climb(up, x, j).Some? && up(Climb(up, x, j).value) == None
    decreases k
  {
    if up(x) == None {
      j := 0;
    } else {
      j := LastOfChain(up, up(x).value, k - 1);
      j := j + 1;
    }
  }

  /** A listed id's chain passes through exactly one root, or none when it runs into a cycle. */
  lemma {:induction false} RootOnChain(rows: seq<Row>, x: string, n: nat)
    requires DistinctIds(rows) && n >= |rows|
    ensures OneOnChain(UpOf(rows), x, RootIds(rows), n)
    ensures PassesAny(UpOf(rows), x, RootIds(rows), n) <==> HasId(rows, x) && Rooted(UpOf(rows), x)
    ensures forall i :: 0 <= i < |RootIds(rows)| ==> Rooted(UpOf(rows), RootIds(rows)[i])
  {
    var up, roots := UpOf(rows), RootIds(rows);
    FiledShape(rows, |rows|, None);
    forall i | 0 <= i < |roots| ensures up(roots[i]) == None && HasId(rows, roots[i]) && Rooted(up, roots[i]) {
      assert roots[i] in roots;
      FiledUnderUp(rows, roots[i], None);
      assert Climb(up, roots[i], 1) == None;
    }
    forall i, j | 0 <= i < j < |roots| && Passes(up, x, roots[i], n) ensures !Passes(up, x, roots[j], n) {
      if Passes(up, x, roots[j], n) {
        RootsAgree(up, x, roots[i], roots[j], n);
      }
    }
    if PassesAny(up, x, roots, n) {
      var i :| 0 <= i < |roots| && Passes(up, x, roots[i], n);
      var k: nat :| k < n && Climb(up, x, k) == Some(roots[i]);
      NextOnChain(up, x, k, roots[i]);
      ListedBelow(rows, x, k);
    }
    if HasId(rows, x) && Rooted(up, x) {
      RootedIffNoCycle(rows, x);
      var j := LastOfChain(up, x, |rows|);
      ClimbStays(rows, x, j);
      var root := Climb(up, x, j).value;
      FiledUnderUp(rows, root, None);
      var i :| 0 <= i < |roots| && roots[i] == root;
      assert Passes(up, x, roots[i], n);
    }
  }

  lemma {:induction false} RootsAgree(up: string -> Option<string>, x: string, r: string, s: string, n: nat)
    requires Passes(up, x, r, n) && Passes(up, x, s, n) && up(r) == None == up(s)
    ensures r == s
  {
    var a: nat :| a < n && Climb(up, x, a) == Some(r);
    var b: nat :| b < n && Climb(up, x, b) == Some(s);
    NextOnChain(up, x, a, r);
    NextOnChain(up, x, b, s);
    if a < b {
      ClimbAdd(up, x, a + 1, b - a - 1);
    } else if b < a {
      ClimbAdd(up, x, b + 1, a - b - 1);
    }
  }

  /** Something that climbs to a listed row is listed itself. */
  lemma {:induction false} ListedBelow(rows: seq<Row>, x: string, k: nat)
    requires Climb(UpOf(rows), x, k).Some? && HasId(rows, Climb(UpOf(rows), x, k).value)
    ensures HasId(rows, x)
  {
    if k > 0 {
      assert Up(rows, x).Some?;
      assert rows[RowIndex(rows, x)].id == x;
    }
  }

  /**
   Each row is in exactly one list; the tree shows a row once if its ancestor chain
   ends and not at all if it runs into a cycle.
   */
  lemma {:induction false} TreeShows(rows: seq<Row>, x: string)
    requires DistinctIds(rows)
    ensures forall parent :: x in Filed(rows, |rows|, parent) <==> HasId(rows, x) && Up(rows, x) == parent
    ensures Times(Flattened(rows), x) == if HasId(rows, x) && !RunsIntoCycle(UpOf(rows), x) then 1 else 0
  {
    forall parent ensures x in Filed(rows, |rows|, parent) <==> HasId(rows, x) && Up(rows, x) == parent {
      FiledUnderUp(rows, x, parent);
    }
    RootOnChain(rows, x, |rows|);
    CountAll(rows, RootIds(rows), |rows|, x);
    if HasId(rows, x) { RootedIffNoCycle(rows, x); }
  }

  /** Looking deeper than the number of rows shows nothing more. */
  lemma {:induction false} DepthEnough(rows: seq<Row>, depth: nat)
    requires DistinctIds(rows) && depth >= |rows|
    ensures multiset(PreorderAll(rows, RootIds(rows), depth)) == multiset(Flattened(rows))
  {
    forall x ensures multiset(PreorderAll(rows, RootIds(rows), depth))[x] == multiset(Flattened(rows))[x] {
      RootOnChain(rows, x, depth);
      RootOnChain(rows, x, |rows|);
      CountAll(rows, RootIds(rows), depth, x);
      CountAll(rows, RootIds(rows), |rows|, x);
      assert Times(PreorderAll(rows, RootIds(rows), depth), x) == Times(Flattened(rows), x);
    }
  }

  /** No row is its own ancestor. */
  ghost predicate Acyclic(rows: seq<Row>) {
    forall id, k: nat :: HasId(rows, id) && k > 0 ==> Climb(UpOf(rows), id, k) != Some(id)
  }

  lemma {:induction false} AcyclicIffRooted(rows: seq<Row>)
    ensures Acyclic(rows) <==> forall id :: HasId(rows, id) ==> Rooted(UpOf(rows), id)
  {
    var up := UpOf(rows);
    if Acyclic(rows) {
      forall id | HasId(rows, id) ensures Rooted(up, id) {
        RootedIffNoCycle(rows, id);
        if RunsIntoCycle(up, id) {
          var i: nat, j: nat :| i < j && Climb(up, id, i) == Climb(up, id, j) && Climb(up, id, i).Some?;
          ClimbAdd(up, id, i, j - i);
          ClimbStays(rows, id, i);
        }
      }
    } else {
      var id, k: nat :| HasId(rows, id) && k > 0 && Climb(up, id, k) == Some(id);
      forall n: nat ensures Climb(up, id, n).Some? { CycleClimbs(up, id, k, n); }
    }
  }

  function AllIds(rows: seq<Row>): seq<string> {
    seq(|rows|, i requires 0 <= i < |rows| => rows[i].id)
  }

  lemma {:induction false} EachIdOnce(rows: seq<Row>, x: string)
    requires DistinctIds(rows)
    ensures Times(AllIds(rows), x) == if HasId(rows, x) then 1 else 0
  {
    if rows != [] {
      var n := |rows| - 1;
      EachIdOnce(rows[..n], x);
      assert AllIds(rows) == AllIds(rows[..n]) + [rows[n].id];
      assert forall i :: 0 <= i < n ==> rows[..n][i] == rows[i];
      if HasId(rows, x) && rows[n].id != x {
        var i :| 0 <= i < |rows| && rows[i].id == x;
        assert rows[..n][i].id == x;
      }
    }
  }

  /** The tree shows every category exactly once if and only if the parent pointers are acyclic. */
  lemma {:induction false} CompleteIffAcyclic(rows: seq<Row>)
    requires DistinctIds(rows)
    ensures multiset(Flattened(rows)) == multiset(AllIds(rows)) <==> Acyclic(rows)
  {
    AcyclicIffRooted(rows);
    forall x
      ensures Times(Flattened(rows), x) == if HasId(rows, x) && Rooted(UpOf(rows), x) then 1 else 0
      ensures Times(AllIds(rows), x) == if HasId(rows, x) then 1 else 0
    {
      TreeShows(rows, x);
      EachIdOnce(rows, x);
      if HasId(rows, x) { RootedIffNoCycle(rows, x); }
    }
    if multiset(Flattened(rows)) == multiset(AllIds(rows)) {
      forall x | HasId(rows, x) ensures Rooted(UpOf(rows), x) {
        assert Times(Flattened(rows), x) == Times(AllIds(rows), x);
      }
    }
    if Acyclic(rows) {
      forall x ensures multiset(Flattened(rows))[x] == multiset(AllIds(rows))[x] {
        assert Times(Flattened(rows), x) == Times(AllIds(rows), x);
      }
      assert multiset(Flattened(rows)) == multiset(AllIds(rows));
    }
  }
}
