/**
 * The collection tree of the local store: every row names at most one parent, and the rows
 * form a forest. The n-th ancestor function is the only notion of reachability used.
 */
module Forest {
  import opened Base

  type Id = Bytes

  datatype Collection = Collection(project: Id, mod: Id, name: string, parent: Option<Id>)

  type Collections = map<Id, Collection>

  /** The n-th ancestor of `x`; `None` once the walk has passed a root. */
  function Up(cs: Collections, x: Id, n: nat): Option<Id>
    decreases n
  {
    if n == 0 then Some(x)
    else if x in cs && cs[x].parent.Some? then Up(cs, cs[x].parent.value, n - 1)
    else None
  }

  /** `x` is `r` or a descendant of `r`. */
  ghost predicate Under(cs: Collections, x: Id, r: Id) {
    exists n: nat :: Up(cs, x, n) == Some(r)
  }

  ghost predicate ReachesRoot(cs: Collections, x: Id) {
    exists n: nat :: Up(cs, x, n) == None
  }

  /** Parents exist and every upward walk ends. */
  ghost predicate IsForest(cs: Collections) {
    && (forall x :: x in cs && cs[x].parent.Some? ==> cs[x].parent.value in cs)
    && (forall x :: x in cs ==> ReachesRoot(cs, x))
  }

  lemma {:induction false} UpCompose(cs: Collections, x: Id, n: nat, m: nat)
    requires Up(cs, x, n).Some?
    ensures Up(cs, x, n + m) == Up(cs, Up(cs, x, n).value, m)
    decreases n
  {
    if n > 0 {
      UpCompose(cs, cs[x].parent.value, n - 1, m);
    }
  }

  lemma {:induction false} UpStaysNone(cs: Collections, x: Id, n: nat, m: nat)
    requires Up(cs, x, n) == None && n <= m
    ensures Up(cs, x, m) == None
    decreases n
  {
    if x in cs && cs[x].parent.Some? {
      UpStaysNone(cs, cs[x].parent.value, n - 1, m - 1);
    }
  }

  lemma {:induction false} UpStaysInside(cs: Collections, x: Id, n: nat)
    requires IsForest(cs) && x in cs && Up(cs, x, n).Some?
    ensures Up(cs, x, n).value in cs
    decreases n
  {
    if n > 0 {
      UpStaysInside(cs, cs[x].parent.value, n - 1);
    }
  }

  /** The number of steps after which the walk from `x` has passed its root. */
  function Depth(cs: Collections, x: Id, bound: nat): (d: nat)
    requires Up(cs, x, bound) == None
    ensures 0 < d <= bound
    decreases bound
  {
    if x in cs && cs[x].parent.Some? then 1 + Depth(cs, cs[x].parent.value, bound - 1) else 1
  }

  lemma {:induction false} DepthOfAncestor(cs: Collections, x: Id, bound: nat, n: nat)
    requires Up(cs, x, bound) == None && Up(cs, x, n).Some?
    ensures n < Depth(cs, x, bound)
    ensures Up(cs, Up(cs, x, n).value, bound) == None
    ensures Depth(cs, Up(cs, x, n).value, bound) == Depth(cs, x, bound) - n
    decreases n
  {
    if n > 0 {
      var p := cs[x].parent.value;
      DepthOfAncestor(cs, p, bound - 1, n - 1);
      var a := Up(cs, x, n).value;
      UpStaysNone(cs, a, bound - 1, bound);
      DepthBoundIrrelevant(cs, a, bound - 1, bound);
    }
  }

  lemma {:induction false} DepthBoundIrrelevant(cs: Collections, x: Id, b: nat, b': nat)
    requires Up(cs, x, b) == None && Up(cs, x, b') == None
    ensures Depth(cs, x, b) == Depth(cs, x, b')
    decreases b
  {
    if x in cs && cs[x].parent.Some? {
      DepthBoundIrrelevant(cs, cs[x].parent.value, b - 1, b' - 1);
    }
  }

  /** A forest has no cycle: nothing is its own proper ancestor. */
  lemma NoCycle(cs: Collections, x: Id, n: nat)
    requires ReachesRoot(cs, x) && Up(cs, x, n) == Some(x)
    ensures n == 0
  {
    var bound: nat :| Up(cs, x, bound) == None;
    DepthOfAncestor(cs, x, bound, n);
  }

  // ----- re-parenting -----

  function Reparented(cs: Collections, id: Id, parent: Option<Id>): Collections
    requires id in cs
  {
    cs[id := cs[id].(parent := parent)]
  }

  /** A walk that never meets `id` is unchanged when only `id`'s row changes its parent. */
  lemma {:induction false} UpAvoiding(cs: Collections, id: Id, parent: Option<Id>, x: Id, n: nat)
    requires id in cs
    requires forall k: nat :: k < n ==> Up(cs, x, k) != Some(id)
    ensures Up(Reparented(cs, id, parent), x, n) == Up(cs, x, n)
    decreases n
  {
    if n > 0 && x in cs && cs[x].parent.Some? {
      assert Up(cs, x, 0) == Some(x);
      var p := cs[x].parent.value;
      forall k: nat | k < n - 1 ensures Up(cs, p, k) != Some(id) {
        assert Up(cs, x, k + 1) == Up(cs, p, k);
      }
      UpAvoiding(cs, id, parent, p, n - 1);
    } else if n > 0 {
      assert Up(cs, x, 0) == Some(x);
    }
  }

  /** Re-parenting keeps the forest exactly when the new parent is not below the moved row. */
  lemma ReparentKeepsForest(cs: Collections, id: Id, parent: Option<Id>)
    requires IsForest(cs) && id in cs
    requires parent.Some? ==> parent.value in cs && !Under(cs, parent.value, id)
    ensures IsForest(Reparented(cs, id, parent))
  {
    var cs' := Reparented(cs, id, parent);
    MovedRowReachesRoot(cs, id, parent);
    forall x | x in cs' ensures ReachesRoot(cs', x) {
      var bound: nat :| Up(cs, x, bound) == None;
      if n: nat :| n < bound && Up(cs, x, n) == Some(id) {
        var k := FirstMeeting(cs, x, id, n);
        UpAvoiding(cs, id, parent, x, k);
        var m: nat :| Up(cs', id, m) == None;
        UpCompose(cs', x, k, m);
        assert Up(cs', x, k + m) == None;
      } else {
        UpAvoiding(cs, id, parent, x, bound);
      }
    }
  }

  lemma MovedRowReachesRoot(cs: Collections, id: Id, parent: Option<Id>)
    requires IsForest(cs) && id in cs
    requires parent.Some? ==> parent.value in cs && !Under(cs, parent.value, id)
    ensures ReachesRoot(Reparented(cs, id, parent), id)
  {
    var cs' := Reparented(cs, id, parent);
    if parent.Some? {
      var bound: nat :| Up(cs, parent.value, bound) == None;
      UpAvoiding(cs, id, parent, parent.value, bound);
      assert Up(cs', id, bound + 1) == None;
    } else {
      assert Up(cs', id, 1) == None;
    }
  }

  /** Hanging a row below itself or a descendant would make a cycle, so the guard is exact. */
  lemma ReparentBelowSelfMakesCycle(cs: Collections, id: Id, parent: Id)
    requires IsForest(cs) && id in cs && Under(cs, parent, id)
    ensures !IsForest(Reparented(cs, id, Some(parent)))
  {
    var cs' := Reparented(cs, id, Some(parent));
    var n: nat :| Up(cs, parent, n) == Some(id);
    var k := FirstMeeting(cs, parent, id, n);
    UpAvoiding(cs, id, Some(parent), parent, k);
    assert Up(cs', id, k + 1) == Some(id);
    if IsForest(cs') {
      NoCycle(cs', id, k + 1);
    }
  }

  lemma {:induction false} FirstMeeting(cs: Collections, x: Id, id: Id, n: nat) returns (k: nat)
    requires Up(cs, x, n) == Some(id)
    ensures k <= n && Up(cs, x, k) == Some(id)
    ensures forall j: nat :: j < k ==> Up(cs, x, j) != Some(id)
  {
    if j: nat :| j < n && Up(cs, x, j) == Some(id) {
      k := FirstMeeting(cs, x, id, j);
    } else {
      k := n;
    }
  }

  // ----- subtrees -----

  function Children(cs: Collections, parents: set<Id>): set<Id> {
    set c | c in cs && cs[c].parent.Some? && cs[c].parent.value in parents
  }

  /** What `ON DELETE CASCADE` on `parent_id` removes: close the set under children. */
  function Cascade(cs: Collections, gone: set<Id>): (r: set<Id>)
    ensures gone <= r
    ensures Children(cs, r) <= r
    decreases cs.Keys - gone
  {
    var more := Children(cs, gone) - gone;
    if more == {} then gone
    else
      assert cs.Keys - (gone + more) < cs.Keys - gone by {
        var m :| m in more;
        assert m in cs.Keys - gone && m !in cs.Keys - (gone + more);
      }
      Cascade(cs, gone + more)
  }

  lemma {:induction false} CascadeOnlyDescendants(cs: Collections, gone: set<Id>, x: Id)
    requires x in Cascade(cs, gone)
    ensures exists g :: g in gone && Under(cs, x, g)
    decreases cs.Keys - gone
  {
    if x in gone {
      assert Up(cs, x, 0) == Some(x);
    } else {
      var more := Children(cs, gone) - gone;
      var m :| m in more;
      assert m in cs.Keys - gone && m !in cs.Keys - (gone + more);
      CascadeOnlyDescendants(cs, gone + more, x);
      var h :| h in gone + more && Under(cs, x, h);
      if h !in gone {
        var n: nat :| Up(cs, x, n) == Some(h);
        UpCompose(cs, x, n, 1);
        assert Up(cs, h, 1) == Up(cs, cs[h].parent.value, 0);
        assert Up(cs, x, n + 1) == Some(cs[h].parent.value);
      }
    }
  }

  lemma {:induction false} ClosedHoldsDescendants(cs: Collections, closed: set<Id>, x: Id, n: nat)
    requires Children(cs, closed) <= closed
    requires Up(cs, x, n).Some? && Up(cs, x, n).value in closed
    ensures x in closed
    decreases n
  {
    if n > 0 {
      ClosedHoldsDescendants(cs, closed, cs[x].parent.value, n - 1);
    }
  }

  /** The cascade of one row is exactly that row and its descendants. */
  lemma CascadeIsSubtree(cs: Collections, r: Id, x: Id)
    ensures x in Cascade(cs, {r}) <==> Under(cs, x, r)
  {
    if x in Cascade(cs, {r}) {
      CascadeOnlyDescendants(cs, {r}, x);
    }
    if Under(cs, x, r) {
      var n: nat :| Up(cs, x, n) == Some(r);
      ClosedHoldsDescendants(cs, Cascade(cs, {r}), x, n);
    }
  }

  /** Removing a set closed under children leaves a forest. */
  lemma PruneKeepsForest(cs: Collections, gone: set<Id>)
    requires IsForest(cs) && Children(cs, gone) <= gone
    ensures IsForest(cs - gone)
  {
    var cs' := cs - gone;
    forall x | x in cs' ensures ReachesRoot(cs', x) {
      var n: nat :| Up(cs, x, n) == None;
      PrunedWalk(cs, gone, x, n);
    }
  }

  lemma {:induction false} PrunedWalk(cs: Collections, gone: set<Id>, x: Id, n: nat)
    requires IsForest(cs) && Children(cs, gone) <= gone && x in cs && x !in gone
    ensures Up(cs - gone, x, n) == Up(cs, x, n)
    decreases n
  {
    if n > 0 && cs[x].parent.Some? {
      PrunedWalk(cs, gone, cs[x].parent.value, n - 1);
    }
  }

  /** Adding a leaf under an existing row, or as a root, leaves a forest. */
  lemma GraftKeepsForest(cs: Collections, id: Id, row: Collection)
    requires IsForest(cs) && id !in cs
    requires row.parent.Some? ==> row.parent.value in cs
    ensures IsForest(cs[id := row])
  {
    var cs' := cs[id := row];
    forall x | x in cs' ensures ReachesRoot(cs', x) {
      if x != id {
        var n: nat :| Up(cs, x, n) == None;
        GraftedWalk(cs, id, row, x, n);
      } else if row.parent.Some? {
        var n: nat :| Up(cs, row.parent.value, n) == None;
        GraftedWalk(cs, id, row, row.parent.value, n);
        assert Up(cs', id, n + 1) == None;
      } else {
        assert Up(cs', id, 1) == None;
      }
    }
  }

  lemma {:induction false} GraftedWalk(cs: Collections, id: Id, row: Collection, x: Id, n: nat)
    requires IsForest(cs) && id !in cs && x in cs
    ensures Up(cs[id := row], x, n) == Up(cs, x, n)
    decreases n
  {
    if n > 0 && cs[x].parent.Some? {
      GraftedWalk(cs, id, row, cs[x].parent.value, n - 1);
    }
  }

  /** Walks depend on the parent column only. */
  lemma {:induction false} WalkDependsOnParents(cs: Collections, cs': Collections, x: Id, n: nat)
    requires cs.Keys == cs'.Keys
    requires forall c :: c in cs ==> cs[c].parent == cs'[c].parent
    ensures Up(cs, x, n) == Up(cs', x, n)
    decreases n
  {
    if n > 0 && x in cs && cs[x].parent.Some? {
      WalkDependsOnParents(cs, cs', cs[x].parent.value, n - 1);
    }
  }

  lemma ForestDependsOnParents(cs: Collections, cs': Collections)
    requires cs.Keys == cs'.Keys
    requires forall c :: c in cs ==> cs[c].parent == cs'[c].parent
    requires IsForest(cs)
    ensures IsForest(cs')
  {
    forall x | x in cs' ensures ReachesRoot(cs', x) {
      var n: nat :| Up(cs, x, n) == None;
      WalkDependsOnParents(cs, cs', x, n);
    }
  }
}
