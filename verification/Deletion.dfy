/**
 What deleting a message does to a well-formed history.
 */
module Deletion {
  import opened Prelude
  import opened Forest
  import opened Splice
  import opened History

  // ---------------------------------------------------------------- the structure

  lemma {:induction false} ChildrenAreChildSet(m: Messages, id: Id)
    requires IsForest(m) && id in m
    ensures Elements(ChildrenOf(m, id)) == ChildSet(Parents(m), id)
    ensures NoDup(ChildrenOf(m, id))
  {
    FilteredNoDup(m[id].childrenIds, m.Keys);
    forall c ensures c in ChildrenOf(m, id) <==> c in ChildSet(Parents(m), id) {
      assert Lists(m, id, c) <==> Names(m, c, id);
    }
  }

  /** The grandchildren list holds exactly the messages whose parent is in `cs`, once each. */
  lemma {:induction false} GrandchildrenAreExact(m: Messages, cs: seq<Id>)
    requires IsForest(m) && NoDup(cs) && forall c :: c in cs ==> c in m
    ensures forall g :: g in Grandchildren(m, cs) <==> g in m && m[g].parentId.Some? && m[g].parentId.value in cs
    ensures NoDup(Grandchildren(m, cs))
  {
    if cs != [] {
      var c, front := cs[|cs| - 1], cs[..|cs| - 1];
      GrandchildrenAreExact(m, front);
      var own := Keep(m[c].childrenIds, m.Keys);
      assert forall g :: g in own <==> Names(m, g, c) by {
        assert forall g :: Lists(m, c, g) <==> Names(m, g, c);
      }
      assert c !in front;
      FilteredNoDup(m[c].childrenIds, m.Keys);
      NoDupConcat(Grandchildren(m, front), own);
    }
  }

  lemma {:induction false} SurvivorLinks(m: Messages, id: Id)
    requires IsForest(m) && id in m
    ensures IsSplice(Parents(m), id, Parents(Survivors(m, id)))
  {
    ChildrenAreChildSet(m, id);
    GrandchildrenAreExact(m, ChildrenOf(m, id));
    assert forall c :: c in ChildrenOf(m, id) <==> c in Elements(ChildrenOf(m, id));
  }

  /** What the child and grandchild lists of `id` hold, in terms of `parentId` only. */
  lemma {:induction false} Families(m: Messages, id: Id)
    requires IsForest(m) && id in m
    ensures
      var cs := ChildrenOf(m, id);
      var grand := Grandchildren(m, cs);
      && (forall x :: x in cs <==> Names(m, x, id))
      && (forall x :: x in grand <==> x in m && m[x].parentId.Some? && m[x].parentId.value in cs)
      && NoDup(grand) && id !in cs
  {
    var g := Parents(m);
    var cs := ChildrenOf(m, id);
    ChildrenAreChildSet(m, id);
    GrandchildrenAreExact(m, cs);
    assert forall x :: x in cs <==> x in Elements(cs);
    assert g[id] == Some(id) ==> Up(g, id, 1) == Up(g, id, 0);
    assert g[id] == Some(id) ==> Ancestor(g, id, id);
  }

  /** Who names whom among the survivors, in terms of the old `parentId` only. */
  lemma {:induction false} SurvivorNames(m: Messages, id: Id, p: Id, c: Id)
    requires IsForest(m) && id in m && p in Survivors(m, id)
    ensures Names(Survivors(m, id), c, p) <==>
      (Names(m, c, p) && c != id) || (m[id].parentId == Some(p) && c in Grandchildren(m, ChildrenOf(m, id)))
  {
    Families(m, id);
    var cs := ChildrenOf(m, id);
    assert c in Survivors(m, id) <==> c in m && c != id && c !in cs;
    assert p != id && p !in cs;
  }

  lemma {:induction false} SurvivorLists(m: Messages, id: Id, p: Id, c: Id)
    requires IsForest(m) && id in m && p in Survivors(m, id)
    ensures Lists(Survivors(m, id), p, c) <==>
      (Names(m, c, p) && c != id) || (m[id].parentId == Some(p) && c in Grandchildren(m, ChildrenOf(m, id)))
  {
    assert Lists(m, p, c) <==> Names(m, c, p);
    assert Names(m, id, p) <==> m[id].parentId == Some(p);
  }

  lemma {:induction false} SurvivorNoDup(m: Messages, id: Id, p: Id)
    requires IsForest(m) && id in m && p in Survivors(m, id)
    ensures NoDup(Survivors(m, id)[p].childrenIds)
  {
    Families(m, id);
    if m[id].parentId == Some(p) {
      var own, grand := Drop(m[p].childrenIds, {id}), Grandchildren(m, ChildrenOf(m, id));
      forall c | c in own ensures c !in grand {
        assert Lists(m, p, c) <==> Names(m, c, p);
      }
      FilteredNoDup(m[p].childrenIds, {id});
      NoDupConcat(own, grand);
    }
  }

  /** Deleting a message from a forest removes exactly that message and its
      children and leaves a forest. */
  lemma {:induction false} DeleteKeepsForest(m: Messages, id: Id)
    requires IsForest(m) && id in m
    ensures IsForest(Survivors(m, id))
    ensures Survivors(m, id).Keys == m.Keys - ({id} + ChildSet(Parents(m), id))
  {
    ChildrenAreChildSet(m, id);
    SurvivorLinks(m, id);
    SpliceKeepsShape(Parents(m), id, Parents(Survivors(m, id)));
    var s := Survivors(m, id);
    forall p | p in s ensures NoDup(s[p].childrenIds) {
      SurvivorNoDup(m, id, p);
    }
    forall p, c | p in s ensures Lists(s, p, c) <==> Names(s, c, p) {
      SurvivorNames(m, id, p, c);
      SurvivorLists(m, id, p, c);
    }
  }

  /** Deleting a message keeps the ancestor relation between every two survivors. */
  lemma {:induction false} DeleteKeepsAncestors(m: Messages, id: Id, a: Id, d: Id)
    requires IsForest(m) && id in m
    requires a in Survivors(m, id) && d in Survivors(m, id)
    ensures Ancestor(Parents(Survivors(m, id)), a, d) <==> Ancestor(Parents(m), a, d)
  {
    SurvivorLinks(m, id);
    SpliceKeepsAncestors(Parents(m), id, Parents(Survivors(m, id)), a, d);
  }

  // ---------------------------------------------------------------- the cursor

  /** Every step of the descent goes from a message to one that names it as its parent. */
  ghost predicate LeadsDown(m: Messages) {
    forall i {:trigger LastChild(m, i)} :: LastChild(m, i).Some? ==> Names(m, LastChild(m, i).value, i)
  }

  lemma {:induction false} ForestLeadsDown(m: Messages)
    requires IsForest(m)
    ensures LeadsDown(m)
  {
    forall i | LastChild(m, i).Some? ensures Names(m, LastChild(m, i).value, i) {
      assert Lists(m, i, LastChild(m, i).value);
    }
  }

  /** `x` lies `k` levels below `top`. */
  ghost predicate Below(m: Messages, top: Id, x: Id, k: nat) {
    Up(Parents(m), x, k) == Some(top)
  }

  lemma {:induction false} DescentStep(m: Messages, top: Id, k: nat, i: Id)
    requires Acyclic(Parents(m)) && LeadsDown(m) && LastChild(m, i).Some? && Below(m, top, i, k)
    ensures
      var c := LastChild(m, i).value;
      c in m && Below(m, top, c, k + 1) && k < |Parents(m)|
  {
    var c := LastChild(m, i).value;
    assert ParentOf(Parents(m), c) == Some(i);
    AcyclicNeverReturns(Parents(m), c);
    ChainIsShort(Parents(m), c, k + 1);
  }

  /** One step of the descent, then the rest of it. */
  lemma {:induction false} WalkStep(m: Messages, i: Id, n: nat)
    requires LastChild(m, i).Some?
    ensures Walk(m, i, n + 1) == Walk(m, LastChild(m, i).value, n)
  {
  }

  /** The descent follows parent links backwards, so it cannot take more steps
      than there are messages, and where it stops is below where it began. */
  lemma {:induction false} DescentEnds(m: Messages, top: Id, k: nat, i: Id) returns (n: nat)
    requires Acyclic(Parents(m)) && LeadsDown(m) && i in m && Below(m, top, i, k)
    ensures RestsWithin(m, i, n) && Walk(m, i, n) in m && Below(m, top, Walk(m, i, n), k + n)
    decreases |Parents(m)| - k
  {
    if LastChild(m, i).None? {
      n := 0;
    } else {
      var c := LastChild(m, i).value;
      DescentStep(m, top, k, i);
      var rest := DescentEnds(m, top, k + 1, c);
      WalkStep(m, i, rest);
      n := rest + 1;
    }
  }

  /** A stopped descent stays where it is, so the stopping point is unique. */
  lemma {:induction false} RestIsUnique(m: Messages, i: Id, a: nat, b: nat)
    requires RestsWithin(m, i, a) && RestsWithin(m, i, b)
    ensures Walk(m, i, a) == Walk(m, i, b)
    decreases a
  {
    if LastChild(m, i).Some? {
      assert a > 0 && b > 0;
      RestIsUnique(m, LastChild(m, i).value, a - 1, b - 1);
    }
  }

  /** `x` is `top` or lies below it. */
  ghost predicate AtOrBelow(m: Messages, top: Id, x: Id) {
    x == top || Ancestor(Parents(m), top, x)
  }

  /** From any message of a forest the descent terminates, and every place it can
      stop at is a leaf at or below that message. */
  lemma {:induction false} DescentReachesLeaf(m: Messages, i: Id)
    requires IsForest(m) && i in m
    ensures Halts(m, i)
    ensures forall leaf :: StopsAt(m, i, leaf) ==>
      leaf in m && m[leaf].childrenIds == [] && AtOrBelow(m, i, leaf)
  {
    ForestLeadsDown(m);
    var n := DescentEnds(m, i, 0, i);
    forall leaf | StopsAt(m, i, leaf)
      ensures leaf in m && m[leaf].childrenIds == [] && AtOrBelow(m, i, leaf)
    {
      var a: nat :| RestsWithin(m, i, a) && Walk(m, i, a) == leaf;
      RestIsUnique(m, i, a, n);
    }
  }

  /** A non-empty forest has a root: walk up from any message. */
  lemma {:induction false} SomeRoot(m: Messages, i: Id, n: nat) returns (r: Id)
    requires Closed(Parents(m)) && i in m && Up(Parents(m), i, n) == None
    ensures r in m && m[r].parentId == None
    decreases n
  {
    if m[i].parentId.None? {
      r := i;
    } else {
      r := SomeRoot(m, m[i].parentId.value, n - 1);
    }
  }

  lemma {:induction false} ForestHasRoot(order: seq<Id>, m: Messages)
    requires IsForest(m) && forall i :: i in m ==> i in order
    ensures Roots(order, m) == [] ==> m == map[]
  {
    if m != map[] {
      var i :| i in m;
      AcyclicIffGrounded(Parents(m));
      assert Ends(Parents(m), i);
      var n: nat :| Up(Parents(m), i, n) == None;
      var r := SomeRoot(m, i, n);
      assert r in Roots(order, m);
    }
  }

  /** A deletion from a forest always terminates. */
  lemma {:induction false} DeleteTerminates(h: Hist, id: Id)
    requires IsForest(h.messages) && id in h.messages
    ensures DeletionHalts(h, id)
  {
    DeleteKeepsForest(h.messages, id);
    StartIsPresent(h, id);
    if StartAfter(h, id).Some? {
      DescentReachesLeaf(Survivors(h.messages, id), StartAfter(h, id).value);
    }
  }

  lemma {:induction false} StartIsPresent(h: Hist, id: Id)
    requires IsForest(h.messages) && id in h.messages
    ensures StartAfter(h, id).Some? ==> StartAfter(h, id).value in Survivors(h.messages, id)
  {
    var g := Parents(h.messages);
    ChildrenAreChildSet(h.messages, id);
    if g[id].Some? {
      var p := g[id].value;
      assert Up(g, id, 1) == Up(g, p, 0);
      assert Up(g, id, 2) == Up(g, p, 1);
      assert p == id ==> Ancestor(g, id, id);
      assert p in ChildSet(g, id) ==> Ancestor(g, id, id);
    }
  }

  /** After a deletion the cursor is null exactly when nothing is left; otherwise
      it is a leaf at or below the deleted message's parent, or below a root if
      the deleted message had none. */
  lemma {:induction false} DeleteLeavesCursorOnLeaf(h: Hist, id: Id, h': Hist)
    requires h.Valid() && IsForest(h.messages) && id in h.messages && IsDeletion(h, id, h')
    ensures h'.currentId.None? <==> h'.messages == map[]
    ensures h'.currentId.Some? ==>
      && h'.currentId.value in h'.messages
      && h'.messages[h'.currentId.value].childrenIds == []
      && match h.messages[id].parentId
         case Some(p) => p in h'.messages && AtOrBelow(h'.messages, p, h'.currentId.value)
         case None => exists r :: r in h'.messages && h'.messages[r].parentId.None? && AtOrBelow(h'.messages, r, h'.currentId.value)
  {
    var m := h'.messages;
    DeleteKeepsForest(h.messages, id);
    StartIsPresent(h, id);
    ForestHasRoot(h'.order, m);
    var start := DescentStart(h'.order, m, h.messages[id].parentId);
    if start.Some? {
      DescentReachesLeaf(m, start.value);
    }
  }

  lemma {:induction false} DeleteKeepsDict(h: Hist, id: Id, h': Hist)
    requires h.Valid() && id in h.messages && IsDeletion(h, id, h')
    ensures h'.Valid()
  {
    FilteredNoDup(h.order, Dead(h.messages, id));
  }

  // ---------------------------------------------------------------- outside a forest

  /** The step of the descent as links: every message points to the last child it lists. */
  ghost function LastLinks(m: Messages): (g: Links)
    ensures g.Keys <= m.Keys
  {
    map i | i in m && LastChild(m, i).Some? :: LastChild(m, i)
  }

  /** The descent is the walk along these links: it rests within `n` steps when the
      walk has ended one step later. */
  lemma {:induction false} DescentIsWalk(m: Messages, i: Id, n: nat)
    ensures RestsWithin(m, i, n) <==> Up(LastLinks(m), i, n + 1) == None
    decreases n
  {
    var g := LastLinks(m);
    assert ParentOf(g, i) == LastChild(m, i);
    if LastChild(m, i).Some? && n > 0 {
      DescentIsWalk(m, LastChild(m, i).value, n - 1);
    } else if LastChild(m, i).Some? {
      assert Up(g, i, 1) == Up(g, LastChild(m, i).value, 0);
    }
  }

  /** For every history, forest or not: the descent from `i` stops exactly when it
      has stopped after as many steps as there are messages, and exactly when no
      message on its way is met again. */
  lemma {:induction false} DescentHaltsIff(m: Messages, i: Id)
    ensures Halts(m, i) <==> RestsWithin(m, i, |m|)
    ensures Halts(m, i) <==> NeverReturns(LastLinks(m), i)
  {
    var g := LastLinks(m);
    EndsIffNeverReturns(g, i);
    DescentIsWalk(m, i, |m|);
    if Halts(m, i) {
      var n: nat :| RestsWithin(m, i, n);
      DescentIsWalk(m, i, n);
    }
    if Ends(g, i) {
      SubsetCard(g.Keys, m.Keys);
      assert |g.Keys| == |g| && |m.Keys| == |m|;
      UpAdd(g, i, |g| + 1, |m| - |g|);
    }
  }

  /** A deletion from any history terminates exactly when the last-child walk over
      the survivors, from where the descent starts, meets no message twice; following
      it for as many steps as there are survivors decides that. */
  lemma {:induction false} DeletionHaltsIff(h: Hist, id: Id)
    requires id in h.messages
    ensures
      var m, start := Survivors(h.messages, id), StartAfter(h, id);
      && (DeletionHalts(h, id) <==> start.None? || RestsWithin(m, start.value, |m|))
      && (DeletionHalts(h, id) <==> start.None? || NeverReturns(LastLinks(m), start.value))
  {
    if StartAfter(h, id).Some? {
      DescentHaltsIff(Survivors(h.messages, id), StartAfter(h, id).value);
    }
  }

  /** A family that does not terminate: deleting a childless message whose parent
      lists itself last. */
  lemma {:induction false} SelfParentDiverges(h: Hist, id: Id, p: Id)
    requires id in h.messages && p in h.messages && p != id
    requires h.messages[id].parentId == Some(p) && h.messages[id].childrenIds == []
    requires LastChild(h.messages, p) == Some(p)
    ensures !DeletionHalts(h, id)
  {
    var m := h.messages;
    var s := Survivors(m, id);
    assert Grandchildren(m, ChildrenOf(m, id)) == [];
    assert s[p].childrenIds == Drop(m[p].childrenIds, {id});
    assert LastChild(s, p) == Some(p);
    var g := LastLinks(s);
    assert Up(g, p, 1) == Up(g, p, 0);
    assert Ancestor(g, p, p);
    DeletionHaltsIff(h, id);
  }
}
