/**
 Where a deletion puts the grandchildren, and which leaf it leaves the cursor on.
 The laws speak of the child lists before and after, and of the dict order.
 */
module DeletionOrder {
  import opened Prelude
  import opened Forest
  import opened History
  import opened Deletion

  /** `g` is a grandchild of `id`, through its child `c`. */
  ghost predicate Grandchild(m: Messages, id: Id, c: Id, g: Id) {
    Lists(m, id, c) && Lists(m, c, g)
  }

  /** Grandchildren stand in the order of the children they hang from, and those of one
      child in that child's order. */
  ghost predicate GrandBefore(m: Messages, id: Id, c: Id, g: Id, c': Id, g': Id) {
    && Grandchild(m, id, c, g) && Grandchild(m, id, c', g')
    && (Before(m[id].childrenIds, c, c') || (c == c' && Before(m[c].childrenIds, g, g')))
  }

  lemma {:induction false} ListedIsStored(m: Messages, p: Id, c: Id)
    requires IsForest(m) && Lists(m, p, c)
    ensures c in m && m[c].parentId == Some(p)
  {
    assert Lists(m, p, c) <==> Names(m, c, p);
  }

  lemma {:induction false} ChildrenAreTheList(m: Messages, id: Id)
    requires IsForest(m) && id in m
    ensures ChildrenOf(m, id) == m[id].childrenIds
  {
    forall c | c in m[id].childrenIds ensures c in m {
      ListedIsStored(m, id, c);
    }
    KeepAll(m[id].childrenIds, m.Keys);
  }

  lemma {:induction false} KeepAll(s: seq<Id>, keep: set<Id>)
    requires forall x :: x in s ==> x in keep
    ensures Keep(s, keep) == s
    decreases |s|
  {
    if s != [] {
      KeepAll(s[..|s| - 1], keep);
    }
  }

  /** The grandchildren list, in the order of the children and of their lists. */
  lemma {:induction false} GrandchildrenInOrder(m: Messages, cs: seq<Id>, c: Id, g: Id, c': Id, g': Id)
    requires IsForest(m) && NoDup(cs) && (forall x :: x in cs ==> x in m)
    requires c in cs && Lists(m, c, g) && c' in cs && Lists(m, c', g')
    ensures Before(Grandchildren(m, cs), g, g') <==>
      Before(cs, c, c') || (c == c' && Before(m[c].childrenIds, g, g'))
    decreases |cs|
  {
    var front, x := cs[..|cs| - 1], cs[|cs| - 1];
    SplitOffLast(cs);
    var inOne := Before(m[c].childrenIds, g, g');
    if c in front && c' in front {
      GrandchildrenInOrder(m, front, c, g, c', g');
    }
    WhereItHangs(m, front, x, c, g);
    WhereItHangs(m, front, x, c', g');
    LastGroup(m, front, x);
    OneMoreGroup(Grandchildren(m, front), m[x].childrenIds, front, x, c, g, c', g', inOne);
  }

  lemma {:induction false} SplitOffLast(cs: seq<Id>)
    requires cs != [] && NoDup(cs)
    ensures
      var front, x := cs[..|cs| - 1], cs[|cs| - 1];
      cs == front + [x] && NoDup(front) && x !in front && forall y :: y in cs <==> y in front || y == x
  {
  }

  lemma {:induction false} LastGroup(m: Messages, front: seq<Id>, x: Id)
    requires IsForest(m) && x in m
    ensures Grandchildren(m, front + [x]) == Grandchildren(m, front) + m[x].childrenIds
  {
    ChildrenAreTheList(m, x);
    assert (front + [x])[..|front|] == front;
  }

  /** The order in a concatenation of groups, one more group being added. */
  lemma {:induction false} OneMoreGroup(before: seq<Id>, own: seq<Id>, front: seq<Id>, x: Id, c: Id, g: Id, c': Id, g': Id, inOne: bool)
    requires x !in front && (c in front || c == x) && (c' in front || c' == x)
    requires (g in own <==> c == x) && (g in before <==> c in front) && (g' in own <==> c' == x) && (g' in before <==> c' in front)
    requires c in front && c' in front ==> (Before(before, g, g') <==> Before(front, c, c') || (c == c' && inOne))
    requires c == x && c' == x ==> (inOne <==> Before(own, g, g'))
    ensures Before(before + own, g, g') <==> Before(front + [x], c, c') || (c == c' && inOne)
  {
    BeforeConcat(before, own, g, g');
    BeforeSnoc(front, x, c, c');
    BeforeNeedsBoth(front, c, c');
    BeforeNeedsBoth(before, g, g');
    BeforeNeedsBoth(own, g, g');
  }

  /** A child of `c` is in the list of `x` only if `c` is `x`, and among the children of
      the others only if `c` is one of them. */
  lemma {:induction false} WhereItHangs(m: Messages, front: seq<Id>, x: Id, c: Id, g: Id)
    requires IsForest(m) && NoDup(front) && (forall y :: y in front ==> y in m) && x in m && Lists(m, c, g)
    ensures g in m[x].childrenIds <==> c == x
    ensures g in Grandchildren(m, front) <==> c in front
  {
    GrandchildrenAreExact(m, front);
    ListedIsStored(m, c, g);
    if g in m[x].childrenIds {
      ListedIsStored(m, x, g);
    }
  }

  lemma {:induction false} BeforeNeedsBoth<T>(s: seq<T>, a: T, b: T)
    ensures Before(s, a, b) ==> a in s && b in s
  {
  }

  // ---------------------------------------------------------------- the parent's list

  lemma {:induction false} GrandchildIsListed(m: Messages, id: Id, g: Id)
    requires IsForest(m) && id in m
    ensures g in Grandchildren(m, ChildrenOf(m, id)) <==> exists c :: Grandchild(m, id, c, g)
  {
    Families(m, id);
    ChildrenAreTheList(m, id);
    if g in Grandchildren(m, ChildrenOf(m, id)) {
      var c := m[g].parentId.value;
      assert c in ChildrenOf(m, id) && c in m;
      assert Lists(m, c, g) <==> Names(m, g, c);
      assert Grandchild(m, id, c, g);
    }
    if c :| Grandchild(m, id, c, g) {
      ListedIsStored(m, c, g);
    }
  }

  /** What is in the list of the deleted message's parent afterwards, and in what order:
      the other children as they stood, then the grandchildren, those of an earlier
      child first and those of one child as they stood. */
  lemma {:induction false} ParentListOrder(h: Hist, id: Id, h': Hist, p: Id)
    requires IsForest(h.messages) && id in h.messages && h.messages[id].parentId == Some(p) && IsDeletion(h, id, h')
    ensures p in h.messages && p in h'.messages
    ensures
      var m, old_, new_ := h.messages, h.messages[p].childrenIds, h'.messages[p].childrenIds;
      && NoDup(new_)
      && (forall x :: x in new_ <==> (x in old_ && x != id) || exists c :: Grandchild(m, id, c, x))
      && (forall a, b :: a in old_ && b in old_ && a != id && b != id ==> (Before(new_, a, b) <==> Before(old_, a, b)))
      && (forall a, c, g :: a in old_ && a != id && Grandchild(m, id, c, g) ==> Before(new_, a, g))
      && (forall c, g, c', g' :: Grandchild(m, id, c, g) && Grandchild(m, id, c', g') ==>
            (Before(new_, g, g') <==> GrandBefore(m, id, c, g, c', g')))
  {
    var m := h.messages;
    StartIsPresent(h, id);
    DeleteKeepsForest(m, id);
    assert Names(m, id, p);
    assert ParentOf(Parents(m), id) == Some(p);
    var old_, grand := m[p].childrenIds, Grandchildren(m, ChildrenOf(m, id));
    var own, new_ := Drop(old_, {id}), h'.messages[p].childrenIds;
    assert new_ == own + grand;
    forall x ensures x in grand <==> exists c :: Grandchild(m, id, c, x) {
      GrandchildIsListed(m, id, x);
    }
    forall a, b | a in old_ && b in old_ && a != id && b != id ensures Before(new_, a, b) <==> Before(old_, a, b) {
      SiblingsKeepOrder(m, id, p, a, b);
    }
    forall a, c, g | a in old_ && a != id && Grandchild(m, id, c, g) ensures Before(new_, a, g) {
      BeforeConcat(own, grand, a, g);
    }
    forall c, g, c', g' | Grandchild(m, id, c, g) && Grandchild(m, id, c', g')
      ensures Before(new_, g, g') <==> GrandBefore(m, id, c, g, c', g')
    {
      GrandchildrenKeepOrder(m, id, p, c, g, c', g');
    }
  }

  lemma {:induction false} SiblingsKeepOrder(m: Messages, id: Id, p: Id, a: Id, b: Id)
    requires IsForest(m) && id in m && p in m && m[id].parentId == Some(p)
    requires a in m[p].childrenIds && b in m[p].childrenIds && a != id && b != id
    ensures Before(Drop(m[p].childrenIds, {id}) + Grandchildren(m, ChildrenOf(m, id)), a, b) <==> Before(m[p].childrenIds, a, b)
  {
    var own, grand := Drop(m[p].childrenIds, {id}), Grandchildren(m, ChildrenOf(m, id));
    SiblingIsNoGrandchild(m, id, p, a);
    SiblingIsNoGrandchild(m, id, p, b);
    BeforeConcat(own, grand, a, b);
    BeforeNeedsBoth(grand, a, b);
    DropKeepsBefore(m[p].childrenIds, {id}, a, b);
  }

  lemma {:induction false} SiblingIsNoGrandchild(m: Messages, id: Id, p: Id, a: Id)
    requires IsForest(m) && id in m && p in m && m[id].parentId == Some(p) && a in m[p].childrenIds
    ensures a !in Grandchildren(m, ChildrenOf(m, id))
  {
    Families(m, id);
    assert Lists(m, p, a);
    ListedIsStored(m, p, a);
    if p in ChildrenOf(m, id) {
      TwoCycle(Parents(m), p, id);
    }
  }

  lemma {:induction false} GrandchildrenKeepOrder(m: Messages, id: Id, p: Id, c: Id, g: Id, c': Id, g': Id)
    requires IsForest(m) && id in m && p in m && m[id].parentId == Some(p)
    requires Grandchild(m, id, c, g) && Grandchild(m, id, c', g')
    ensures Before(Drop(m[p].childrenIds, {id}) + Grandchildren(m, ChildrenOf(m, id)), g, g') <==>
      GrandBefore(m, id, c, g, c', g')
  {
    var own, grand := Drop(m[p].childrenIds, {id}), Grandchildren(m, ChildrenOf(m, id));
    GrandchildIsListed(m, id, g);
    GrandchildIsListed(m, id, g');
    if g in own { SiblingIsNoGrandchild(m, id, p, g); }
    if g' in own { SiblingIsNoGrandchild(m, id, p, g'); }
    BeforeConcat(own, grand, g, g');
    BeforeNeedsBoth(own, g, g');
    ChildrenAreTheList(m, id);
    forall x | x in ChildrenOf(m, id) ensures x in m {
      ListedIsStored(m, id, x);
    }
    GrandchildrenInOrder(m, ChildrenOf(m, id), c, g, c', g');
  }

  /** Everything else stays as it was: the other survivors' lists, all contents, the
      parents but those of the grandchildren, and the dict order. */
  lemma {:induction false} RestIsUntouched(h: Hist, id: Id, h': Hist, i: Id)
    requires IsForest(h.messages) && id in h.messages && IsDeletion(h, id, h') && i in h'.messages
    ensures i in h.messages
    ensures
      var was, is_ := h.messages[i], h'.messages[i];
      && is_ == was.(parentId := is_.parentId, childrenIds := is_.childrenIds)
      && (h.messages[id].parentId != Some(i) ==> is_.childrenIds == was.childrenIds)
      && is_.parentId == if exists c :: Grandchild(h.messages, id, c, i) then h.messages[id].parentId else was.parentId
    ensures forall j :: j in h'.messages ==> (Before(h'.order, i, j) <==> Before(h.order, i, j))
  {
    GrandchildIsListed(h.messages, id, i);
    forall j | j in h'.messages ensures Before(h'.order, i, j) <==> Before(h.order, i, j) {
      DropKeepsBefore(h.order, Dead(h.messages, id), i, j);
    }
  }

  // ---------------------------------------------------------------- the cursor

  /** The way down from `top` that always takes the last of the children ends, after
      `n` steps, at the leaf `leaf`. */
  ghost predicate LeadsTo(m: Messages, top: Id, leaf: Id, n: nat)
    decreases n
  {
    && top in m
    && if n == 0 then top == leaf && m[top].childrenIds == []
       else exists c :: IsLast(m[top].childrenIds, c) && LeadsTo(m, c, leaf, n - 1)
  }

  ghost predicate RightEdge(m: Messages, top: Id, leaf: Id) {
    exists n: nat :: LeadsTo(m, top, leaf, n)
  }

  lemma {:induction false} RestIsRightEdge(m: Messages, i: Id, n: nat) returns (steps: nat)
    requires IsForest(m) && i in m && RestsWithin(m, i, n)
    ensures LeadsTo(m, i, Walk(m, i, n), steps)
    decreases n
  {
    if LastChild(m, i).None? {
      steps := 0;
    } else {
      var c := LastChild(m, i).value;
      assert Lists(m, i, c);
      ListedIsStored(m, i, c);
      EndIsLast(m[i].childrenIds, c);
      var rest := RestIsRightEdge(m, c, n - 1);
      WalkStep(m, i, n - 1);
      steps := rest + 1;
    }
  }

  lemma {:induction false} LastIsOne(s: seq<Id>, x: Id, y: Id)
    requires NoDup(s) && IsLast(s, x) && IsLast(s, y)
    ensures x == y
  {
    EndIsLast(s, x);
    EndIsLast(s, y);
  }

  /** Below the last entry of a list the right edge goes on. */
  lemma {:induction false} EdgeGoesOn(m: Messages, top: Id, x: Id, leaf: Id)
    requires RightEdge(m, top, leaf) && top in m && NoDup(m[top].childrenIds)
    ensures IsLast(m[top].childrenIds, x) ==> RightEdge(m, x, leaf)
    ensures m[top].childrenIds == [] ==> leaf == top
  {
    var n: nat :| LeadsTo(m, top, leaf, n);
    if IsLast(m[top].childrenIds, x) {
      assert n > 0;
      var c :| IsLast(m[top].childrenIds, c) && LeadsTo(m, c, leaf, n - 1);
      LastIsOne(m[top].childrenIds, x, c);
    }
  }

  /** All other grandchildren of `id` stand before `g`. */
  ghost predicate LastGrandchild(m: Messages, id: Id, c: Id, g: Id) {
    Grandchild(m, id, c, g) && forall c', g' :: Grandchild(m, id, c', g') && g' != g ==> GrandBefore(m, id, c', g', c, g)
  }

  /** All other siblings of `id` stand before `s`. */
  ghost predicate LastSibling(m: Messages, id: Id, p: Id, s: Id) {
    && p in m && s in m[p].childrenIds && s != id
    && forall y :: y in m[p].childrenIds && y != id && y != s ==> Before(m[p].childrenIds, y, s)
  }

  ghost predicate HasGrandchild(m: Messages, id: Id) {
    exists c, g :: Grandchild(m, id, c, g)
  }

  lemma {:induction false} CursorEdge(h: Hist, id: Id, h': Hist, start: Id)
    requires IsForest(h.messages) && id in h.messages && IsDeletion(h, id, h')
    requires DescentStart(h'.order, h'.messages, h.messages[id].parentId) == Some(start) && start in h'.messages
    ensures h'.currentId.Some? && RightEdge(h'.messages, start, h'.currentId.value)
  {
    var m := h'.messages;
    DeleteKeepsForest(h.messages, id);
    DescentReachesLeaf(m, start);
    var leaf :| StopsAt(m, start, leaf) && h'.currentId == (if leaf in m then Some(leaf) else None);
    var n: nat :| RestsWithin(m, start, n) && Walk(m, start, n) == leaf;
    var steps := RestIsRightEdge(m, start, n);
  }

  /** After deleting a message with a parent the cursor is at the right edge below its
      last grandchild, or without grandchildren below the last remaining sibling; the
      parent itself if it has no children left. */
  lemma {:induction false} CursorBelowParent(h: Hist, id: Id, h': Hist, p: Id)
    requires IsForest(h.messages) && id in h.messages && h.messages[id].parentId == Some(p) && IsDeletion(h, id, h')
    ensures h'.currentId.Some?
    ensures forall c, g :: LastGrandchild(h.messages, id, c, g) ==> RightEdge(h'.messages, g, h'.currentId.value)
    ensures !HasGrandchild(h.messages, id) ==>
      forall s :: LastSibling(h.messages, id, p, s) ==> RightEdge(h'.messages, s, h'.currentId.value)
    ensures p in h'.messages && (h'.messages[p].childrenIds == [] ==> h'.currentId == Some(p))
  {
    ParentListOrder(h, id, h', p);
    var m, new_ := h.messages, h'.messages[p].childrenIds;
    CursorEdge(h, id, h', p);
    var leaf := h'.currentId.value;
    forall c, g | LastGrandchild(m, id, c, g) ensures RightEdge(h'.messages, g, leaf) {
      LastGrandchildIsLast(h, id, h', p, c, g);
      EdgeGoesOn(h'.messages, p, g, leaf);
    }
    forall s | !HasGrandchild(m, id) && LastSibling(m, id, p, s) ensures RightEdge(h'.messages, s, leaf) {
      assert IsLast(new_, s);
      EdgeGoesOn(h'.messages, p, s, leaf);
    }
    EdgeGoesOn(h'.messages, p, p, leaf);
  }

  lemma {:induction false} LastGrandchildIsLast(h: Hist, id: Id, h': Hist, p: Id, c: Id, g: Id)
    requires IsForest(h.messages) && id in h.messages && h.messages[id].parentId == Some(p) && IsDeletion(h, id, h')
    requires LastGrandchild(h.messages, id, c, g)
    ensures p in h'.messages && IsLast(h'.messages[p].childrenIds, g)
  {
    var m := h.messages;
    ParentListOrder(h, id, h', p);
    var new_ := h'.messages[p].childrenIds;
    forall y | y in new_ && y != g ensures Before(new_, y, g) {
      if !(y in m[p].childrenIds && y != id) {
        var c' :| Grandchild(m, id, c', y);
        assert GrandBefore(m, id, c', y, c, g);
      }
    }
  }

  /** There is a last grandchild if there is any, and a last sibling if there is any. */
  lemma {:induction false} LastOnesExist(h: Hist, id: Id, h': Hist, p: Id)
    requires IsForest(h.messages) && id in h.messages && h.messages[id].parentId == Some(p) && IsDeletion(h, id, h')
    ensures HasGrandchild(h.messages, id) ==> exists c, g :: LastGrandchild(h.messages, id, c, g)
    ensures !HasGrandchild(h.messages, id) && (exists s :: Lists(h.messages, p, s) && s != id) ==>
      exists s :: LastSibling(h.messages, id, p, s)
  {
    var m := h.messages;
    ParentListOrder(h, id, h', p);
    var new_ := h'.messages[p].childrenIds;
    if new_ != [] {
      var e := new_[|new_| - 1];
      EndIsLast(new_, e);
      if HasGrandchild(m, id) {
        var c0, g0 :| Grandchild(m, id, c0, g0);
        assert g0 in new_;
        EndIsGrandchild(h, id, h', p, c0, g0, e);
      } else {
        assert LastSibling(m, id, p, e);
      }
    } else {
      assert forall c, g :: Grandchild(m, id, c, g) ==> g in new_;
      assert forall s :: Lists(m, p, s) && s != id ==> s in new_;
    }
  }

  lemma {:induction false} EndIsGrandchild(h: Hist, id: Id, h': Hist, p: Id, c0: Id, g0: Id, e: Id)
    requires IsForest(h.messages) && id in h.messages && h.messages[id].parentId == Some(p) && IsDeletion(h, id, h')
    requires Grandchild(h.messages, id, c0, g0) && p in h'.messages && IsLast(h'.messages[p].childrenIds, e)
    ensures exists c, g :: LastGrandchild(h.messages, id, c, g)
  {
    var m, new_ := h.messages, h'.messages[p].childrenIds;
    ParentListOrder(h, id, h', p);
    if m[p].childrenIds != [] && e in m[p].childrenIds && e != id {
      assert Before(new_, e, g0) && g0 in new_;
      assert Before(new_, g0, e);
      NotBothWays(new_, e, g0);
    }
    var c :| Grandchild(m, id, c, e);
    forall c', g' | Grandchild(m, id, c', g') && g' != e ensures GrandBefore(m, id, c', g', c, e) {
      assert g' in new_ && Before(new_, g', e);
    }
    assert LastGrandchild(m, id, c, e);
  }

  lemma {:induction false} NotBothWays(s: seq<Id>, a: Id, b: Id)
    requires NoDup(s) && Before(s, a, b)
    ensures !Before(s, b, a)
  {
  }

  // ---- without a parent

  /** `r` is a root of what is left, and the last one in the old dict order. */
  ghost predicate LastRoot(order: seq<Id>, m: Messages, r: Id) {
    && r in m && m[r].parentId.None?
    && forall x :: x in m && m[x].parentId.None? && x != r ==> Before(order, x, r)
  }

  lemma {:induction false} RootsInOrder(order: seq<Id>, m: Messages, a: Id, b: Id)
    requires a in m && m[a].parentId.None? && b in m && m[b].parentId.None?
    ensures Before(Roots(order, m), a, b) <==> Before(order, a, b)
    decreases |order|
  {
    if order != [] {
      var front, x := order[..|order| - 1], order[|order| - 1];
      RootsInOrder(front, m, a, b);
      BeforeSnoc(front, x, a, b);
      BeforeSnoc(Roots(front, m), x, a, b);
      assert order == front + [x];
    }
  }

  lemma {:induction false} RootsNoDup(order: seq<Id>, m: Messages)
    requires NoDup(order)
    ensures NoDup(Roots(order, m))
    decreases |order|
  {
    if order != [] {
      RootsNoDup(order[..|order| - 1], m);
    }
  }

  /** After deleting a root the cursor is at the right edge below the root that is last
      in dict order, the grandchildren that became roots included. */
  lemma {:induction false} CursorBelowLastRoot(h: Hist, id: Id, h': Hist, r: Id)
    requires h.Valid() && IsForest(h.messages) && id in h.messages && h.messages[id].parentId.None? && IsDeletion(h, id, h')
    requires LastRoot(h.order, h'.messages, r)
    ensures h'.currentId.Some? && RightEdge(h'.messages, r, h'.currentId.value)
  {
    var m, roots := h'.messages, Roots(h'.order, h'.messages);
    DeleteKeepsDict(h, id, h');
    RootsNoDup(h'.order, m);
    forall x | x in roots && x != r ensures Before(roots, x, r) {
      RestIsUntouched(h, id, h', x);
      RootsInOrder(h'.order, m, x, r);
    }
    assert r in roots;
    EndIsLast(roots, r);
    CursorEdge(h, id, h', r);
  }
}
