/**
 `merge_history`: the incoming messages replace the stored ones, and every
 `childrenIds` list is rebuilt from the parent links.
 */
module Merge {
  import opened Prelude
  import opened Forest
  import opened History

  /** The ids of `order`, in that order, whose parent is `p`. */
  function KidsIn(order: seq<Id>, m: Messages, p: Id): (r: seq<Id>)
    ensures forall c :: c in r <==> c in order && c in m && m[c].parentId == Some(p)
  {
    if order == [] then []
    else
      var c := order[|order| - 1];
      var rest := KidsIn(order[..|order| - 1], m, p);
      if c in m && m[c].parentId == Some(p) then rest + [c] else rest
  }

  lemma {:induction false} KidsNoDup(order: seq<Id>, m: Messages, p: Id)
    requires NoDup(order)
    ensures NoDup(KidsIn(order, m, p))
    decreases |order|
  {
    if order != [] {
      KidsNoDup(order[..|order| - 1], m, p);
    }
  }

  /** `{**existing, **incoming}`, keys in dict order. */
  function JoinedOrder(existing: Hist, incoming: Hist): seq<Id> {
    existing.order + Drop(incoming.order, existing.messages.Keys)
  }

  function Relisted(order: seq<Id>, m: Messages): (r: Messages)
    ensures r.Keys == m.Keys
  {
    map i | i in m :: m[i].(childrenIds := KidsIn(order, m, i))
  }

  function MergedCursor(existing: Hist, incoming: Hist, m: Messages): Option<Id> {
    if incoming.currentId.Some? && incoming.currentId.value in m then incoming.currentId
    else if existing.currentId.Some? && existing.currentId.value in m then existing.currentId
    else None
  }

  function Merged(existing: Hist, incoming: Hist): Hist {
    var order := JoinedOrder(existing, incoming);
    var m := Relisted(order, existing.messages + incoming.messages);
    Hist(order, m, MergedCursor(existing, incoming, m))
  }

  /** `m` is `base` with exactly the messages of `done` filed under their parents. */
  ghost predicate Filed(done: seq<Id>, base: Messages, m: Messages) {
    && m.Keys == base.Keys
    && forall i :: i in m ==> m[i] == base[i].(childrenIds := KidsIn(done, base, i))
  }

  lemma {:induction false} FiledStep(done: seq<Id>, c: Id, base: Messages, m: Messages, m': Messages)
    requires Filed(done, base, m) && c in m && m'.Keys == m.Keys
    requires forall i :: i in m ==>
      m'[i] == m[i].(childrenIds := m[i].childrenIds + if m[c].parentId == Some(i) then [c] else [])
    ensures Filed(done + [c], base, m')
  {
    assert (done + [c])[..|done|] == done;
  }

  /** `if parent_id in merged: merged[parent_id]['childrenIds'].append(c)` */
  method FileUnderParent(m: Messages, c: Id) returns (m': Messages)
    requires c in m
    ensures m'.Keys == m.Keys
    ensures forall i :: i in m ==>
      m'[i] == m[i].(childrenIds := m[i].childrenIds + if m[c].parentId == Some(i) then [c] else [])
  {
    m' := m;
    var parent := m[c].parentId;
    if parent.Some? && parent.value in m {
      m' := m[parent.value := m[parent.value].(childrenIds := m[parent.value].childrenIds + [c])];
    }
  }

  /** The two loops of the merge: empty every child list, then file each message
      under its parent. */
  method RebuildChildren(order: seq<Id>, base: Messages) returns (m: Messages)
    requires forall i :: i in order ==> i in base
    ensures m == Relisted(order, base)
  {
    m := map i | i in base :: base[i].(childrenIds := []);
    for k := 0 to |order|
      invariant Filed(order[..k], base, m)
    {
      var m' := FileUnderParent(m, order[k]);
      FiledStep(order[..k], order[k], base, m, m');
      TakeOneMore(order, k);
      m := m';
    }
    assert order[..|order|] == order;
  }

  method MergeHistory(existing: Hist, incoming: Hist) returns (merged: Hist)
    requires existing.Valid() && incoming.Valid()
    ensures merged == Merged(existing, incoming)
  {
    var order := JoinedOrder(existing, incoming);
    var m := RebuildChildren(order, existing.messages + incoming.messages);
    merged := Hist(order, m, MergedCursor(existing, incoming, m));
  }

  // ---------------------------------------------------------------- properties

  lemma {:induction false} MergedIsDict(existing: Hist, incoming: Hist)
    requires existing.Valid() && incoming.Valid()
    ensures Merged(existing, incoming).Valid()
  {
    FilteredNoDup(incoming.order, existing.messages.Keys);
    NoDupConcat(existing.order, Drop(incoming.order, existing.messages.Keys));
  }

  /** Whatever the two histories look like, after the merge the child lists are
      the exact duplicate-free inverse of the parent links and the cursor is null
      or present. */
  lemma {:induction false} MergeRebuildsLinks(existing: Hist, incoming: Hist)
    requires existing.Valid() && incoming.Valid()
    ensures
      var h := Merged(existing, incoming);
      && SymmetricUpTo(h.messages, None, {}) && NoRepeats(h.messages)
      && (h.currentId.Some? ==> h.currentId.value in h.messages)
      && h.messages.Keys == existing.messages.Keys + incoming.messages.Keys
  {
    MergedIsDict(existing, incoming);
    var order, base := JoinedOrder(existing, incoming), existing.messages + incoming.messages;
    var m := Relisted(order, base);
    forall p | p in m ensures NoDup(m[p].childrenIds) {
      KidsNoDup(order, base, p);
    }
    forall p, c | p in m ensures Lists(m, p, c) <==> Names(m, c, p) {
      assert c in base ==> c in order;
    }
  }

  /** Which cursor the merge keeps: the incoming one if it is the id of a message of
      either history, else the stored one if that is, else none. */
  lemma {:induction false} IncomingCursorWins(existing: Hist, incoming: Hist)
    ensures
      var h := Merged(existing, incoming);
      var ids := existing.messages.Keys + incoming.messages.Keys;
      && (incoming.currentId.Some? && incoming.currentId.value in ids ==> h.currentId == incoming.currentId)
      && ((incoming.currentId.None? || incoming.currentId.value !in ids) && existing.currentId.Some? && existing.currentId.value in ids ==>
            h.currentId == existing.currentId)
      && ((incoming.currentId.None? || incoming.currentId.value !in ids) && (existing.currentId.None? || existing.currentId.value !in ids) ==>
            h.currentId == None)
  {
  }

  /** What the merge keeps of the messages: the incoming one where one was sent, else the
      stored one, but for its child list. */
  lemma {:induction false} IncomingMessagesWin(existing: Hist, incoming: Hist, i: Id)
    requires i in Merged(existing, incoming).messages
    ensures
      var merged := Merged(existing, incoming).messages[i];
      && (i in incoming.messages ==> merged == incoming.messages[i].(childrenIds := merged.childrenIds))
      && (i !in incoming.messages ==> i in existing.messages && merged == existing.messages[i].(childrenIds := merged.childrenIds))
  {
  }

  lemma {:induction false} KidsInOrder(order: seq<Id>, m: Messages, p: Id, a: Id, b: Id)
    requires a in m && m[a].parentId == Some(p) && b in m && m[b].parentId == Some(p)
    ensures Before(KidsIn(order, m, p), a, b) <==> Before(order, a, b)
    decreases |order|
  {
    if order != [] {
      var front, x := order[..|order| - 1], order[|order| - 1];
      KidsInOrder(front, m, p, a, b);
      BeforeSnoc(front, x, a, b);
      BeforeSnoc(KidsIn(front, m, p), x, a, b);
      assert order == front + [x];
    }
  }

  /** The order that the merge leaves: stored ids as they stood, then the new ones as
      they were sent, and every child list in that order. */
  lemma {:induction false} MergeOrder(existing: Hist, incoming: Hist, a: Id, b: Id)
    requires existing.Valid() && incoming.Valid()
    requires a in Merged(existing, incoming).messages && b in Merged(existing, incoming).messages
    ensures
      var h := Merged(existing, incoming);
      && (a in existing.messages && b in existing.messages ==> (Before(h.order, a, b) <==> Before(existing.order, a, b)))
      && (a in existing.messages && b !in existing.messages ==> Before(h.order, a, b))
      && (a !in existing.messages && b !in existing.messages ==> (Before(h.order, a, b) <==> Before(incoming.order, a, b)))
      && (h.messages[a].parentId.Some? && h.messages[a].parentId == h.messages[b].parentId && h.messages[a].parentId.value in h.messages ==>
            (Before(h.messages[h.messages[a].parentId.value].childrenIds, a, b) <==> Before(h.order, a, b)))
  {
    var added := Drop(incoming.order, existing.messages.Keys);
    BeforeConcat(existing.order, added, a, b);
    if a !in existing.messages && b !in existing.messages {
      DropKeepsBefore(incoming.order, existing.messages.Keys, a, b);
    }
    var base := existing.messages + incoming.messages;
    if base[a].parentId.Some? && base[a].parentId == base[b].parentId {
      KidsInOrder(JoinedOrder(existing, incoming), base, base[a].parentId.value, a, b);
    }
  }

  /** Filing depends on the parent links alone, not on the old child lists. */
  lemma {:induction false} KidsDependOnParents(order: seq<Id>, m: Messages, m': Messages, p: Id)
    requires m.Keys == m'.Keys && forall i :: i in m ==> m[i].parentId == m'[i].parentId
    ensures KidsIn(order, m, p) == KidsIn(order, m', p)
    decreases |order|
  {
    if order != [] {
      KidsDependOnParents(order[..|order| - 1], m, m', p);
    }
  }

  lemma {:induction false} DropAll(s: seq<Id>, gone: set<Id>)
    requires forall x :: x in s ==> x in gone
    ensures Drop(s, gone) == []
  {
    assert Drop(s, gone) != [] ==> Drop(s, gone)[0] in Drop(s, gone);
  }

  lemma {:induction false} SameKidsAgain(order: seq<Id>, base: Messages, incoming: Messages, i: Id)
    requires (forall x :: x in incoming ==> x in base && base[x] == incoming[x]) && i in base
    ensures Relisted(order, Relisted(order, base) + incoming)[i] == Relisted(order, base)[i]
  {
    KidsDependOnParents(order, base, Relisted(order, base) + incoming, i);
  }

  lemma {:induction false} RelistingIsIdempotent(order: seq<Id>, base: Messages, incoming: Messages)
    requires forall i :: i in incoming ==> i in base && base[i] == incoming[i]
    ensures Relisted(order, Relisted(order, base) + incoming) == Relisted(order, base)
  {
    forall i | i in base {
      SameKidsAgain(order, base, incoming, i);
    }
  }

  /** Merging the same incoming history again changes nothing. */
  lemma {:induction false} MergeIsIdempotent(existing: Hist, incoming: Hist)
    requires existing.Valid() && incoming.Valid()
    ensures Merged(Merged(existing, incoming), incoming) == Merged(existing, incoming)
  {
    var once := Merged(existing, incoming);
    DropAll(incoming.order, once.messages.Keys);
    assert JoinedOrder(once, incoming) == once.order;
    RelistingIsIdempotent(once.order, existing.messages + incoming.messages, incoming.messages);
  }

  lemma {:induction false} MergedParents(existing: Hist, incoming: Hist)
    ensures Parents(Merged(existing, incoming).messages) == Parents(existing.messages) + Parents(incoming.messages)
  {
  }

  /** `x` is sent, but the parent it names is not. */
  ghost predicate Leaves(i: Links, x: Id) {
    ParentOf(i, x).Some? && ParentOf(i, x).value !in i
  }

  /** A walk up that starts in the incoming history ends there, or leaves it. */
  lemma {:induction false} SentWalkEnds(e: Links, i: Links, x: Id, n: nat)
    requires forall y :: Leaves(i, y) ==> Ends(e + i, y)
    requires x in i && Up(i, x, n) == None
    ensures Ends(e + i, x)
    decreases n
  {
    var g := e + i;
    if ParentOf(i, x).None? {
      assert Up(g, x, 1) == None;
    } else if !Leaves(i, x) {
      var p := ParentOf(i, x).value;
      SentWalkEnds(e, i, p, n - 1);
      var k: nat :| Up(g, p, k) == None;
      assert Up(g, x, k + 1) == None;
    }
  }

  /** A walk up either stays among the ids that only the existing history has, and
      ends there, or enters the incoming history. */
  lemma {:induction false} JoinedWalkEnds(e: Links, i: Links, x: Id, n: nat)
    requires forall y :: y in i ==> Ends(e + i, y)
    requires Up(e, x, n) == None
    ensures Ends(e + i, x)
    decreases n
  {
    var g := e + i;
    if x !in i && ParentOf(g, x).None? {
      assert Up(g, x, 1) == None;
    } else if x !in i {
      var p := ParentOf(g, x).value;
      JoinedWalkEnds(e, i, p, n - 1);
      var k: nat :| Up(g, p, k) == None;
      assert Up(g, x, k + 1) == None;
    }
  }

  /** Joining two acyclic sets of links closes a cycle only through a message that is
      sent without its parent. */
  lemma {:induction false} JoinIsAcyclicIff(e: Links, i: Links)
    requires Acyclic(e) && Acyclic(i)
    ensures Acyclic(e + i) <==> forall x :: Leaves(i, x) ==> Ends(e + i, x)
  {
    var g := e + i;
    AcyclicIffGrounded(e);
    AcyclicIffGrounded(i);
    AcyclicIffGrounded(g);
    if Acyclic(g) {
      assert forall x :: Leaves(i, x) ==> x in g;
    }
    if forall x :: Leaves(i, x) ==> Ends(g, x) {
      forall x | x in i ensures Ends(g, x) {
        assert Ends(i, x);
        var n: nat :| Up(i, x, n) == None;
        SentWalkEnds(e, i, x, n);
      }
      forall x | x in e ensures Ends(g, x) {
        assert Ends(e, x);
        var n: nat :| Up(e, x, n) == None;
        JoinedWalkEnds(e, i, x, n);
      }
    }
  }

  /** For any two acyclic histories: the merge is acyclic exactly when the walk up
      from every message sent without its parent ends, which as many steps as there
      are messages decide. */
  lemma {:induction false} MergeIsAcyclicIff(existing: Hist, incoming: Hist)
    requires Acyclic(Parents(existing.messages)) && Acyclic(Parents(incoming.messages))
    ensures
      var g := Parents(Merged(existing, incoming).messages);
      Acyclic(g) <==> forall x :: Leaves(Parents(incoming.messages), x) ==> Up(g, x, |g| + 1) == None
  {
    MergedParents(existing, incoming);
    JoinIsAcyclicIff(Parents(existing.messages), Parents(incoming.messages));
    var g := Parents(Merged(existing, incoming).messages);
    forall x {
      EndsIffNeverReturns(g, x);
    }
  }

  /** If both histories are acyclic and every parent named by the incoming one is
      in it, the merge is acyclic, even where the two disagree about a parent. */
  lemma {:induction false} MergeIsAcyclic(existing: Hist, incoming: Hist)
    requires Acyclic(Parents(existing.messages)) && Acyclic(Parents(incoming.messages))
    requires Closed(Parents(incoming.messages))
    ensures Acyclic(Parents(Merged(existing, incoming).messages))
  {
    MergedParents(existing, incoming);
    JoinIsAcyclicIff(Parents(existing.messages), Parents(incoming.messages));
  }

  lemma {:induction false} JoinIsClosed(e: Links, i: Links)
    requires Closed(e) && Closed(i)
    ensures Closed(e + i)
  {
    forall x | ParentOf(e + i, x).Some? ensures ParentOf(e + i, x).value in e + i {
      assert x in i ==> ParentOf(i, x) == ParentOf(e + i, x);
      assert x !in i ==> ParentOf(e, x) == ParentOf(e + i, x);
    }
  }

  /** Merging into a forest anything closed and acyclic gives a forest. */
  lemma {:induction false} MergeKeepsForest(existing: Hist, incoming: Hist)
    requires existing.Valid() && incoming.Valid()
    requires Closed(Parents(existing.messages)) && Acyclic(Parents(existing.messages))
    requires Closed(Parents(incoming.messages)) && Acyclic(Parents(incoming.messages))
    ensures IsForest(Merged(existing, incoming).messages)
  {
    MergeRebuildsLinks(existing, incoming);
    MergeIsAcyclic(existing, incoming);
    MergedParents(existing, incoming);
    JoinIsClosed(Parents(existing.messages), Parents(incoming.messages));
  }

  lemma {:induction false} ShortChainsAreAcyclic(g: Links)
    requires forall i :: i in g ==> Up(g, i, 2) == None
    ensures Acyclic(g)
  {
    assert forall i :: i in g ==> Ends(g, i);
    AcyclicIffGrounded(g);
  }

  function Plain(id: Id, parent: Option<Id>, children: seq<Id>): Message {
    Message(id, parent, children, "user", 0, "", "")
  }

  /** A stored history of two messages, `p` below `x`. */
  function Pair(p: Id, x: Id): Hist {
    Hist([x, p], map[x := Plain(x, None, [p]), p := Plain(p, Some(x), [])], Some(p))
  }

  lemma {:induction false} PairIsForest(p: Id, x: Id)
    requires p != x
    ensures Pair(p, x).Valid() && IsForest(Pair(p, x).messages)
  {
    var m := Pair(p, x).messages;
    var g := Parents(m);
    assert Up(g, x, 1) == None && Up(g, p, 2) == Up(g, x, 1);
    ShortChainsAreAcyclic(g);
    forall a, c | a in m ensures Lists(m, a, c) <==> Names(m, c, a) {
    }
  }

  /** Whenever a message is sent without its parent, some stored forest makes the
      merge a cycle: the one that has the parent below that message. */
  lemma {:induction false} OpenMergeCanLoop(incoming: Hist, x: Id)
    requires Leaves(Parents(incoming.messages), x)
    ensures
      var existing := Pair(ParentOf(Parents(incoming.messages), x).value, x);
      && existing.Valid() && IsForest(existing.messages)
      && !Acyclic(Parents(Merged(existing, incoming).messages))
  {
    var i := Parents(incoming.messages);
    var p := i[x].value;
    PairIsForest(p, x);
    MergedParents(Pair(p, x), incoming);
    TwoCycle(Parents(Pair(p, x).messages) + i, p, x);
  }

  /** Every acyclic history merges with `incoming` to an acyclic one. */
  ghost predicate NeverLoops(incoming: Hist) {
    forall e: Hist {:trigger Merged(e, incoming)} ::
      e.Valid() && Acyclic(Parents(e.messages)) ==> Acyclic(Parents(Merged(e, incoming).messages))
  }

  /** Every forest merges with `incoming` to a forest. */
  ghost predicate KeepsForests(incoming: Hist) {
    forall e: Hist {:trigger Merged(e, incoming)} ::
      e.Valid() && IsForest(e.messages) ==> IsForest(Merged(e, incoming).messages)
  }

  lemma {:induction false} ClosedIsSafe(incoming: Hist)
    requires incoming.Valid() && Acyclic(Parents(incoming.messages)) && Closed(Parents(incoming.messages))
    ensures NeverLoops(incoming) && KeepsForests(incoming)
  {
    forall e: Hist | e.Valid() && Acyclic(Parents(e.messages)) ensures Acyclic(Parents(Merged(e, incoming).messages)) {
      MergeIsAcyclic(e, incoming);
    }
    forall e: Hist | e.Valid() && IsForest(e.messages) ensures IsForest(Merged(e, incoming).messages) {
      MergeKeepsForest(e, incoming);
    }
  }

  lemma {:induction false} OpenIsUnsafe(incoming: Hist)
    requires !Closed(Parents(incoming.messages))
    ensures !NeverLoops(incoming) && !KeepsForests(incoming)
  {
    var i := Parents(incoming.messages);
    var x :| ParentOf(i, x).Some? && ParentOf(i, x).value !in i;
    OpenMergeCanLoop(incoming, x);
  }

  lemma {:induction false} NothingIsForest()
    ensures Hist([], map[], None).Valid() && IsForest(map[])
  {
  }

  lemma {:induction false} CyclicIsUnsafe(incoming: Hist)
    requires !Acyclic(Parents(incoming.messages))
    ensures !KeepsForests(incoming)
  {
    var none := Hist([], map[], None);
    NothingIsForest();
    MergedParents(none, incoming);
    assert Parents(none.messages) + Parents(incoming.messages) == Parents(incoming.messages);
    assert !Acyclic(Parents(Merged(none, incoming).messages));
  }

  /** What makes an incoming history safe whatever is stored: an acyclic one never
      loops exactly when it sends the parents it names, and one keeps every forest a
      forest exactly when it is acyclic besides. */
  lemma {:induction false} MergeIsSafeIff(incoming: Hist)
    requires incoming.Valid()
    ensures Acyclic(Parents(incoming.messages)) ==> (NeverLoops(incoming) <==> Closed(Parents(incoming.messages)))
    ensures KeepsForests(incoming) <==> Closed(Parents(incoming.messages)) && Acyclic(Parents(incoming.messages))
  {
    if !Closed(Parents(incoming.messages)) {
      OpenIsUnsafe(incoming);
    } else if !Acyclic(Parents(incoming.messages)) {
      CyclicIsUnsafe(incoming);
    } else {
      ClosedIsSafe(incoming);
    }
  }
}
