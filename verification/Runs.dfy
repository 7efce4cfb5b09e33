/**
 Every run of a chat keeps its history a forest: new chat, then follow-ups,
 deletions, cursor repairs and merges in any order.
 */
module Runs {
  import opened Prelude
  import opened Forest
  import opened History
  import opened Deletion
  import opened Merge
  import opened Completion

  // ------------------------------------------------- between the upserts of a follow-up

  /** A forest but for one thing: `u` may already list the `pending` ids, none of
      which is stored. */
  ghost predicate AlmostForest(m: Messages, u: Option<Id>, pending: set<Id>) {
    && Closed(Parents(m))
    && SymmetricUpTo(m, u, pending)
    && NoRepeats(m)
    && Acyclic(Parents(m))
    && pending !! m.Keys
  }

  lemma {:induction false} NothingPending(m: Messages, u: Option<Id>)
    ensures AlmostForest(m, u, {}) <==> IsForest(m)
  {
  }

  /** Replacing a message by one with the same parent, whose child list is the old
      children plus ids not stored yet. */
  lemma {:induction false} ChangeChildren(m: Messages, u: Option<Id>, pending: set<Id>, i: Id, x: Message, pending': set<Id>)
    requires AlmostForest(m, u, pending) && (u == Some(i) || pending == {})
    requires i in m && x.parentId == m[i].parentId
    requires NoDup(x.childrenIds) && pending' !! m.Keys
    requires forall c :: c in x.childrenIds <==> Names(m, c, i) || c in pending'
    ensures AlmostForest(m[i := x], Some(i), pending')
  {
    var m' := m[i := x];
    assert Parents(m') == Parents(m);
    forall p, c | p in m' ensures Lists(m', p, c) <==> Names(m', c, p) || (Some(i) == Some(p) && c in pending') {
      assert Lists(m, p, c) <==> Names(m, c, p) || (u == Some(p) && c in pending);
    }
  }

  /** Replacing a message by one with the same links. */
  lemma {:induction false} ChangeContent(m: Messages, u: Option<Id>, pending: set<Id>, i: Id, x: Message)
    requires AlmostForest(m, u, pending)
    requires i in m && x.parentId == m[i].parentId && x.childrenIds == m[i].childrenIds
    ensures AlmostForest(m[i := x], u, pending)
  {
    var m' := m[i := x];
    assert Parents(m') == Parents(m);
    forall p, c | p in m' ensures Lists(m', p, c) <==> Names(m', c, p) || (u == Some(p) && c in pending) {
      assert Lists(m, p, c) <==> Names(m, c, p) || (u == Some(p) && c in pending);
    }
  }

  /** Storing a childless message that its parent already lists, or a new root. */
  lemma {:induction false} StorePending(m: Messages, u: Option<Id>, pending: set<Id>, a: Id, x: Message)
    requires AlmostForest(m, u, pending) && a !in m
    requires x.parentId == u && x.childrenIds == []
    requires u.Some? ==> u.value in m && a in pending
    ensures AlmostForest(m[a := x], u, pending - {a})
  {
    var m' := m[a := x];
    assert Parents(m') == Parents(m)[a := u];
    AddLeaf(Parents(m), a, u);
    forall p, c | p in m' ensures Lists(m', p, c) <==> Names(m', c, p) || (u == Some(p) && c in pending - {a}) {
      assert p in m ==> (Lists(m, p, c) <==> Names(m, c, p) || (u == Some(p) && c in pending));
      assert c in m ==> ParentOf(Parents(m), c) == m[c].parentId;
    }
  }

  /** Storing a message and then linking its parent to it. */
  lemma {:induction false} StoreAndLink(m: Messages, i: Id, x: Message)
    requires IsForest(m) && i !in m
    requires x.parentId.Some? ==> x.parentId.value in m
    requires NoDup(x.childrenIds) && Elements(x.childrenIds) !! m.Keys + {i}
    ensures
      var m' := m[i := x];
      var linked := if x.parentId.Some?
                    then m'[x.parentId.value := m[x.parentId.value].(childrenIds := m[x.parentId.value].childrenIds + [i])]
                    else m';
      AlmostForest(linked, Some(i), Elements(x.childrenIds))
  {
    var m' := m[i := x];
    var linked := if x.parentId.Some?
                  then m'[x.parentId.value := m[x.parentId.value].(childrenIds := m[x.parentId.value].childrenIds + [i])]
                  else m';
    assert Parents(linked) == Parents(m)[i := x.parentId];
    AddLeaf(Parents(m), i, x.parentId);
    forall p, c | p in linked
      ensures Lists(linked, p, c) <==> Names(linked, c, p) || (Some(i) == Some(p) && c in Elements(x.childrenIds))
    {
      assert p in m ==> (Lists(m, p, c) <==> Names(m, c, p));
      assert c in m ==> ParentOf(Parents(m), c) == m[c].parentId;
    }
    forall p | p in m ensures i !in m[p].childrenIds {
      assert Lists(m, p, i) <==> Names(m, i, p);
    }
  }

  // ------------------------------------------------- a whole follow-up

  /** What the handler is given: a user message that is new (its parent, if any,
      is stored; it may already list answers of this call) or one being
      regenerated (same parent, child list only extended by answers of this call),
      and answers that are new, or stored leaves of that user message. */
  ghost predicate FollowUpOk(m: Messages, user: Option<Patch>, entries: seq<Id>) {
    var ids := AssistantIds(entries);
    var u := UserId(user);
    && NoDup(ids)
    && u != Some("")
    && (u.Some? ==>
          && u.value !in ids
          && var sent := AsSent(user.value);
          && NoDup(sent.childrenIds)
          && (u.value !in m ==>
                && (sent.parentId.Some? ==> sent.parentId.value in m && sent.parentId.value != "")
                && (forall c :: c in sent.childrenIds ==> c in ids && c !in m))
          && (u.value in m ==>
                && (user.value.parentId.Some? ==> sent.parentId == m[u.value].parentId)
                && (user.value.childrenIds.Some? ==>
                      && (forall c :: c in m[u.value].childrenIds ==> c in sent.childrenIds)
                      && (forall c :: c in sent.childrenIds ==> c in m[u.value].childrenIds || (c in ids && c !in m)))))
    && (forall a :: a in ids && a in m ==> m[a].parentId == u && m[a].childrenIds == [])
  }

  lemma {:induction false} NobodyListsAStranger(order: seq<Id>, m: Messages, i: Id)
    requires IsForest(m) && i !in m
    ensures Adopter(order, m, i) == None
  {
    var r := Adopter(order, m, i);
    assert r.Some? ==> (Lists(m, r.value, i) <==> Names(m, i, r.value));
  }

  /** A regenerated user message: its parent lists it already. */
  lemma {:induction false} KnownUser(h: Hist, user: Option<Patch>, entries: seq<Id>, now: nat) returns (pending: set<Id>)
    requires IsForest(h.messages) && FollowUpOk(h.messages, user, entries)
    requires UserId(user).Some? && UserId(user).value in h.messages
    ensures WithParentLink(WithUser(h, user, now), user, now) == WithUser(h, user, now)
    ensures AlmostForest(WithUser(h, user, now).messages, UserId(user), pending)
    ensures pending <= Elements(AssistantIds(entries)) - h.messages.Keys
  {
    var m, i := h.messages, UserId(user).value;
    var x := WithUser(h, user, now).messages[i];
    assert forall c :: Lists(m, i, c) <==> Names(m, c, i);
    pending := Elements(x.childrenIds) - m.Keys;
    forall c | c in m[i].childrenIds ensures c in m {
      assert Lists(m, i, c);
    }
    ChangeChildren(m, None, {}, i, x, pending);
    if m[i].parentId.Some? {
      assert ParentOf(Parents(m), i) == m[i].parentId;
      assert Lists(m, m[i].parentId.value, i) <==> Names(m, i, m[i].parentId.value);
      OwnChildImpossible(m, i);
    }
  }

  /** A new user message: its parent has to be linked. */
  lemma {:induction false} NewUser(h: Hist, user: Option<Patch>, entries: seq<Id>, now: nat) returns (pending: set<Id>)
    requires IsForest(h.messages) && FollowUpOk(h.messages, user, entries)
    requires UserId(user).Some? && UserId(user).value !in h.messages
    ensures AlmostForest(WithParentLink(WithUser(h, user, now), user, now).messages, UserId(user), pending)
    ensures pending <= Elements(AssistantIds(entries)) - h.messages.Keys
  {
    var m, i := h.messages, UserId(user).value;
    var h1 := WithUser(h, user, now);
    var x := h1.messages[i];
    NobodyListsAStranger(h.order, m, i);
    pending := Elements(x.childrenIds);
    StoreAndLink(m, i, x);
    if x.parentId.Some? {
      var p := x.parentId.value;
      assert Lists(m, p, i) <==> Names(m, i, p);
      assert LinkTarget(h1, user) == Some(p);
    }
  }

  /** A stored answer keeps its place while the user message is stored and linked. */
  lemma {:induction false} AnswersUntouched(h: Hist, user: Option<Patch>, entries: seq<Id>, now: nat, a: Id)
    requires IsForest(h.messages) && FollowUpOk(h.messages, user, entries) && UserId(user).Some?
    requires a in h.messages && a in AssistantIds(entries)
    ensures
      var h' := WithParentLink(WithUser(h, user, now), user, now);
      && a in h'.messages && h'.messages[a].parentId == UserId(user) && h'.messages[a].childrenIds == []
  {
    assert ParentOf(Parents(h.messages), a) == UserId(user);
    var pending := KnownUser(h, user, entries, now);
  }

  lemma {:induction false} OwnChildImpossible(m: Messages, i: Id)
    requires IsForest(m) && i in m
    ensures m[i].parentId != Some(i)
  {
    var g := Parents(m);
    assert g[i] == Some(i) ==> Up(g, i, 1) == Up(g, i, 0);
    assert g[i] == Some(i) ==> Ancestor(g, i, i);
  }

  lemma {:induction false} AnswersLinked(h: Hist, user: Option<Patch>, ids: seq<Id>, now: nat, pending: set<Id>)
    requires UserId(user).Some? && UserId(user).value != "" && UserId(user).value in h.messages
    requires AlmostForest(h.messages, UserId(user), pending) && pending <= Elements(ids)
    requires UserId(user).value !in ids
    requires forall a :: a in ids && a in h.messages ==> h.messages[a].parentId == UserId(user) && h.messages[a].childrenIds == []
    ensures
      var h' := WithAnswerLinks(h, user, ids, now);
      && AlmostForest(h'.messages, UserId(user), Elements(ids) - h.messages.Keys)
      && h'.messages.Keys == h.messages.Keys
      && (forall a :: a in ids && a in h.messages ==> h'.messages[a] == h.messages[a])
  {
    var i := UserId(user).value;
    if ids == [] {
      assert pending == {} == Elements(ids) - h.messages.Keys;
    } else {
      var x := WithAnswerLinks(h, user, ids, now).messages[i];
      assert forall c :: Lists(h.messages, i, c) <==> Names(h.messages, c, i) || c in pending;
      AppendNewNoDup(h.messages[i].childrenIds, ids);
      ChangeChildren(h.messages, UserId(user), pending, i, x, Elements(ids) - h.messages.Keys);
    }
  }

  /** One placeholder upsert. */
  lemma {:induction false} AnswerStored(h: Hist, a: Id, u: Option<Id>, now: nat, pending: set<Id>)
    requires h.Valid() && AlmostForest(h.messages, u, pending)
    requires u.Some? ==> u.value in h.messages && u.value != a && (a !in h.messages ==> a in pending)
    requires u.None? ==> pending == {}
    requires a in h.messages ==> h.messages[a].parentId == u && h.messages[a].childrenIds == []
    ensures AlmostForest(Upserted(h, a, Placeholder(a, u, now), now).messages, u, pending - {a})
  {
    var m := h.messages;
    var x := Upserted(h, a, Placeholder(a, u, now), now).messages[a];
    if a in m {
      ChangeContent(m, u, pending, a, x);
      assert pending - {a} == pending;
    } else {
      if u.None? {
        NothingPending(m, u);
        NobodyListsAStranger(h.order, m, a);
      }
      StorePending(m, u, pending, a, x);
    }
  }

  /** `h'` is `h` with `ids` stored as well, or stored anew. */
  ghost predicate Extends(h: Hist, h': Hist, ids: set<Id>) {
    && h'.Valid()
    && h'.messages.Keys == h.messages.Keys + ids
    && forall a :: a in h.messages && a !in ids ==> h'.messages[a] == h.messages[a]
  }

  lemma {:induction false} ExtendsFurther(h: Hist, h': Hist, h'': Hist, ids: set<Id>, a: Id)
    requires Extends(h, h', ids) && Extends(h', h'', {a})
    ensures Extends(h, h'', ids + {a})
  {
  }

  lemma {:induction false} UpsertExtends(h: Hist, id: Id, p: Patch, now: nat)
    requires h.Valid()
    ensures Extends(h, Upserted(h, id, p, now), {id})
  {
  }

  lemma {:induction false} PutExtends(h: Hist, id: Id, x: Message)
    requires h.Valid()
    ensures Extends(h, Put(h, id, x), {id})
  {
  }

  lemma {:induction false} PlaceholdersFrame(h: Hist, ids: seq<Id>, u: Option<Id>, now: nat)
    requires h.Valid()
    ensures Extends(h, AddPlaceholders(h, ids, u, now), Elements(ids))
    decreases |ids|
  {
    if ids != [] {
      var front, a := ids[..|ids| - 1], ids[|ids| - 1];
      var before := AddPlaceholders(h, front, u, now);
      PlaceholdersFrame(h, front, u, now);
      UpsertExtends(before, a, Placeholder(a, u, now), now);
      ExtendsFurther(h, before, AddPlaceholders(h, ids, u, now), Elements(front), a);
      assert Elements(ids) == Elements(front) + {a};
    }
  }

  /** What the placeholder loop is given. */
  ghost predicate AnswersReady(m: Messages, ids: seq<Id>, u: Option<Id>, pending: set<Id>) {
    && NoDup(ids)
    && (u.Some? ==> u.value in m && u.value !in ids && Elements(ids) - m.Keys <= pending)
    && (u.None? ==> pending == {})
    && (forall a :: a in ids && a in m ==> m[a].parentId == u && m[a].childrenIds == [])
  }

  /** What the last upsert of the loop finds. */
  lemma {:induction false} LastAnswerReady(h: Hist, ids: seq<Id>, u: Option<Id>, now: nat, pending: set<Id>)
    requires h.Valid() && ids != [] && AnswersReady(h.messages, ids, u, pending)
    ensures
      var front, a := ids[..|ids| - 1], ids[|ids| - 1];
      var m := AddPlaceholders(h, front, u, now).messages;
      && AnswersReady(h.messages, front, u, pending)
      && (u.Some? ==> u.value in m && u.value != a && (a !in m ==> a in pending - Elements(front)))
      && (a in m ==> m[a].parentId == u && m[a].childrenIds == [])
  {
    var front, a := ids[..|ids| - 1], ids[|ids| - 1];
    PlaceholdersFrame(h, front, u, now);
    assert a !in front && a in ids;
    assert a in Elements(ids);
  }

  lemma {:induction false} WithoutLast(ids: seq<Id>, pending: set<Id>)
    requires ids != []
    ensures pending - Elements(ids) == (pending - Elements(ids[..|ids| - 1])) - {ids[|ids| - 1]}
  {
  }

  lemma {:induction false} AnswersStored(h: Hist, ids: seq<Id>, u: Option<Id>, now: nat, pending: set<Id>)
    requires h.Valid() && AlmostForest(h.messages, u, pending) && AnswersReady(h.messages, ids, u, pending)
    ensures AlmostForest(AddPlaceholders(h, ids, u, now).messages, u, pending - Elements(ids))
    decreases |ids|
  {
    if ids != [] {
      var front, a := ids[..|ids| - 1], ids[|ids| - 1];
      var before := AddPlaceholders(h, front, u, now);
      LastAnswerReady(h, ids, u, now, pending);
      AnswersStored(h, front, u, now, pending);
      PlaceholdersFrame(h, front, u, now);
      AnswerStored(before, a, u, now, pending - Elements(front));
      WithoutLast(ids, pending);
    } else {
      assert pending - Elements(ids) == pending;
    }
  }

  /** Linking stores nothing but the user message. */
  lemma {:induction false} LinkingKeepsDict(h: Hist, user: Option<Patch>, now: nat)
    requires h.Valid() && NamedUser(user).Some?
    ensures
      var h' := WithParentLink(WithUser(h, user, now), user, now);
      h'.Valid() && h'.messages.Keys == h.messages.Keys + {NamedUser(user).value}
  {
  }

  /** The history once the user message lists every answer of the call. */
  lemma {:induction false} UserAndAnswersLinked(h: Hist, user: Option<Patch>, entries: seq<Id>, now: nat)
    requires h.Valid() && IsForest(h.messages) && FollowUpOk(h.messages, user, entries) && UserId(user).Some?
    ensures
      var ids, u := AssistantIds(entries), UserId(user);
      var h' := WithAnswerLinks(WithParentLink(WithUser(h, user, now), user, now), user, ids, now);
      && h'.Valid()
      && h'.messages.Keys == h.messages.Keys + {u.value}
      && AlmostForest(h'.messages, u, Elements(ids) - h'.messages.Keys)
      && (forall a :: a in ids && a in h'.messages ==> h'.messages[a].parentId == u && h'.messages[a].childrenIds == [])
  {
    var ids, u := AssistantIds(entries), UserId(user);
    var h2 := WithParentLink(WithUser(h, user, now), user, now);
    var pending;
    if u.value in h.messages {
      pending := KnownUser(h, user, entries, now);
    } else {
      pending := NewUser(h, user, entries, now);
    }
    LinkingKeepsDict(h, user, now);
    forall a | a in ids && a in h.messages
      ensures h2.messages[a].parentId == u && h2.messages[a].childrenIds == []
    {
      AnswersUntouched(h, user, entries, now, a);
    }
    AnswersLinked(h2, user, ids, now, pending);
  }

  /** A follow-up keeps the history a forest, although each of its upserts may
      break link symmetry, and adds exactly the user message and the answers. */
  lemma {:induction false} FollowUpKeepsForest(h: Hist, user: Option<Patch>, entries: seq<Id>, now: nat)
    requires h.Valid() && IsForest(h.messages) && FollowUpOk(h.messages, user, entries)
    ensures
      var h' := FollowedUp(h, user, entries, now);
      && h'.Valid() && IsForest(h'.messages)
      && h'.messages.Keys == h.messages.Keys + Elements(AssistantIds(entries)) +
           (if UserId(user).Some? then {UserId(user).value} else {})
  {
    var ids, u := AssistantIds(entries), UserId(user);
    var linked := WithAnswerLinks(WithParentLink(WithUser(h, user, now), user, now), user, ids, now);
    var pending := {};
    if u.Some? {
      UserAndAnswersLinked(h, user, entries, now);
      pending := Elements(ids) - linked.messages.Keys;
    } else {
      NothingPending(h.messages, u);
    }
    AnswersStored(linked, ids, u, now, pending);
    PlaceholdersFrame(linked, ids, u, now);
    assert pending - Elements(ids) == {};
    NothingPending(FollowedUp(h, user, entries, now).messages, u);
  }

  /** The first upsert alone does break the forest: the parent of a new user
      message does not list it yet. */
  lemma {:induction false} FirstUpsertBreaksSymmetry(h: Hist, user: Option<Patch>, entries: seq<Id>, now: nat)
    requires IsForest(h.messages) && FollowUpOk(h.messages, user, entries) && UserId(user).Some?
    requires UserId(user).value !in h.messages && AsSent(user.value).parentId.Some?
    ensures !IsForest(WithUser(h, user, now).messages)
  {
    var m, i, p := h.messages, UserId(user).value, AsSent(user.value).parentId.value;
    var m' := WithUser(h, user, now).messages;
    assert Lists(m, p, i) <==> Names(m, i, p);
    assert Names(m', i, p) && !Lists(m', p, i);
  }

  ghost predicate Unlisted(m: Messages, a: Id) {
    forall p :: p in m ==> a !in m[p].childrenIds
  }

  lemma {:induction false} PlaceholderParent(h: Hist, a: Id, u: Option<Id>, now: nat)
    requires u.None? ==> Unlisted(h.messages, a)
    ensures
      var h' := Upserted(h, a, Placeholder(a, u, now), now);
      && Parents(h'.messages) == Parents(h.messages)[a := u]
      && (forall b :: Unlisted(h.messages, b) ==> Unlisted(h'.messages, b))
  {
    var h' := Upserted(h, a, Placeholder(a, u, now), now);
    assert u.None? ==> Adopter(h.order, h.messages, a) == None;
    assert h'.messages[a].parentId == u;
  }

  /** Every answer below `u`. */
  ghost function AnswerLinks(ids: seq<Id>, u: Option<Id>): Links {
    map a | a in ids :: u
  }

  lemma {:induction false} AnswerLinksStep(g: Links, ids: seq<Id>, u: Option<Id>)
    requires ids != []
    ensures g + AnswerLinks(ids, u) == (g + AnswerLinks(ids[..|ids| - 1], u))[ids[|ids| - 1] := u]
  {
    var front, a := ids[..|ids| - 1], ids[|ids| - 1];
    assert ids == front + [a];
    assert AnswerLinks(ids, u) == AnswerLinks(front, u)[a := u];
  }

  lemma {:induction false} PlaceholderParents(h: Hist, ids: seq<Id>, u: Option<Id>, now: nat)
    requires u.None? ==> forall a :: a in ids ==> Unlisted(h.messages, a)
    ensures Parents(AddPlaceholders(h, ids, u, now).messages) == Parents(h.messages) + AnswerLinks(ids, u)
    ensures forall b :: Unlisted(h.messages, b) ==> Unlisted(AddPlaceholders(h, ids, u, now).messages, b)
    decreases |ids|
  {
    if ids == [] {
      assert AnswerLinks(ids, u) == map[];
    } else {
      var front, a := ids[..|ids| - 1], ids[|ids| - 1];
      PlaceholderParents(h, front, u, now);
      PlaceholderParent(AddPlaceholders(h, front, u, now), a, u, now);
      AnswerLinksStep(Parents(h.messages), ids, u);
    }
  }

  lemma {:induction false} PatchKeepsParents(h: Hist, i: Id, childIds: seq<Id>, now: nat)
    requires i in h.messages
    ensures Parents(Upserted(h, i, ChildrenPatch(childIds), now).messages) == Parents(h.messages)
  {
  }

  lemma {:induction false} LinkingParents(h: Hist, user: Option<Patch>, ids: seq<Id>, now: nat)
    requires NamedUser(user).Some?
    ensures
      var linked := WithAnswerLinks(WithParentLink(WithUser(h, user, now), user, now), user, ids, now);
      Parents(linked.messages) == Parents(WithUser(h, user, now).messages)
  {
    var h1 := WithUser(h, user, now);
    var h2 := WithParentLink(h1, user, now);
    var target := LinkTarget(h1, user);
    if target.Some? {
      PatchKeepsParents(h1, target.value, h1.messages[target.value].childrenIds + [NamedUser(user).value], now);
    }
    var i := NamedUser(user).value;
    if ids != [] && i in h2.messages {
      PatchKeepsParents(h2, i, AppendNew(h2.messages[i].childrenIds, ids), now);
    }
  }

  lemma {:induction false} UserParent(h: Hist, user: Option<Patch>, entries: seq<Id>, now: nat)
    requires IsForest(h.messages) && FollowUpOk(h.messages, user, entries) && UserId(user).Some?
    ensures
      var u := UserId(user).value;
      Parents(WithUser(h, user, now).messages) ==
        Parents(h.messages)[u := if u in h.messages then h.messages[u].parentId else AsSent(user.value).parentId]
  {
    var u := UserId(user).value;
    if u !in h.messages {
      NobodyListsAStranger(h.order, h.messages, u);
    }
  }

  /** Where the user message of a call ends up: where it was, or where it was sent to. */
  ghost function UserPlace(m: Messages, user: Option<Patch>): Option<Id>
    requires UserId(user).Some?
  {
    if UserId(user).value in m then m[UserId(user).value].parentId else AsSent(user.value).parentId
  }

  /** Who hangs below whom after a follow-up: the user message in its place, every
      answer below the user message, everything else unmoved. */
  lemma {:induction false} FollowUpPlacesMessages(h: Hist, user: Option<Patch>, entries: seq<Id>, now: nat)
    requires IsForest(h.messages) && FollowUpOk(h.messages, user, entries)
    ensures
      var before := if UserId(user).Some? then Parents(h.messages)[UserId(user).value := UserPlace(h.messages, user)]
                    else Parents(h.messages);
      Parents(FollowedUp(h, user, entries, now).messages) == before + AnswerLinks(AssistantIds(entries), UserId(user))
  {
    var ids, u := AssistantIds(entries), UserId(user);
    var linked := WithAnswerLinks(WithParentLink(WithUser(h, user, now), user, now), user, ids, now);
    if u.Some? {
      UserParent(h, user, entries, now);
      LinkingParents(h, user, ids, now);
    } else {
      forall a | a in ids ensures Unlisted(h.messages, a) {
        AnswerUnlisted(h.messages, user, entries, a);
      }
    }
    PlaceholderParents(linked, ids, u, now);
  }

  /** A follow-up leaves the cursor on its last answer, where the repair will not
      move it from; without answers the cursor is on a stored message or unmoved. */
  lemma {:induction false} FollowUpCursor(h: Hist, user: Option<Patch>, entries: seq<Id>, now: nat)
    requires now > 0
    ensures
      var h' := FollowedUp(h, user, entries, now);
      var ids := AssistantIds(entries);
      && (ids != [] ==> h'.currentId == Some(ids[|ids| - 1]) && CursorIsSound(h'))
      && (ids == [] ==> h'.currentId == h.currentId || (h'.currentId.Some? && h'.currentId.value in h'.messages))
  {
    var ids := AssistantIds(entries);
    if ids != [] {
      assert ids[|ids| - 1] in ids;
    }
  }

  lemma {:induction false} AnswerUnlisted(m: Messages, user: Option<Patch>, entries: seq<Id>, a: Id)
    requires IsForest(m) && FollowUpOk(m, user, entries) && UserId(user).None? && a in AssistantIds(entries)
    ensures Unlisted(m, a)
  {
    forall p | p in m ensures a !in m[p].childrenIds {
      assert Lists(m, p, a) <==> Names(m, a, p);
    }
  }

  // ------------------------------------------------- a new chat

  /** What a new chat is built from: a parentless user message, or none. */
  ghost predicate NewChatOk(user: Option<Patch>, entries: seq<Id>) {
    && NoDup(AssistantIds(entries))
    && UserId(user) != Some("")
    && (UserId(user).Some? ==> UserId(user).value !in AssistantIds(entries) && AsSent(user.value).parentId == None)
  }

  lemma {:induction false} PutFrame(h: Hist, ids: seq<Id>, u: Option<Id>, now: nat)
    requires h.Valid()
    ensures Extends(h, PutPlaceholders(h, ids, u, now), Elements(ids))
    decreases |ids|
  {
    if ids != [] {
      var front, a := ids[..|ids| - 1], ids[|ids| - 1];
      var before := PutPlaceholders(h, front, u, now);
      PutFrame(h, front, u, now);
      PutExtends(before, a, AsSent(Placeholder(a, u, now)));
      ExtendsFurther(h, before, PutPlaceholders(h, ids, u, now), Elements(front), a);
      assert Elements(ids) == Elements(front) + {a};
    }
  }

  lemma {:induction false} PutAnswer(h: Hist, a: Id, u: Option<Id>, now: nat, pending: set<Id>)
    requires AlmostForest(h.messages, u, pending) && a !in h.messages
    requires u.Some? ==> u.value in h.messages && a in pending
    ensures AlmostForest(Put(h, a, AsSent(Placeholder(a, u, now))).messages, u, pending - {a})
  {
    StorePending(h.messages, u, pending, a, AsSent(Placeholder(a, u, now)));
  }

  lemma {:induction false} LastPutReady(h: Hist, ids: seq<Id>, u: Option<Id>, now: nat, pending: set<Id>)
    requires h.Valid() && ids != [] && NoDup(ids) && (forall a :: a in ids ==> a !in h.messages)
    requires u.Some? ==> u.value in h.messages && Elements(ids) <= pending
    ensures
      var front, a := ids[..|ids| - 1], ids[|ids| - 1];
      var m := PutPlaceholders(h, front, u, now).messages;
      && NoDup(front) && (forall x :: x in front ==> x !in h.messages)
      && (u.Some? ==> Elements(front) <= pending)
      && a !in m && (u.Some? ==> u.value in m && a in pending - Elements(front))
  {
    var front, a := ids[..|ids| - 1], ids[|ids| - 1];
    PutFrame(h, front, u, now);
    assert a !in front && a in Elements(ids);
    assert forall x :: x in front ==> x in ids && x in Elements(ids);
  }

  lemma {:induction false} PutPlaceholdersKeepForest(h: Hist, ids: seq<Id>, u: Option<Id>, now: nat, pending: set<Id>)
    requires h.Valid() && AlmostForest(h.messages, u, pending) && NoDup(ids)
    requires forall a :: a in ids ==> a !in h.messages
    requires u.Some? ==> u.value in h.messages && Elements(ids) <= pending
    ensures AlmostForest(PutPlaceholders(h, ids, u, now).messages, u, pending - Elements(ids))
    decreases |ids|
  {
    if ids != [] {
      var front, a := ids[..|ids| - 1], ids[|ids| - 1];
      LastPutReady(h, ids, u, now, pending);
      PutPlaceholdersKeepForest(h, front, u, now, pending);
      PutAnswer(PutPlaceholders(h, front, u, now), a, u, now, pending - Elements(front));
      WithoutLast(ids, pending);
    } else {
      assert pending - Elements(ids) == pending;
    }
  }

  /** A single parentless message that lists ids still to be stored. */
  lemma {:induction false} LoneUser(i: Id, x: Message)
    requires x.parentId == None && NoDup(x.childrenIds) && i !in x.childrenIds
    ensures AlmostForest(map[i := x], Some(i), Elements(x.childrenIds))
  {
    var m: Messages := map[i := x];
    var g := Parents(m);
    assert Up(g, i, 1) == None;
    assert Ends(g, i);
    AcyclicIffGrounded(g);
  }

  lemma {:induction false} NobodyAtAll()
    ensures AlmostForest(map[], None, {})
  {
  }

  /** A new chat is a forest holding exactly the user message and its answers. */
  lemma {:induction false} NewChatIsForest(user: Option<Patch>, entries: seq<Id>, now: nat)
    requires NewChatOk(user, entries)
    ensures
      var h := NewChat(user, entries, now);
      && h.Valid() && IsForest(h.messages)
      && h.messages.Keys == Elements(AssistantIds(entries)) + (if UserId(user).Some? then {UserId(user).value} else {})
  {
    var ids, u := AssistantIds(entries), UserId(user);
    var start, pending := Hist([], map[], None), {};
    if u.Some? {
      var x := AsSent(user.value).(childrenIds := ids);
      start, pending := Hist([u.value], map[u.value := x], None), Elements(ids);
      LoneUser(u.value, x);
    } else {
      NobodyAtAll();
    }
    PutPlaceholdersKeepForest(start, ids, u, now, pending);
    PutFrame(start, ids, u, now);
    assert pending - Elements(ids) == {};
    NothingPending(NewChat(user, entries, now).messages, u);
  }

  /** The cursor of a new chat is null exactly when it is empty, and else present. */
  lemma {:induction false} NewChatCursor(user: Option<Patch>, entries: seq<Id>, now: nat)
    requires NewChatOk(user, entries)
    ensures
      var h := NewChat(user, entries, now);
      && (h.currentId.Some? <==> h.messages != map[])
      && (h.currentId.Some? ==> h.currentId.value in h.messages)
  {
    var ids := AssistantIds(entries);
    var h := NewChat(user, entries, now);
    NewChatIsForest(user, entries, now);
    assert ids != [] ==> ids[0] in Elements(ids);
    assert h.messages == map[] <==> h.messages.Keys == {};
  }

  // ------------------------------------------------- runs

  datatype Event =
    | FollowUpEvent(user: Option<Patch>, entries: seq<Id>, now: nat)
    | DeleteEvent(id: Id)
    | RepairEvent
    | MergeEvent(incoming: Hist)

  /** One request handled on one chat. */
  ghost predicate Step(h: Hist, e: Event, h': Hist) {
    match e
    case FollowUpEvent(user, entries, now) =>
      now > 0 && FollowUpOk(h.messages, user, entries) && h' == FollowedUp(h, user, entries, now)
    case DeleteEvent(id) =>
      if id in h.messages then IsDeletion(h, id, h') else h' == h
    case RepairEvent =>
      IsRepair(h, h')
    case MergeEvent(incoming) =>
      && incoming.Valid() && Closed(Parents(incoming.messages)) && Acyclic(Parents(incoming.messages))
      && h' == Merged(h, incoming)
  }

  /** A chat from its creation on: `states[k + 1]` follows `states[k]` by `events[k]`. */
  ghost predicate IsRun(user: Option<Patch>, entries: seq<Id>, now: nat, events: seq<Event>, states: seq<Hist>) {
    && NewChatOk(user, entries)
    && |states| == |events| + 1
    && states[0] == NewChat(user, entries, now)
    && forall k :: 0 <= k < |events| ==> Step(states[k], events[k], states[k + 1])
  }

  ghost predicate Good(h: Hist) {
    && h.Valid()
    && IsForest(h.messages)
    && (h.currentId.Some? ==> h.currentId.value in h.messages)
  }

  lemma {:induction false} RepairKeepsGood(h: Hist, h': Hist)
    requires h.Valid() && (h.currentId.Some? ==> h.currentId.value in h.messages) && IsRepair(h, h')
    ensures h'.messages == h.messages && h'.order == h.order
    ensures h'.currentId.Some? ==> h'.currentId.value in h'.messages
  {
    if !CursorIsSound(h) {
      var best :| RepairsTo(h, best, h'.currentId);
    }
  }

  lemma {:induction false} FollowUpKeepsGood(h: Hist, user: Option<Patch>, entries: seq<Id>, now: nat)
    requires Good(h) && now > 0 && FollowUpOk(h.messages, user, entries)
    ensures Good(FollowedUp(h, user, entries, now))
  {
    FollowUpKeepsForest(h, user, entries, now);
    FollowUpCursor(h, user, entries, now);
  }

  lemma {:induction false} StepKeepsGood(h: Hist, e: Event, h': Hist)
    requires Good(h) && Step(h, e, h')
    ensures Good(h')
  {
    match e
    case FollowUpEvent(user, entries, now) =>
      FollowUpKeepsGood(h, user, entries, now);
    case DeleteEvent(id) =>
      if id in h.messages {
        DeleteKeepsForest(h.messages, id);
        DeleteKeepsDict(h, id, h');
        DeleteLeavesCursorOnLeaf(h, id, h');
      }
    case RepairEvent =>
      RepairKeepsGood(h, h');
    case MergeEvent(incoming) =>
      MergeKeepsForest(h, incoming);
      MergedIsDict(h, incoming);
      MergeRebuildsLinks(h, incoming);
  }

  lemma {:induction false} RunStepKeepsGood(user: Option<Patch>, entries: seq<Id>, now: nat, events: seq<Event>, states: seq<Hist>, k: nat)
    requires IsRun(user, entries, now, events, states) && k < |events| && Good(states[k])
    ensures Good(states[k + 1])
  {
    StepKeepsGood(states[k], events[k], states[k + 1]);
  }

  /** In every run, after every request, the history is a forest and the cursor is
      null or on a stored message. */
  lemma {:induction false} RunsKeepForest(user: Option<Patch>, entries: seq<Id>, now: nat, events: seq<Event>, states: seq<Hist>, k: nat)
    requires IsRun(user, entries, now, events, states) && k < |states|
    ensures Good(states[k])
    decreases k
  {
    if k == 0 {
      NewChatIsForest(user, entries, now);
      NewChatCursor(user, entries, now);
    } else {
      RunsKeepForest(user, entries, now, events, states, k - 1);
      RunStepKeepsGood(user, entries, now, events, states, k - 1);
    }
  }

  /** Every deletion met in a run terminates, so the class method may be called. */
  lemma {:induction false} RunsCanDelete(user: Option<Patch>, entries: seq<Id>, now: nat, events: seq<Event>, states: seq<Hist>, k: nat, id: Id)
    requires IsRun(user, entries, now, events, states) && k < |states| && id in states[k].messages
    ensures DeletionHalts(states[k], id)
  {
    RunsKeepForest(user, entries, now, events, states, k);
    DeleteTerminates(states[k], id);
  }

  /** A repair never loses the cursor: in a non-empty forest whose messages all have
      a role and a non-blank id, the cursor is on a stored message afterwards,
      wherever it was before. */
  lemma {:induction false} RepairRestoresCursor(h: Hist, h': Hist)
    requires h.Valid() && IsForest(h.messages) && h.messages != map[] && IsRepair(h, h')
    requires forall i :: i in h.messages ==> i != "" && h.messages[i].role != ""
    ensures h'.currentId.Some? && h'.currentId.value in h.messages
  {
    if !CursorIsSound(h) {
      var best :| RepairsTo(h, best, h'.currentId);
      var i :| i in h.messages;
      ForestLeadsDown(h.messages);
      var n := DescentEnds(h.messages, i, 0, i);
      assert IsLeafWithRole(h.messages, Walk(h.messages, i, n));
      assert Walk(h.messages, i, n) in h.order;
    }
  }

  lemma {:induction false} LatestLeafIsUnique(order: seq<Id>, m: Messages, a: Option<Id>, b: Option<Id>)
    requires IsLatestLeaf(order, m, a) && IsLatestLeaf(order, m, b)
    ensures a == b
  {
  }

  /** Repairing a second time moves nothing. */
  lemma {:induction false} RepairIsIdempotent(h: Hist, h': Hist, h'': Hist)
    requires IsRepair(h, h') && IsRepair(h', h'')
    ensures h'' == h'
  {
    if !CursorIsSound(h) && !CursorIsSound(h') {
      var a :| RepairsTo(h, a, h'.currentId);
      var b :| RepairsTo(h', b, h''.currentId);
      LatestLeafIsUnique(h.order, h.messages, a, b);
    }
  }
}
