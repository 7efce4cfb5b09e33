/**
 What the messages hold after an upsert, a new chat and a follow-up, in what order the
 children stand, and which messages the cursor repair may choose.
 */
module Contents {
  import opened Prelude
  import opened Forest
  import opened History
  import opened Completion
  import opened Runs

  // ---------------------------------------------------------------- an upsert

  /** The first message in dict order that lists `id`. */
  ghost predicate FirstLister(h: Hist, id: Id, p: Id) {
    exists k :: 0 <= k < |h.order| && h.order[k] == p && Lists(h.messages, p, id)
      && forall j :: 0 <= j < k ==> !Lists(h.messages, h.order[j], id)
  }

  lemma {:induction false} AdopterIsFirst(order: seq<Id>, m: Messages, id: Id) returns (k: int)
    requires Adopter(order, m, id).Some?
    ensures 0 <= k < |order| && order[k] == Adopter(order, m, id).value && Lists(m, order[k], id)
    ensures forall j :: 0 <= j < k ==> !Lists(m, order[j], id)
    decreases |order|
  {
    if Lists(m, order[0], id) {
      k := 0;
    } else {
      var rest := AdopterIsFirst(order[1..], m, id);
      k := rest + 1;
      assert forall j :: 1 <= j < k ==> order[j] == order[1..][j - 1];
    }
  }

  /** An upsert of a stored message writes exactly the keys that are given. */
  lemma {:induction false} PatchWritesGivenKeys(h: Hist, id: Id, p: Patch, now: nat)
    requires id in h.messages
    ensures
      var h' := Upserted(h, id, p, now);
      var was, is_ := h.messages[id], h'.messages[id];
      && h'.order == h.order && h'.currentId == Some(id) && h'.messages.Keys == h.messages.Keys
      && (forall j :: j in h.messages && j != id ==> h'.messages[j] == h.messages[j])
      && (if p.content.Some? then is_.content == p.content.value else is_.content == was.content)
      && (if p.role.Some? then is_.role == p.role.value else is_.role == was.role)
      && (if p.timestamp.Some? then is_.timestamp == p.timestamp.value else is_.timestamp == was.timestamp)
      && (if p.parentId.Some? then is_.parentId == p.parentId.value else is_.parentId == was.parentId)
      && (if p.childrenIds.Some? then is_.childrenIds == p.childrenIds.value else is_.childrenIds == was.childrenIds)
      && (if p.outputRole.Some? then is_.outputRole == p.outputRole.value else is_.outputRole == was.outputRole)
      && (if p.id.Some? then is_.id == p.id.value else is_.id == was.id)
  {
  }

  /** An upsert of a new message appends it: content and children as given, the clock for
      a missing time, the given parent or the first message that lists it, and a role
      that is given, that of the output, or the other side of the parent's. */
  lemma {:induction false} NewMessageIsFilledIn(h: Hist, id: Id, p: Patch, now: nat)
    requires id !in h.messages
    ensures
      var h' := Upserted(h, id, p, now);
      && h'.order == h.order + [id] && h'.currentId == Some(id) && h'.messages.Keys == h.messages.Keys + {id}
      && (forall j :: j in h.messages ==> h'.messages[j] == h.messages[j])
      && var x := h'.messages[id];
      && x.content == (if p.content.Some? then p.content.value else "")
      && x.childrenIds == (if p.childrenIds.Some? then p.childrenIds.value else [])
      && x.id == (if p.id.Some? && p.id.value != "" then p.id.value else id)
      && x.timestamp == (if p.timestamp.Some? && p.timestamp.value != 0 then p.timestamp.value else now)
      && (p.parentId.Some? && p.parentId.value.Some? ==> x.parentId == p.parentId.value)
      && (p.parentId.None? || p.parentId.value.None? ==>
            if x.parentId.Some? then FirstLister(h, id, x.parentId.value) else forall i :: i in h.order ==> !Lists(h.messages, i, id))
      && (p.role.Some? && p.role.value != "" ==> x.role == p.role.value)
      && (p.role.None? || p.role.value == "" ==>
            && (p.outputRole.Some? && p.outputRole.value != "" ==> x.role == p.outputRole.value)
            && (p.outputRole.None? || p.outputRole.value == "" ==>
                  x.role == if x.parentId.Some? && x.parentId.value != "" && x.parentId.value in h.messages
                               && h.messages[x.parentId.value].role == "assistant" then "user" else "assistant"))
  {
    if Adopter(h.order, h.messages, id).Some? {
      var k := AdopterIsFirst(h.order, h.messages, id);
    }
  }

  // ---------------------------------------------------------------- a new chat

  /** An empty answer of the assistant below `parent`. */
  ghost predicate IsPlaceholder(x: Message, id: Id, parent: Option<Id>, now: nat) {
    x.id == id && x.parentId == parent && x.childrenIds == [] && x.role == "assistant" && x.content == "" && x.timestamp == now
  }

  lemma {:induction false} PutContents(h: Hist, ids: seq<Id>, parent: Option<Id>, now: nat)
    requires h.Valid() && NoDup(ids) && forall a :: a in ids ==> a !in h.messages
    ensures PutPlaceholders(h, ids, parent, now).order == h.order + ids
    ensures forall a :: a in ids ==>
      a in PutPlaceholders(h, ids, parent, now).messages && IsPlaceholder(PutPlaceholders(h, ids, parent, now).messages[a], a, parent, now)
    decreases |ids|
  {
    if ids == [] {
      assert h.order + ids == h.order;
    } else {
      var front, a := ids[..|ids| - 1], ids[|ids| - 1];
      assert ids == front + [a] && a !in front;
      PutContents(h, front, parent, now);
      PutFrame(h, front, parent, now);
      assert h.order + ids == (h.order + front) + [a];
    }
  }

  /** A new chat: the user message as it was sent, listing the answers in their order,
      then the empty answers; the cursor on the first of them, or else on the user message. */
  lemma {:induction false} NewChatContents(user: Option<Patch>, entries: seq<Id>, now: nat)
    requires NewChatOk(user, entries)
    ensures
      var h, ids, u := NewChat(user, entries, now), AssistantIds(entries), UserId(user);
      && h.order == (if u.Some? then [u.value] else []) + ids
      && h.currentId == (if ids != [] then Some(ids[0]) else u)
      && (forall a :: a in ids ==> a in h.messages && IsPlaceholder(h.messages[a], a, u, now))
      && (u.Some? ==>
            && u.value in h.messages
            && var x := h.messages[u.value];
            && x.id == u.value && x.parentId == None && x.childrenIds == ids
            && x.content == (if user.value.content.Some? then user.value.content.value else "")
            && x.role == (if user.value.role.Some? then user.value.role.value else "")
            && x.timestamp == (if user.value.timestamp.Some? then user.value.timestamp.value else 0))
  {
    var ids, u := AssistantIds(entries), UserId(user);
    var nobody := Hist([], map[], None);
    if u.Some? {
      var start := Hist([u.value], map[u.value := AsSent(user.value).(childrenIds := ids)], None);
      PutContents(start, ids, u, now);
      PutFrame(start, ids, u, now);
    } else {
      PutContents(nobody, ids, u, now);
      PutFrame(nobody, ids, u, now);
      assert [] + ids == ids;
    }
  }

  // ---------------------------------------------------------------- a follow-up

  lemma {:induction false} PlaceholderStored(h: Hist, a: Id, u: Option<Id>, now: nat)
    requires a != "" && now > 0 && (u.None? ==> Unlisted(h.messages, a))
    ensures
      var h' := Upserted(h, a, Placeholder(a, u, now), now);
      a in h'.messages && IsPlaceholder(h'.messages[a], a, u, now)
  {
    PlaceholderParent(h, a, u, now);
    var h' := Upserted(h, a, Placeholder(a, u, now), now);
    assert Parents(h'.messages)[a] == h'.messages[a].parentId;
  }

  lemma {:induction false} PlaceholderContents(h: Hist, ids: seq<Id>, u: Option<Id>, now: nat)
    requires h.Valid() && NoDup(ids) && now > 0 && "" !in ids
    requires u.None? ==> forall a :: a in ids ==> Unlisted(h.messages, a)
    ensures forall a :: a in ids ==>
      a in AddPlaceholders(h, ids, u, now).messages && IsPlaceholder(AddPlaceholders(h, ids, u, now).messages[a], a, u, now)
    decreases |ids|
  {
    if ids != [] {
      var front, a := ids[..|ids| - 1], ids[|ids| - 1];
      assert ids == front + [a] && a !in front && a in ids;
      var before := AddPlaceholders(h, front, u, now);
      PlaceholderContents(h, front, u, now);
      PlaceholdersFrame(h, front, u, now);
      PlaceholderParents(h, front, u, now);
      PlaceholderStored(before, a, u, now);
      UpsertExtends(before, a, Placeholder(a, u, now), now);
    }
  }

  /** The list that answers are appended to: what was sent, or what is stored. */
  ghost function ListBefore(m: Messages, user: Patch, u: Id): seq<Id> {
    if user.childrenIds.Some? then user.childrenIds.value else if u in m then m[u].childrenIds else []
  }

  lemma {:induction false} AppendNewKeeps(childIds: seq<Id>, ids: seq<Id>)
    ensures childIds <= AppendNew(childIds, ids)
    ensures NoDup(ids) ==> forall a, b :: a in ids && b in ids && a !in childIds && b !in childIds ==>
      (Before(AppendNew(childIds, ids), a, b) <==> Before(ids, a, b))
    decreases |ids|
  {
    if ids == [] {
    } else {
      var front, x := ids[..|ids| - 1], ids[|ids| - 1];
      AppendNewKeeps(childIds, front);
      if NoDup(ids) {
        assert ids == front + [x] && x !in front;
        forall a, b | a in ids && b in ids && a !in childIds && b !in childIds
          ensures Before(AppendNew(childIds, ids), a, b) <==> Before(ids, a, b)
        {
          AppendOneKeeps(childIds, front, x, a, b);
        }
      }
    }
  }

  lemma {:induction false} AppendOneKeeps(childIds: seq<Id>, front: seq<Id>, x: Id, a: Id, b: Id)
    requires x !in front && a in front + [x] && b in front + [x] && a !in childIds && b !in childIds
    requires a in front && b in front ==> (Before(AppendNew(childIds, front), a, b) <==> Before(front, a, b))
    ensures Before(AppendNew(childIds, front + [x]), a, b) <==> Before(front + [x], a, b)
  {
    assert (front + [x])[..|front|] == front;
    var rest := AppendNew(childIds, front);
    BeforeSnoc(front, x, a, b);
    BeforeSnoc(rest, x, a, b);
    assert Before(front, a, b) ==> a in front && b in front;
    assert Before(rest, a, b) ==> a in rest && b in rest;
  }

  /** The user message of a follow-up, before the answers are stored. */
  lemma {:induction false} LinkedUser(h: Hist, user: Option<Patch>, entries: seq<Id>, now: nat)
    requires h.Valid() && IsForest(h.messages) && FollowUpOk(h.messages, user, entries) && UserId(user).Some?
    ensures
      var u, ids := UserId(user).value, AssistantIds(entries);
      var linked := WithAnswerLinks(WithParentLink(WithUser(h, user, now), user, now), user, ids, now);
      && u in linked.messages
      && linked.messages[u].childrenIds == AppendNew(ListBefore(h.messages, user.value, u), ids)
      && (forall i :: i in h.messages && i != u && (u in h.messages || AsSent(user.value).parentId != Some(i)) ==>
            i in linked.messages && linked.messages[i] == h.messages[i])
  {
    var u, ids := UserId(user).value, AssistantIds(entries);
    var h1 := WithUser(h, user, now);
    var h2 := WithParentLink(h1, user, now);
    if u in h.messages {
      var pending := KnownUser(h, user, entries, now);
    }
    var target := LinkTarget(h1, user);
    assert target != Some(u);
  }

  /** The user message, or the message that a new one is sent below. */
  ghost predicate Touches(m: Messages, user: Option<Patch>, i: Id) {
    UserId(user).Some? && (UserId(user).value == i || (UserId(user).value !in m && AsSent(user.value).parentId == Some(i)))
  }

  /** What a follow-up writes: every answer is empty and below the user message; the user
      message lists what it listed, then the new answers in the order of the call; its
      parent lists what it listed, then a new user message; nothing else changes. */
  lemma {:induction false} FollowUpContents(h: Hist, user: Option<Patch>, entries: seq<Id>, now: nat)
    requires h.Valid() && IsForest(h.messages) && now > 0 && FollowUpOk(h.messages, user, entries)
    ensures
      var h', ids := FollowedUp(h, user, entries, now), AssistantIds(entries);
      && (forall a :: a in ids ==> a in h'.messages && IsPlaceholder(h'.messages[a], a, UserId(user), now))
      && (UserId(user).Some? ==>
            var u := UserId(user).value;
            var before := ListBefore(h.messages, user.value, u);
            && u in h'.messages && before <= h'.messages[u].childrenIds
            && (forall a, b :: a in ids && b in ids && a !in before && b !in before ==>
                  (Before(h'.messages[u].childrenIds, a, b) <==> Before(ids, a, b))))
      && (forall i :: i in h.messages && i !in ids && !Touches(h.messages, user, i) ==>
            i in h'.messages && h'.messages[i] == h.messages[i])
  {
    var ids, u := AssistantIds(entries), UserId(user);
    var linked := WithAnswerLinks(WithParentLink(WithUser(h, user, now), user, now), user, ids, now);
    if u.Some? {
      LinkedUser(h, user, entries, now);
      UserAndAnswersLinked(h, user, entries, now);
      AppendNewKeeps(ListBefore(h.messages, user.value, u.value), ids);
    } else {
      forall a | a in ids ensures Unlisted(h.messages, a) {
        AnswerUnlisted(h.messages, user, entries, a);
      }
    }
    PlaceholderContents(linked, ids, u, now);
    PlaceholdersFrame(linked, ids, u, now);
  }

  /** The rest of a follow-up on a new user message: it is stored as sent, its parent lists
      it last, and all other messages stay. */
  lemma {:induction false} NewUserIsAppended(h: Hist, user: Option<Patch>, entries: seq<Id>, now: nat)
    requires h.Valid() && IsForest(h.messages) && now > 0 && FollowUpOk(h.messages, user, entries)
    requires UserId(user).Some? && UserId(user).value !in h.messages
    ensures
      var h', u, ids := FollowedUp(h, user, entries, now), UserId(user).value, AssistantIds(entries);
      var sent := AsSent(user.value);
      && u in h'.messages && h'.messages[u].content == sent.content && h'.messages[u].parentId == sent.parentId
      && (sent.role != "" ==> h'.messages[u].role == sent.role)
      && (sent.timestamp != 0 ==> h'.messages[u].timestamp == sent.timestamp)
      && (forall i :: i in h.messages && i !in ids ==>
            && i in h'.messages
            && h'.messages[i] == if sent.parentId == Some(i) then h.messages[i].(childrenIds := h.messages[i].childrenIds + [u]) else h.messages[i])
  {
    var ids, u := AssistantIds(entries), UserId(user).value;
    var linked := WithAnswerLinks(WithParentLink(WithUser(h, user, now), user, now), user, ids, now);
    NewUserLinked(h, user, entries, now);
    PlaceholdersFrame(linked, ids, Some(u), now);
  }

  lemma {:induction false} NewUserLinked(h: Hist, user: Option<Patch>, entries: seq<Id>, now: nat)
    requires h.Valid() && IsForest(h.messages) && now > 0 && FollowUpOk(h.messages, user, entries)
    requires UserId(user).Some? && UserId(user).value !in h.messages
    ensures
      var u, ids, sent := UserId(user).value, AssistantIds(entries), AsSent(user.value);
      var linked := WithAnswerLinks(WithParentLink(WithUser(h, user, now), user, now), user, ids, now);
      && linked.Valid() && u in linked.messages
      && linked.messages[u].content == sent.content && linked.messages[u].parentId == sent.parentId
      && (sent.role != "" ==> linked.messages[u].role == sent.role)
      && (sent.timestamp != 0 ==> linked.messages[u].timestamp == sent.timestamp)
      && (forall i :: i in h.messages ==>
            && i in linked.messages
            && linked.messages[i] == if sent.parentId == Some(i) then h.messages[i].(childrenIds := h.messages[i].childrenIds + [u]) else h.messages[i])
  {
    var u := UserId(user).value;
    var h1 := WithUser(h, user, now);
    NobodyListsAStranger(h.order, h.messages, u);
    NewUserParentLinked(h, user, entries, now);
    AnswersOnlyList(WithParentLink(h1, user, now), user, AssistantIds(entries), now);
    LinkingKeepsDict(h, user, now);
  }

  lemma {:induction false} AnswersOnlyList(h: Hist, user: Option<Patch>, ids: seq<Id>, now: nat)
    requires h.Valid() && NamedUser(user).Some? && NamedUser(user).value in h.messages
    ensures
      var u, linked := NamedUser(user).value, WithAnswerLinks(h, user, ids, now);
      && linked.Valid() && linked.messages.Keys == h.messages.Keys
      && (forall i :: i in h.messages && i != u ==> linked.messages[i] == h.messages[i])
      && linked.messages[u] == h.messages[u].(childrenIds := linked.messages[u].childrenIds)
  {
  }

  lemma {:induction false} NewUserParentLinked(h: Hist, user: Option<Patch>, entries: seq<Id>, now: nat)
    requires h.Valid() && IsForest(h.messages) && FollowUpOk(h.messages, user, entries)
    requires UserId(user).Some? && UserId(user).value !in h.messages
    ensures
      var u, sent, h1 := UserId(user).value, AsSent(user.value), WithUser(h, user, now);
      var h2 := WithParentLink(h1, user, now);
      && u in h2.messages && h2.messages[u] == h1.messages[u]
      && forall i :: i in h.messages ==>
           && i in h2.messages
           && h2.messages[i] == if sent.parentId == Some(i) then h.messages[i].(childrenIds := h.messages[i].childrenIds + [u]) else h.messages[i]
  {
    var u, h1 := UserId(user).value, WithUser(h, user, now);
    if AsSent(user.value).parentId.Some? {
      var p := AsSent(user.value).parentId.value;
      assert Lists(h.messages, p, u) <==> Names(h.messages, u, p);
      assert LinkTarget(h1, user) == Some(p);
    } else {
      assert LinkTarget(h1, user) == None;
    }
  }

  /** A follow-up on a stored user message writes what was sent of it. */
  lemma {:induction false} KnownUserIsPatched(h: Hist, user: Option<Patch>, entries: seq<Id>, now: nat)
    requires h.Valid() && IsForest(h.messages) && now > 0 && FollowUpOk(h.messages, user, entries)
    requires UserId(user).Some? && UserId(user).value in h.messages
    ensures
      var u, p := UserId(user).value, user.value;
      var was, h' := h.messages[u], FollowedUp(h, user, entries, now);
      && u in h'.messages && h'.messages[u].parentId == was.parentId
      && h'.messages[u].content == (if p.content.Some? then p.content.value else was.content)
      && h'.messages[u].role == (if p.role.Some? then p.role.value else was.role)
      && h'.messages[u].timestamp == (if p.timestamp.Some? then p.timestamp.value else was.timestamp)
  {
    var ids, u := AssistantIds(entries), UserId(user).value;
    var linked := WithAnswerLinks(WithParentLink(WithUser(h, user, now), user, now), user, ids, now);
    KnownUserLinked(h, user, entries, now);
    PlaceholdersFrame(linked, ids, Some(u), now);
  }

  lemma {:induction false} KnownUserLinked(h: Hist, user: Option<Patch>, entries: seq<Id>, now: nat)
    requires h.Valid() && IsForest(h.messages) && now > 0 && FollowUpOk(h.messages, user, entries)
    requires UserId(user).Some? && UserId(user).value in h.messages
    ensures
      var u, ids, p := UserId(user).value, AssistantIds(entries), user.value;
      var was, linked := h.messages[u], WithAnswerLinks(WithParentLink(WithUser(h, user, now), user, now), user, ids, now);
      && linked.Valid() && u in linked.messages && linked.messages[u].parentId == was.parentId
      && linked.messages[u].content == (if p.content.Some? then p.content.value else was.content)
      && linked.messages[u].role == (if p.role.Some? then p.role.value else was.role)
      && linked.messages[u].timestamp == (if p.timestamp.Some? then p.timestamp.value else was.timestamp)
  {
    var pending := KnownUser(h, user, entries, now);
    LinkingKeepsDict(h, user, now);
  }

  // ---------------------------------------------------------------- the cursor repair

  /** A message that the repair leaves the cursor on. */
  ghost predicate MayStay(h: Hist, c: Id) {
    && c in h.messages && h.messages[c].id != "" && h.messages[c].role != ""
    && (h.messages[c].outputRole != "assistant" || h.messages[c].parentId.Some? || h.messages[c].timestamp != 0 || |h.messages| <= 1)
  }

  /** A message that the repair may choose: it has a role and no children. */
  ghost predicate MayBeChosen(h: Hist, i: Id) {
    i in h.messages && h.messages[i].role != "" && h.messages[i].childrenIds == []
  }

  /** Of those that may be chosen none has a later time, and none before it the same. */
  ghost predicate ChosenFirst(h: Hist, t: Id) {
    && MayBeChosen(h, t)
    && forall i :: MayBeChosen(h, i) && i != t ==>
         h.messages[i].timestamp < h.messages[t].timestamp
         || (h.messages[i].timestamp == h.messages[t].timestamp && Before(h.order, t, i))
  }

  /** The repair leaves a cursor that may stay, and moves any other to the latest message
      that may be chosen, if there is one with a name. */
  lemma {:induction false} RepairRule(h: Hist, h': Hist)
    requires h.Valid() && IsRepair(h, h')
    ensures h.currentId.Some? && MayStay(h, h.currentId.value) ==> h'.currentId == h.currentId
    ensures h'.currentId != h.currentId ==> h'.currentId.Some? && ChosenFirst(h, h'.currentId.value)
    ensures !(h.currentId.Some? && MayStay(h, h.currentId.value)) ==>
      forall t :: ChosenFirst(h, t) && t != "" ==> h'.currentId == Some(t)
  {
    if !CursorIsSound(h) {
      var best :| RepairsTo(h, best, h'.currentId);
      LatestIsChosen(h, best);
      forall t | ChosenFirst(h, t) && t != "" ensures h'.currentId == Some(t) {
        assert t in h.order && IsLeafWithRole(h.messages, t);
        ChosenIsOne(h, best.value, t);
      }
    }
  }

  lemma {:induction false} LatestIsChosen(h: Hist, best: Option<Id>)
    requires h.Valid() && IsLatestLeaf(h.order, h.messages, best)
    ensures best.Some? ==> ChosenFirst(h, best.value)
    ensures best.None? ==> forall t :: !MayBeChosen(h, t)
  {
    if best.Some? {
      var k :| 0 <= k < |h.order| && h.order[k] == best.value && IsLeafWithRole(h.messages, best.value)
        && (forall j :: 0 <= j < k && IsLeafWithRole(h.messages, h.order[j]) ==> h.messages[h.order[j]].timestamp < h.messages[best.value].timestamp)
        && (forall j :: k < j < |h.order| && IsLeafWithRole(h.messages, h.order[j]) ==> h.messages[h.order[j]].timestamp <= h.messages[best.value].timestamp);
      forall i | MayBeChosen(h, i) && i != best.value
        ensures h.messages[i].timestamp < h.messages[best.value].timestamp
                || (h.messages[i].timestamp == h.messages[best.value].timestamp && Before(h.order, best.value, i))
      {
        var j := PlaceOf(h, i);
        assert IsLeafWithRole(h.messages, h.order[j]);
        assert j < k || (k < j && Before(h.order, best.value, i));
      }
    } else {
      NothingToChoose(h);
    }
  }

  lemma {:induction false} NothingToChoose(h: Hist)
    requires h.Valid() && IsLatestLeaf(h.order, h.messages, None)
    ensures forall t :: !MayBeChosen(h, t)
  {
    forall t ensures !MayBeChosen(h, t) {
      if t in h.messages {
        var j := PlaceOf(h, t);
        assert h.order[j] in h.order && !IsLeafWithRole(h.messages, h.order[j]);
      }
    }
  }

  lemma {:induction false} PlaceOf(h: Hist, i: Id) returns (j: nat)
    requires h.Valid() && i in h.messages
    ensures j < |h.order| && h.order[j] == i
  {
    assert i in h.order;
    j :| 0 <= j < |h.order| && h.order[j] == i;
  }

  lemma {:induction false} ChosenIsOne(h: Hist, a: Id, b: Id)
    requires h.Valid() && ChosenFirst(h, a) && ChosenFirst(h, b)
    ensures a == b
  {
  }
}
