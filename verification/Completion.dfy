/**
 How the chat-completion handler builds a new chat and extends an existing one.
 A follow-up is several separate upserts; between them a parent may list children
 that are not stored yet, and a message may name a parent that does not list it.
 */
module Completion {
  import opened Prelude
  import opened Forest
  import opened History

  /** `[entry['message_id'] for entry in message_ids if entry.get('message_id')]` */
  function AssistantIds(entries: seq<Id>): seq<Id> {
    Drop(entries, {""})
  }

  function Placeholder(id: Id, parent: Option<Id>, now: nat): Patch {
    Patch(Some(id), Some(parent), Some([]), Some("assistant"), Some(now), None, Some(""))
  }

  function ChildrenPatch(ids: seq<Id>): Patch {
    Patch(None, None, Some(ids), None, None, None, None)
  }

  /** `metadata['user_message_id']` */
  function UserId(user: Option<Patch>): Option<Id> {
    if user.Some? then user.value.id else None
  }

  /** `user_message_id` when it is truthy. */
  function NamedUser(user: Option<Patch>): (r: Option<Id>)
    ensures r.Some? ==> user.Some? && user.value.id == r && r.value != ""
  {
    if UserId(user).Some? && UserId(user).value != "" then UserId(user) else None
  }

  /** A message dict as the client sent it. */
  function AsSent(p: Patch): Message {
    Message(Or(p.id, ""), Or(p.parentId, None), Or(p.childrenIds, []), Or(p.role, ""), Or(p.timestamp, 0),
            Or(p.outputRole, ""), Or(p.content, ""))
  }

  // ---------------------------------------------------------------- a new chat

  /** `history_messages[id] = message` */
  function Put(h: Hist, id: Id, m: Message): Hist {
    h.(order := if id in h.messages then h.order else h.order + [id], messages := h.messages[id := m])
  }

  function PutPlaceholders(h: Hist, ids: seq<Id>, parent: Option<Id>, now: nat): Hist
    decreases |ids|
  {
    if ids == [] then h
    else
      var id := ids[|ids| - 1];
      Put(PutPlaceholders(h, ids[..|ids| - 1], parent, now), id, AsSent(Placeholder(id, parent, now)))
  }

  /** The history a new chat is inserted with. */
  function NewChat(user: Option<Patch>, entries: seq<Id>, now: nat): Hist {
    var ids := AssistantIds(entries);
    var named := NamedUser(user);
    var start := if named.Some?
                 then Hist([named.value], map[named.value := AsSent(user.value).(childrenIds := ids)], None)
                 else Hist([], map[], None);
    PutPlaceholders(start, ids, UserId(user), now).(currentId := if ids != [] then Some(ids[0]) else UserId(user))
  }

  /** The handler's branch for a new chat. */
  method BuildNewChat(user: Option<Patch>, entries: seq<Id>, now: nat) returns (h: Hist)
    ensures h == NewChat(user, entries, now)
  {
    var ids := AssistantIds(entries);
    var named := NamedUser(user);
    h := Hist([], map[], None);
    if named.Some? {
      h := Put(h, named.value, AsSent(user.value).(childrenIds := ids));
      assert h.order == [named.value];
    }
    ghost var start := h;
    for k := 0 to |entries|
      invariant h == PutPlaceholders(start, AssistantIds(entries[..k]), UserId(user), now)
    {
      AssistantIdsStep(entries, k);
      if entries[k] != "" {
        h := Put(h, entries[k], AsSent(Placeholder(entries[k], UserId(user), now)));
      }
    }
    assert entries[..|entries|] == entries;
    h := h.(currentId := if ids != [] then Some(ids[0]) else UserId(user));
  }

  // ---------------------------------------------------------------- a follow-up

  function AddPlaceholders(h: Hist, ids: seq<Id>, parent: Option<Id>, now: nat): Hist
    decreases |ids|
  {
    if ids == [] then h
    else
      var id := ids[|ids| - 1];
      Upserted(AddPlaceholders(h, ids[..|ids| - 1], parent, now), id, Placeholder(id, parent, now), now)
  }

  /** Upsert the user message. */
  function WithUser(h: Hist, user: Option<Patch>, now: nat): Hist {
    if NamedUser(user).Some? then Upserted(h, NamedUser(user).value, user.value, now) else h
  }

  /** The message that the user message hangs from, if the handler has to link it. */
  function LinkTarget(h: Hist, user: Option<Patch>): (r: Option<Id>)
    ensures r.Some? ==> r.value in h.messages
  {
    var named := NamedUser(user);
    if named.None? then None
    else
      var parent := Or(user.value.parentId, None);
      if parent.Some? && parent.value != "" && parent.value in h.messages
         && named.value !in h.messages[parent.value].childrenIds
      then parent else None
  }

  /** Link the parent to the user message. */
  function WithParentLink(h: Hist, user: Option<Patch>, now: nat): Hist {
    var target := LinkTarget(h, user);
    if target.Some?
    then Upserted(h, target.value, ChildrenPatch(h.messages[target.value].childrenIds + [NamedUser(user).value]), now)
    else h
  }

  /** `for a in ids: if a not in child_ids: child_ids.append(a)` */
  function AppendNew(childIds: seq<Id>, ids: seq<Id>): (r: seq<Id>)
    ensures forall c :: c in r <==> c in childIds || c in ids
    decreases |ids|
  {
    if ids == [] then childIds
    else
      var rest := AppendNew(childIds, ids[..|ids| - 1]);
      if ids[|ids| - 1] in rest then rest else rest + [ids[|ids| - 1]]
  }

  lemma {:induction false} AppendNewNoDup(childIds: seq<Id>, ids: seq<Id>)
    requires NoDup(childIds)
    ensures NoDup(AppendNew(childIds, ids))
    decreases |ids|
  {
    if ids != [] {
      AppendNewNoDup(childIds, ids[..|ids| - 1]);
    }
  }

  /** Link the user message to all its answers. */
  function WithAnswerLinks(h: Hist, user: Option<Patch>, ids: seq<Id>, now: nat): Hist {
    var named := NamedUser(user);
    if named.Some? && ids != [] && named.value in h.messages
    then Upserted(h, named.value, ChildrenPatch(AppendNew(h.messages[named.value].childrenIds, ids)), now)
    else h
  }

  function FollowedUp(h: Hist, user: Option<Patch>, entries: seq<Id>, now: nat): Hist {
    var ids := AssistantIds(entries);
    var linked := WithAnswerLinks(WithParentLink(WithUser(h, user, now), user, now), user, ids, now);
    AddPlaceholders(linked, ids, UserId(user), now)
  }

  /** One call of the upsert endpoint: the cursor repair runs before the upsert. */
  method SaveMessage(c: ChatHistory, id: Id, p: Patch, now: nat)
    modifies c
    ensures c.Snapshot() == Upserted(old(c.Snapshot()), id, p, now)
  {
    var _ := c.RepairCurrentId();
    var _ := c.UpsertMessage(id, p, now);
  }

  method SavePlaceholders(c: ChatHistory, entries: seq<Id>, parent: Option<Id>, now: nat)
    modifies c
    ensures c.Snapshot() == AddPlaceholders(old(c.Snapshot()), AssistantIds(entries), parent, now)
  {
    for k := 0 to |entries|
      invariant c.Snapshot() == AddPlaceholders(old(c.Snapshot()), AssistantIds(entries[..k]), parent, now)
    {
      AssistantIdsStep(entries, k);
      if entries[k] != "" {
        SaveMessage(c, entries[k], Placeholder(entries[k], parent, now), now);
      }
    }
    assert entries[..|entries|] == entries;
  }

  lemma {:induction false} AssistantIdsStep(entries: seq<Id>, k: nat)
    requires k < |entries|
    ensures
      var before, after := AssistantIds(entries[..k]), AssistantIds(entries[..k + 1]);
      if entries[k] == "" then after == before
      else after != [] && after[|after| - 1] == entries[k] && after[..|after| - 1] == before
  {
    assert entries[..k + 1][..k] == entries[..k];
  }

  /** The handler's branch for an existing chat. */
  method FollowUp(c: ChatHistory, user: Option<Patch>, entries: seq<Id>, now: nat)
    modifies c
    ensures c.Snapshot() == FollowedUp(old(c.Snapshot()), user, entries, now)
  {
    var named := NamedUser(user);
    if named.Some? {
      SaveMessage(c, named.value, user.value, now);
      var target := LinkTarget(Hist(c.order, c.messages, c.currentId), user);
      if target.Some? {
        SaveMessage(c, target.value, ChildrenPatch(c.messages[target.value].childrenIds + [named.value]), now);
      }
    }
    var ids := AssistantIds(entries);
    if named.Some? && ids != [] && named.value in c.messages {
      var childIds := c.messages[named.value].childrenIds;
      ghost var before := childIds;
      ghost var h := c.Snapshot();
      for k := 0 to |ids|
        invariant c.Snapshot() == h
        invariant childIds == AppendNew(before, ids[..k])
      {
        assert ids[..k + 1][..k] == ids[..k];
        if ids[k] !in childIds {
          childIds := childIds + [ids[k]];
        }
      }
      assert ids[..|ids|] == ids;
      SaveMessage(c, named.value, ChildrenPatch(childIds), now);
    }
    SavePlaceholders(c, entries, UserId(user), now);
  }
}
