/**
 The chat history: a dict from message id to message, with the parent stored on
 the child (`parentId`), the children stored on the parent (`childrenIds`), and
 a cursor (`currentId`).
 */
module History {
  import opened Prelude
  import opened Forest

  /** The fields of a message dict that the history code reads or writes. A
      missing or null list is [], a missing or null string is "", a missing or
      null timestamp is 0: the code treats them alike. `outputRole` is the first
      role found in the `output` items. */
  datatype Message = Message(
    id: Id,
    parentId: Option<Id>,
    childrenIds: seq<Id>,
    role: string,
    timestamp: nat,
    outputRole: string,
    content: string)

  type Messages = map<Id, Message>

  /** A Python dict iterates in insertion order: `order` lists the keys of
      `messages` in that order. */
  datatype Hist = Hist(order: seq<Id>, messages: Messages, currentId: Option<Id>) {
    ghost predicate Valid() {
      NoDup(order) && forall i :: i in order <==> i in messages
    }
  }

  /** The parent links of a set of messages. */
  function Parents(m: Messages): (g: Links)
    ensures g.Keys == m.Keys
  {
    map i | i in m :: m[i].parentId
  }

  // ---------------------------------------------------------------- well-formed

  /** `p` lists `c` among its children. */
  ghost predicate Lists(m: Messages, p: Id, c: Id) {
    p in m && c in m[p].childrenIds
  }

  /** `c` names `p` as its parent. */
  ghost predicate Names(m: Messages, c: Id, p: Id) {
    c in m && m[c].parentId == Some(p)
  }

  /** The two directions of every link agree, except that `u` may already list
      the ids in `pending`, which are not stored yet. */
  ghost predicate SymmetricUpTo(m: Messages, u: Option<Id>, pending: set<Id>) {
    forall p, c :: p in m ==>
      (Lists(m, p, c) <==> Names(m, c, p) || (u == Some(p) && c in pending))
  }

  ghost predicate NoRepeats(m: Messages) {
    forall p :: p in m ==> NoDup(m[p].childrenIds)
  }

  /** No dangling parent, `childrenIds` the exact duplicate-free inverse of
      `parentId`, and no cycle. */
  ghost predicate IsForest(m: Messages) {
    && Closed(Parents(m))
    && SymmetricUpTo(m, None, {})
    && NoRepeats(m)
    && Acyclic(Parents(m))
  }

  // ---------------------------------------------------------------- leaf descent

  /** `messages.get(i, {}).get('childrenIds', [])[-1]`, when there is one. */
  function LastChild(m: Messages, i: Id): Option<Id> {
    if i in m && m[i].childrenIds != [] then Some(m[i].childrenIds[|m[i].childrenIds| - 1]) else None
  }

  /** Where `n` steps of the last-child descent lead, stopping early at a leaf. */
  ghost function Walk(m: Messages, i: Id, n: nat): Id
    decreases n
  {
    if n == 0 || LastChild(m, i).None? then i else Walk(m, LastChild(m, i).value, n - 1)
  }

  /** `n` steps are enough for the descent from `i` to stop. */
  ghost predicate RestsWithin(m: Messages, i: Id, n: nat) {
    LastChild(m, Walk(m, i, n)).None?
  }

  /** The descent from `i` terminates. */
  ghost predicate Halts(m: Messages, i: Id) {
    exists n: nat :: RestsWithin(m, i, n)
  }

  /** The descent from `i` stops at `leaf`. */
  ghost predicate StopsAt(m: Messages, i: Id, leaf: Id) {
    exists n: nat :: RestsWithin(m, i, n) && Walk(m, i, n) == leaf
  }

  /** `[id for id, m in messages.items() if m.get('parentId') is None]` */
  function Roots(order: seq<Id>, m: Messages): (r: seq<Id>)
    ensures forall i :: i in r <==> i in order && i in m && m[i].parentId.None?
  {
    if order == [] then []
    else
      var i := order[|order| - 1];
      var rest := Roots(order[..|order| - 1], m);
      if i in m && m[i].parentId.None? then rest + [i] else rest
  }

  // ------------------------------------------------------- delete_message_from_history

  /** `[g for c in cs for g in messages[c]['childrenIds'] if g in messages]` */
  function Grandchildren(m: Messages, cs: seq<Id>): (r: seq<Id>)
    ensures forall g :: g in r ==> g in m
  {
    if cs == [] then []
    else
      var c := cs[|cs| - 1];
      Grandchildren(m, cs[..|cs| - 1]) + (if c in m then Keep(m[c].childrenIds, m.Keys) else [])
  }

  function ChildrenOf(m: Messages, id: Id): seq<Id>
    requires id in m
  {
    Keep(m[id].childrenIds, m.Keys)
  }

  ghost function Dead(m: Messages, id: Id): set<Id>
    requires id in m
  {
    {id} + Elements(ChildrenOf(m, id))
  }

  /** A message that outlives the deletion of `id`. */
  ghost function Survivor(m: Messages, id: Id, i: Id): Message
    requires id in m && i in m
  {
    var grand := Grandchildren(m, ChildrenOf(m, id));
    m[i].(
      parentId := if i in grand then m[id].parentId else m[i].parentId,
      childrenIds := if m[id].parentId == Some(i) then Drop(m[i].childrenIds, {id}) + grand else m[i].childrenIds)
  }

  ghost function Survivors(m: Messages, id: Id): Messages
    requires id in m
  {
    map i | i in m && i !in Dead(m, id) :: Survivor(m, id, i)
  }

  lemma {:induction false} SurvivorsPointwise(m: Messages, m': Messages, id: Id)
    requires id in m && m'.Keys == m.Keys
    requires forall i :: i in m' ==> m'[i] == Survivor(m, id, i)
    ensures m' - Dead(m, id) == Survivors(m, id)
  {
  }

  /** Where the descent after a deletion starts: the deleted message's parent,
      or the last root if it had none. */
  ghost function DescentStart(order: seq<Id>, m: Messages, parent: Option<Id>): Option<Id> {
    if parent.Some? then parent
    else
      var roots := Roots(order, m);
      if roots == [] then None else Some(roots[|roots| - 1])
  }

  /** The cursor that the deletion leaves: the leaf where the descent stops. */
  ghost predicate CursorAt(m: Messages, start: Option<Id>, cursor: Option<Id>) {
    match start
    case None => cursor == None
    case Some(s) => exists leaf :: StopsAt(m, s, leaf) && cursor == (if leaf in m then Some(leaf) else None)
  }

  /** `h'` is what deleting `id` from `h` leaves. */
  ghost predicate IsDeletion(h: Hist, id: Id, h': Hist)
    requires id in h.messages
  {
    && h'.messages == Survivors(h.messages, id)
    && h'.order == Drop(h.order, Dead(h.messages, id))
    && CursorAt(h'.messages, DescentStart(h'.order, h'.messages, h.messages[id].parentId), h'.currentId)
  }

  /** Where the descent after deleting `id` starts. */
  ghost function StartAfter(h: Hist, id: Id): Option<Id>
    requires id in h.messages
  {
    DescentStart(Drop(h.order, Dead(h.messages, id)), Survivors(h.messages, id), h.messages[id].parentId)
  }

  /** Deleting `id` comes to an end. */
  ghost predicate DeletionHalts(h: Hist, id: Id)
    requires id in h.messages
  {
    StartAfter(h, id).Some? ==> Halts(Survivors(h.messages, id), StartAfter(h, id).value)
  }

  // ------------------------------------------------------- upsert_message_to_history

  /** A message argument: None stands for a key that is not there. */
  datatype Patch = Patch(
    id: Option<Id>,
    parentId: Option<Option<Id>>,
    childrenIds: Option<seq<Id>>,
    role: Option<string>,
    timestamp: Option<nat>,
    outputRole: Option<string>,
    content: Option<string>)

  function Or<T>(a: Option<T>, b: T): T {
    if a.Some? then a.value else b
  }

  /** `{**old, **patch}` */
  function Patched(old_: Message, p: Patch): Message {
    Message(
      Or(p.id, old_.id), Or(p.parentId, old_.parentId), Or(p.childrenIds, old_.childrenIds), Or(p.role, old_.role),
      Or(p.timestamp, old_.timestamp), Or(p.outputRole, old_.outputRole), Or(p.content, old_.content))
  }

  /** The first stored message that lists `id`, in dict order. */
  function Adopter(order: seq<Id>, m: Messages, id: Id): (r: Option<Id>)
    ensures r.Some? ==> r.value in order && r.value in m && id in m[r.value].childrenIds
    ensures r.None? ==> forall i :: i in order && i in m ==> id !in m[i].childrenIds
  {
    if order == [] then None
    else if order[0] in m && id in m[order[0]].childrenIds then Some(order[0])
    else Adopter(order[1..], m, id)
  }

  function RoleFor(p: Patch, parentRole: string): (r: string)
    ensures r != ""
  {
    if Or(p.role, "") != "" then Or(p.role, "")
    else if Or(p.outputRole, "") != "" then Or(p.outputRole, "")
    else if parentRole == "assistant" then "user"
    else "assistant"
  }

  /** The message stored for an id that was not there. */
  function Fresh(order: seq<Id>, m: Messages, id: Id, p: Patch, now: nat): Message {
    var given := Or(p.parentId, None);
    var parent := if given.Some? then given else Adopter(order, m, id);
    var parentRole := if parent.Some? && parent.value != "" && parent.value in m then m[parent.value].role else "";
    Message(
      if Or(p.id, "") != "" then Or(p.id, "") else id,
      parent,
      Or(p.childrenIds, []),
      RoleFor(p, parentRole),
      if Or(p.timestamp, 0) != 0 then Or(p.timestamp, 0) else now,
      Or(p.outputRole, ""),
      Or(p.content, ""))
  }

  function Upserted(h: Hist, id: Id, p: Patch, now: nat): Hist {
    if id in h.messages then
      Hist(h.order, h.messages[id := Patched(h.messages[id], p)], Some(id))
    else
      Hist(h.order + [id], h.messages[id := Fresh(h.order, h.messages, id, p, now)], Some(id))
  }

  // ------------------------------------------------------- _repair_chat_current_id

  /** The cursor rests on a stored message that the repair leaves alone. */
  predicate CursorIsSound(h: Hist) {
    && h.currentId.Some?
    && h.currentId.value in h.messages
    && var c := h.messages[h.currentId.value];
    && c.id != "" && c.role != ""
    && !(c.outputRole == "assistant" && c.parentId.None? && c.timestamp == 0 && |h.messages| > 1)
  }

  /** A message the repair may move the cursor to. */
  predicate IsLeafWithRole(m: Messages, i: Id) {
    i in m && m[i].role != "" && m[i].childrenIds == []
  }

  /** `best` is the first leaf of `order`, among those with the largest timestamp. */
  ghost predicate IsLatestLeaf(order: seq<Id>, m: Messages, best: Option<Id>) {
    match best
    case None => forall i :: i in order ==> !IsLeafWithRole(m, i)
    case Some(b) =>
      exists k :: 0 <= k < |order| && order[k] == b && IsLeafWithRole(m, b)
        && (forall j :: 0 <= j < k && IsLeafWithRole(m, order[j]) ==> m[order[j]].timestamp < m[b].timestamp)
        && (forall j :: k < j < |order| && IsLeafWithRole(m, order[j]) ==> m[order[j]].timestamp <= m[b].timestamp)
  }

  lemma {:induction false} LatestLeafExtends(order: seq<Id>, m: Messages, best: Option<Id>, i: Id)
    requires IsLatestLeaf(order, m, best) && (best.Some? ==> best.value in m)
    ensures
      var wins := IsLeafWithRole(m, i) && (best.None? || m[i].timestamp > m[best.value].timestamp);
      IsLatestLeaf(order + [i], m, if wins then Some(i) else best)
  {
    var s := order + [i];
    if IsLeafWithRole(m, i) && (best.None? || m[i].timestamp > m[best.value].timestamp) {
      assert s[|order|] == i;
      if best.Some? {
        assert forall j :: 0 <= j < |order| ==> s[j] == order[j];
      }
    } else if best.Some? {
      var k :| 0 <= k < |order| && order[k] == best.value && IsLeafWithRole(m, best.value)
        && (forall j :: 0 <= j < k && IsLeafWithRole(m, order[j]) ==> m[order[j]].timestamp < m[best.value].timestamp)
        && (forall j :: k < j < |order| && IsLeafWithRole(m, order[j]) ==> m[order[j]].timestamp <= m[best.value].timestamp);
      assert s[k] == best.value;
    }
  }

  /** `cursor` is where the repair of `h` leaves the cursor, `best` being the latest leaf. */
  ghost predicate RepairsTo(h: Hist, best: Option<Id>, cursor: Option<Id>) {
    && IsLatestLeaf(h.order, h.messages, best)
    && cursor == if best.Some? && best.value != "" then best else h.currentId
  }

  /** `h'` is `h` after the cursor repair. */
  ghost predicate IsRepair(h: Hist, h': Hist) {
    && h'.messages == h.messages && h'.order == h.order
    && (CursorIsSound(h) ==> h'.currentId == h.currentId)
    && (!CursorIsSound(h) ==> exists best :: RepairsTo(h, best, h'.currentId))
  }

  // ------------------------------------------------------- the mutable history

  /** The `history` dict of a chat, updated in place. */
  class ChatHistory {
    var order: seq<Id>
    var messages: Messages
    var currentId: Option<Id>

    ghost function Snapshot(): Hist
      reads this
    {
      Hist(order, messages, currentId)
    }

    constructor Load(h: Hist)
      ensures Snapshot() == h
    {
      order, messages, currentId := h.order, h.messages, h.currentId;
    }

    /** `for g in ids: messages[g]['parentId'] = parentId` */
    method SetParents(ids: seq<Id>, parentId: Option<Id>)
      requires forall g :: g in ids ==> g in messages
      modifies this`messages
      ensures messages.Keys == old(messages.Keys)
      ensures forall i :: i in messages ==>
        messages[i] == if i in ids then old(messages)[i].(parentId := parentId) else old(messages)[i]
    {
      for k := 0 to |ids|
        invariant messages.Keys == old(messages.Keys)
        invariant forall i :: i in messages ==>
          messages[i] == if i in ids[..k] then old(messages)[i].(parentId := parentId) else old(messages)[i]
      {
        assert ids[..k + 1] == ids[..k] + [ids[k]];
        messages := messages[ids[k] := messages[ids[k]].(parentId := parentId)];
      }
      assert ids[..|ids|] == ids;
    }

    /** Makes the parent of `id` and the grandchildren of `id` point at each other. */
    method Bypass(id: Id, grandchildIds: seq<Id>)
      requires id in messages && grandchildIds == Grandchildren(messages, ChildrenOf(messages, id))
      modifies this`messages
      ensures messages.Keys == old(messages.Keys)
      ensures forall i :: i in messages ==> messages[i] == Survivor(old(messages), id, i)
    {
      var parentId := messages[id].parentId;
      if parentId.Some? && parentId.value in messages {
        var p := parentId.value;
        messages := messages[p := messages[p].(childrenIds := Drop(messages[p].childrenIds, {id}) + grandchildIds)];
      }
      SetParents(grandchildIds, parentId);
    }

    /** The last-child descent. */
    method Descend(start: Id) returns (leaf: Id)
      requires Halts(messages, start)
      ensures StopsAt(messages, start, leaf)
    {
      leaf := start;
      ghost var total: nat :| RestsWithin(messages, start, total);
      ghost var left: nat := total;
      while LastChild(messages, leaf).Some?
        invariant left <= total
        invariant Walk(messages, start, total) == Walk(messages, leaf, left)
        decreases left
      {
        leaf := LastChild(messages, leaf).value;
        left := left - 1;
      }
    }

    /** Moves the cursor to the leaf where the descent from `parentId` stops. */
    method PlaceCursor(parentId: Option<Id>)
      requires DescentStart(order, messages, parentId).Some? ==> Halts(messages, DescentStart(order, messages, parentId).value)
      modifies this`currentId
      ensures CursorAt(messages, DescentStart(order, messages, parentId), currentId)
    {
      var current := parentId;
      if parentId.None? {
        var roots := Roots(order, messages);
        if roots != [] {
          current := Some(roots[|roots| - 1]);
        }
      }
      if current.Some? {
        var leaf := Descend(current.value);
        currentId := if leaf in messages then Some(leaf) else None;
      } else {
        currentId := None;
      }
    }

    /** Deletes a message with its direct children, hands the grandchildren to the
        deleted message's parent, and moves the cursor to a leaf. */
    method DeleteMessage(id: Id) returns (deletedIds: set<Id>)
      requires Snapshot().Valid()
      requires id in messages ==> DeletionHalts(Snapshot(), id)
      modifies this
      ensures id !in old(messages) ==> deletedIds == {} && Snapshot() == old(Snapshot())
      ensures id in old(messages) ==> deletedIds == Dead(old(messages), id) && IsDeletion(old(Snapshot()), id, Snapshot())
    {
      if id !in messages {
        return {};
      }
      var parentId := messages[id].parentId;
      var childIds := ChildrenOf(messages, id);
      Bypass(id, Grandchildren(messages, childIds));
      deletedIds := {id} + set c | c in childIds;
      SurvivorsPointwise(old(messages), messages, id);
      messages := messages - deletedIds;
      order := Drop(order, deletedIds);
      PlaceCursor(parentId);
    }

    method UpsertMessage(id: Id, p: Patch, now: nat) returns (saved: Message)
      modifies this
      ensures Snapshot() == Upserted(old(Snapshot()), id, p, now)
      ensures saved == messages[id]
    {
      if id in messages {
        messages := messages[id := Patched(messages[id], p)];
      } else {
        var parent := Or(p.parentId, None);
        if parent.None? {
          var k := 0;
          while k < |order| && !(order[k] in messages && id in messages[order[k]].childrenIds)
            invariant 0 <= k <= |order|
            invariant Adopter(order, messages, id) == Adopter(order[k..], messages, id)
          {
            k := k + 1;
          }
          parent := if k < |order| then Some(order[k]) else None;
        }
        var parentRole := if parent.Some? && parent.value != "" && parent.value in messages then messages[parent.value].role else "";
        var m := Message(
          if Or(p.id, "") != "" then Or(p.id, "") else id,
          parent,
          Or(p.childrenIds, []),
          RoleFor(p, parentRole),
          if Or(p.timestamp, 0) != 0 then Or(p.timestamp, 0) else now,
          Or(p.outputRole, ""),
          Or(p.content, ""));
        messages := messages[id := m];
        order := order + [id];
      }
      currentId := Some(id);
      saved := messages[id];
    }

    /** The loop over all messages that picks the leaf with the largest timestamp. */
    method LatestLeaf() returns (latest: Option<Id>)
      ensures IsLatestLeaf(order, messages, latest)
    {
      latest := None;
      var latestTimestamp: int := -1;
      for k := 0 to |order|
        invariant latest.None? ==> latestTimestamp == -1
        invariant latest.Some? ==> latest.value in messages && latestTimestamp == messages[latest.value].timestamp
        invariant IsLatestLeaf(order[..k], messages, latest)
      {
        var i := order[k];
        LatestLeafExtends(order[..k], messages, latest, i);
        assert order[..k + 1] == order[..k] + [i];
        if IsLeafWithRole(messages, i) && messages[i].timestamp > latestTimestamp {
          latest, latestTimestamp := Some(i), messages[i].timestamp;
        }
      }
      assert order[..|order|] == order;
    }

    method RepairCurrentId() returns (changed: bool)
      modifies this`currentId
      ensures IsRepair(old(Snapshot()), Snapshot())
      ensures changed <==> currentId != old(currentId)
    {
      if CursorIsSound(Hist(order, messages, currentId)) {
        return false;
      }
      var latest := LatestLeaf();
      if latest.None? || latest.value == "" || latest == currentId {
        changed := false;
      } else {
        currentId := latest;
        changed := true;
      }
      assert RepairsTo(old(Snapshot()), latest, currentId);
    }
  }
}
