/**
 Every change of a chat is written twice: into the JSON history of the chat and
 into the `chat_message` rows.
 */
module DualWrite {
  import opened Prelude
  import opened Forest
  import opened History
  import opened Merge
  import opened Rows

  /** The two tables: the JSON history of every chat, and the message rows. */
  datatype Store = Store(chats: map<string, Hist>, table: Table)

  datatype Event =
    | Insert(chat: string, h: Hist)
    | Save(chat: string, id: Id, p: Patch, now: nat)
    | Delete(chat: string, id: Id)
    | Update(chat: string, incoming: Hist, keyless: set<Id>)

  /** `h'` is what the delete endpoint commits: the cursor repair, then the deletion. */
  ghost predicate RepairedAndDeleted(h: Hist, id: Id, h': Hist) {
    exists r :: IsRepair(h, r) && if id in r.messages then IsDeletion(r, id, h') else h' == r
  }

  /** `upsert_message` of a message without a `parentId` key: an existing row keeps
      its parent. */
  function RowSynced(t: Table, chat: string, id: Id, data: Message, keyed: bool): Table {
    var k := Key(chat, id);
    RowUpserted(t, chat, id, if !keyed && k in t then data.(parentId := t[k].parentId) else data)
  }

  /** The backfill loop, when the messages in `keyless` have no `parentId` key. */
  function Reconciled(t: Table, chat: string, order: seq<Id>, m: Messages, keyless: set<Id>): Table
    decreases |order|
  {
    if order == [] then t
    else
      var i := order[|order| - 1];
      var rest := Reconciled(t, chat, order[..|order| - 1], m, keyless);
      if i in m && m[i].role != "" then RowSynced(rest, chat, i, m[i], i !in keyless) else rest
  }

  /** One request that reaches the store; every row write succeeds. An update sends
      messages, those in `keyless` without a `parentId` key. */
  ghost predicate Step(s: Store, e: Event, s': Store) {
    match e
    case Insert(chat, h) =>
      if chat in s.chats then s' == s
      else s' == Store(s.chats[chat := h], Backfilled(s.table, chat, h.order, h.messages))
    case Save(chat, id, p, now) =>
      if chat !in s.chats then s' == s
      else
        var h' := Upserted(s.chats[chat], id, p, now);
        s' == Store(s.chats[chat := h'], RowUpserted(s.table, chat, id, h'.messages[id]))
    case Delete(chat, id) =>
      if chat !in s.chats then s' == s
      else
        && chat in s'.chats
        && RepairedAndDeleted(s.chats[chat], id, s'.chats[chat])
        && s'.chats == s.chats[chat := s'.chats[chat]]
        && s'.table ==
             if id in s.chats[chat].messages
             then RowsDeleted(Backfilled(s.table, chat, s'.chats[chat].order, s'.chats[chat].messages),
                              chat, Dead(s.chats[chat].messages, id))
             else s.table
    case Update(chat, incoming, keyless) =>
      if chat !in s.chats then s' == s
      else
        var h' := Merged(s.chats[chat], incoming);
        s' == Store(s.chats[chat := h'], Reconciled(s.table, chat, h'.order, h'.messages, keyless))
  }

  class ChatStore {
    var chats: map<string, Hist>
    var table: Table

    ghost function View(): Store
      reads this
    {
      Store(chats, table)
    }

    constructor ()
      ensures View() == Store(map[], map[])
    {
      chats, table := map[], map[];
    }

    /** `backfill_messages_by_chat_id` */
    method Backfill(chat: string, order: seq<Id>, m: Messages)
      modifies this`table
      ensures table == Backfilled(old(table), chat, order, m)
    {
      for k := 0 to |order|
        invariant table == Backfilled(old(table), chat, order[..k], m)
      {
        assert order[..k + 1][..k] == order[..k];
        if order[k] in m && m[order[k]].role != "" {
          table := RowUpserted(table, chat, order[k], m[order[k]]);
        }
      }
      assert order[..|order|] == order;
    }

    /** `reconcile_messages_by_chat_id` */
    method Reconcile(chat: string, order: seq<Id>, m: Messages, keyless: set<Id>)
      modifies this`table
      ensures table == Reconciled(old(table), chat, order, m, keyless)
    {
      for k := 0 to |order|
        invariant table == Reconciled(old(table), chat, order[..k], m, keyless)
      {
        assert order[..k + 1][..k] == order[..k];
        if order[k] in m && m[order[k]].role != "" {
          table := RowSynced(table, chat, order[k], m[order[k]], order[k] !in keyless);
        }
      }
      assert order[..|order|] == order;
    }

    method InsertNewChat(chat: string, h: Hist)
      modifies this
      ensures Step(old(View()), Insert(chat, h), View())
    {
      if chat !in chats {
        chats := chats[chat := h];
        Backfill(chat, h.order, h.messages);
      }
    }

    method SaveMessage(chat: string, id: Id, p: Patch, now: nat)
      modifies this
      ensures Step(old(View()), Save(chat, id, p, now), View())
    {
      if chat in chats {
        var history := new ChatHistory.Load(chats[chat]);
        var _ := history.RepairCurrentId();
        var saved := history.UpsertMessage(id, p, now);
        chats := chats[chat := Hist(history.order, history.messages, history.currentId)];
        table := RowUpserted(table, chat, id, saved);
      }
    }

    method DeleteMessage(chat: string, id: Id)
      requires chat in chats ==> chats[chat].Valid() && (id in chats[chat].messages ==> DeletionHalts(chats[chat], id))
      modifies this
      ensures Step(old(View()), Delete(chat, id), View())
    {
      if chat in chats {
        var history := new ChatHistory.Load(chats[chat]);
        var _ := history.RepairCurrentId();
        ghost var repaired := history.Snapshot();
        assert IsRepair(chats[chat], repaired);
        var deletedIds := history.DeleteMessage(id);
        var committed := Hist(history.order, history.messages, history.currentId);
        chats := chats[chat := committed];
        if deletedIds != {} {
          Backfill(chat, committed.order, committed.messages);
          table := RowsDeleted(table, chat, deletedIds);
        }
      }
    }

    /** The update endpoint: merge, commit, then write every message of the merge. */
    method UpdateChat(chat: string, incoming: Hist, keyless: set<Id>)
      requires incoming.Valid() && (chat in chats ==> chats[chat].Valid())
      modifies this
      ensures Step(old(View()), Update(chat, incoming, keyless), View())
    {
      if chat in chats {
        var merged := MergeHistory(chats[chat], incoming);
        chats := chats[chat := merged];
        Reconcile(chat, merged.order, merged.messages, keyless);
      }
    }
  }

  // ---------------------------------------------------------------- refinement

  /** What the callers guarantee: chat ids of one length, ids that are not blank,
      and a role on every message. */
  ghost predicate Proper(len: nat, e: Event) {
    match e
    case Insert(chat, h) => |chat| == len && WithRoles(h)
    case Save(_, id, p, _) => id != "" && (p.role.Some? ==> p.role.value != "")
    case Delete(_, _) => true
    case Update(_, incoming, keyless) =>
      WithRoles(incoming) && forall i :: i in keyless ==> i in incoming.messages && incoming.messages[i].parentId.None?
  }

  ghost predicate WithRoles(h: Hist) {
    && h.Valid()
    && forall i :: i in h.messages ==> i != "" && h.messages[i].role != ""
  }

  /** The rows hold the same ids and parents as the JSON, chat by chat, and no rows
      belong to a chat that is not there. */
  ghost predicate Mirrors(len: nat, s: Store) {
    && WellKeyed(len, s.table)
    && (forall c :: c in s.chats ==> |c| == len && WithRoles(s.chats[c]))
    && forall c :: |c| == len ==> RowLinks(s.table, c) == LinksOf(s.chats, c)
  }

  ghost function LinksOf(chats: map<string, Hist>, c: string): Links {
    if c in chats then Parents(chats[c].messages) else map[]
  }

  lemma {:induction false} AllWritten(h: Hist)
    requires WithRoles(h)
    ensures Written(h.order, h.messages) == Parents(h.messages)
  {
  }

  /** The rows of every chat follow, if those of the changed chat do. */
  lemma {:induction false} LinksFollow(len: nat, t: Table, t': Table, chats: map<string, Hist>, chat: string, h': Hist, c: string)
    requires |c| == len && (c != chat ==> RowLinks(t', c) == RowLinks(t, c) && RowLinks(t, c) == LinksOf(chats, c))
    requires RowLinks(t', chat) == Parents(h'.messages)
    ensures RowLinks(t', c) == LinksOf(chats[chat := h'], c)
  {
  }

  /** Changing one chat in both tables alike keeps them in step. */
  lemma {:induction false} ChangeOneChat(len: nat, s: Store, chat: string, h': Hist, t': Table)
    requires Mirrors(len, s) && |chat| == len && WithRoles(h') && WellKeyed(len, t')
    requires RowLinks(t', chat) == Parents(h'.messages)
    requires forall c :: |c| == len && c != chat ==> RowLinks(t', c) == RowLinks(s.table, c)
    ensures Mirrors(len, Store(s.chats[chat := h'], t'))
  {
    forall c | |c| == len {
      LinksFollow(len, s.table, t', s.chats, chat, h', c);
    }
  }

  lemma {:induction false} InsertMirrors(len: nat, s: Store, chat: string, h: Hist)
    requires Mirrors(len, s) && |chat| == len && WithRoles(h) && chat !in s.chats
    ensures Mirrors(len, Store(s.chats[chat := h], Backfilled(s.table, chat, h.order, h.messages)))
  {
    assert RowLinks(s.table, chat) == LinksOf(s.chats, chat);
    BackfillLinks(len, s.table, chat, h.order, h.messages);
    AllWritten(h);
    assert map[] + Parents(h.messages) == Parents(h.messages);
    ChangeOneChat(len, s, chat, h, Backfilled(s.table, chat, h.order, h.messages));
  }

  lemma {:induction false} UpsertKeepsRoles(h: Hist, id: Id, p: Patch, now: nat)
    requires WithRoles(h) && id != "" && (p.role.Some? ==> p.role.value != "")
    ensures
      var h' := Upserted(h, id, p, now);
      && WithRoles(h')
      && Parents(h'.messages) == Parents(h.messages)[id := h'.messages[id].parentId]
  {
    var x := Upserted(h, id, p, now).messages[id];
    assert x.role != "";
    UpsertedRoles(h, id, x);
  }

  lemma {:induction false} UpsertedRoles(h: Hist, id: Id, x: Message)
    requires WithRoles(h) && id != "" && x.role != ""
    ensures
      var order := if id in h.messages then h.order else h.order + [id];
      var h' := Hist(order, h.messages[id := x], Some(id));
      WithRoles(h') && Parents(h'.messages) == Parents(h.messages)[id := x.parentId]
  {
  }

  lemma {:induction false} DeletionKeepsRoles(h: Hist, id: Id, h': Hist)
    requires WithRoles(h) && RepairedAndDeleted(h, id, h')
    ensures WithRoles(h')
    ensures h'.messages == if id in h.messages then Survivors(h.messages, id) else h.messages
  {
    if id in h.messages {
      FilteredNoDup(h.order, Dead(h.messages, id));
    }
  }

  lemma {:induction false} DeleteMirrors(len: nat, s: Store, chat: string, id: Id, h': Hist)
    requires Mirrors(len, s) && chat in s.chats && WithRoles(h')
    requires id in s.chats[chat].messages && h'.messages == Survivors(s.chats[chat].messages, id)
    ensures
      var t' := RowsDeleted(Backfilled(s.table, chat, h'.order, h'.messages), chat, Dead(s.chats[chat].messages, id));
      Mirrors(len, Store(s.chats[chat := h'], t'))
  {
    var m := s.chats[chat].messages;
    var dead := Dead(m, id);
    var written := Backfilled(s.table, chat, h'.order, h'.messages);
    assert RowLinks(s.table, chat) == LinksOf(s.chats, chat);
    BackfillLinks(len, s.table, chat, h'.order, h'.messages);
    AllWritten(h');
    DeleteRowLinks(len, written, chat, dead);
    assert Parents(h'.messages).Keys == Parents(m).Keys - dead;
    OverwriteThenDrop(Parents(m), Parents(h'.messages), dead);
    ChangeOneChat(len, s, chat, h', RowsDeleted(written, chat, dead));
  }

  lemma {:induction false} OverwriteThenDrop(g: Links, g': Links, dead: set<Id>)
    requires g'.Keys == g.Keys - dead
    ensures g + g' - dead == g'
  {
  }

  /** Deleting a message that is not there commits the cursor repair and nothing else. */
  lemma {:induction false} DeletingNothingRepairs(s: Store, chat: string, id: Id, s': Store)
    requires chat in s.chats && id !in s.chats[chat].messages && Step(s, Delete(chat, id), s')
    ensures chat in s'.chats && IsRepair(s.chats[chat], s'.chats[chat]) && s'.table == s.table
    ensures forall c :: c != chat ==> (c in s'.chats <==> c in s.chats) && (c in s.chats ==> s'.chats[c] == s.chats[c])
  {
  }

  // ---- updates

  /** Every message sent without its key is new, or stored as a root already. */
  ghost predicate KeysAgree(stored: Hist, keyless: set<Id>) {
    forall i :: i in keyless && i in stored.messages ==> stored.messages[i].parentId.None?
  }

  /** What the rows come to say of the messages, `g` being what they said before. */
  function AsWritten(g: Links, m: Messages, keyless: set<Id>): (r: Messages)
    ensures r.Keys == m.Keys
  {
    map i | i in m :: if i in keyless && i in g then m[i].(parentId := g[i]) else m[i]
  }

  lemma {:induction false} SyncOne(len: nat, t: Table, rest: Table, chat: string, front: seq<Id>, m: Messages, keyless: set<Id>, i: Id)
    requires WellKeyed(len, rest) && |chat| == len && i in m
    requires RowLinks(rest, chat) == RowLinks(t, chat) + Written(front, AsWritten(RowLinks(t, chat), m, keyless))
    ensures RowSynced(rest, chat, i, m[i], i !in keyless) == RowUpserted(rest, chat, i, AsWritten(RowLinks(t, chat), m, keyless)[i])
  {
    RowIdIsKey(len, rest, chat, i);
    var g, m' := RowLinks(t, chat), AsWritten(RowLinks(t, chat), m, keyless);
    if i in keyless && Key(chat, i) in rest {
      assert i in RowLinks(rest, chat) && RowLinks(rest, chat)[i] == rest[Key(chat, i)].parentId;
      assert RowLinks(rest, chat)[i] == m'[i].parentId;
    }
  }

  /** Reconciling is a backfill of what the rows come to say. */
  lemma {:induction false} ReconcileIsBackfill(len: nat, t: Table, chat: string, order: seq<Id>, m: Messages, keyless: set<Id>)
    requires WellKeyed(len, t) && |chat| == len
    ensures Reconciled(t, chat, order, m, keyless) == Backfilled(t, chat, order, AsWritten(RowLinks(t, chat), m, keyless))
    decreases |order|
  {
    if order != [] {
      var front, i := order[..|order| - 1], order[|order| - 1];
      var m' := AsWritten(RowLinks(t, chat), m, keyless);
      ReconcileIsBackfill(len, t, chat, front, m, keyless);
      BackfillLinks(len, t, chat, front, m');
      if i in m && m[i].role != "" {
        SyncOne(len, t, Backfilled(t, chat, front, m'), chat, front, m, keyless, i);
      }
    }
  }

  /** Where the rows agree, it makes no difference whether a key is there. */
  lemma {:induction false} AgreeingKeysDoNotMatter(len: nat, t: Table, chat: string, order: seq<Id>, m: Messages, keyless: set<Id>)
    requires WellKeyed(len, t) && |chat| == len
    requires forall i :: i in keyless && i in m && i in RowLinks(t, chat) ==> RowLinks(t, chat)[i] == m[i].parentId
    ensures Reconciled(t, chat, order, m, keyless) == Backfilled(t, chat, order, m)
  {
    ReconcileIsBackfill(len, t, chat, order, m, keyless);
    assert AsWritten(RowLinks(t, chat), m, keyless) == m;
  }

  lemma {:induction false} MergeKeepsRoles(h: Hist, incoming: Hist)
    requires WithRoles(h) && WithRoles(incoming)
    ensures WithRoles(Merged(h, incoming))
  {
    MergedIsDict(h, incoming);
  }

  lemma {:induction false} AsWrittenRoles(g: Links, h: Hist, keyless: set<Id>)
    requires WithRoles(h)
    ensures Written(h.order, AsWritten(g, h.messages, keyless)) == Parents(AsWritten(g, h.messages, keyless))
  {
    AllWritten(Hist(h.order, AsWritten(g, h.messages, keyless), None));
  }

  lemma {:induction false} OverwriteAll(g: Links, h: Links)
    requires g.Keys <= h.Keys
    ensures g + h == h
  {
  }

  lemma {:induction false} WrittenAgreesIff(g: Links, m: Messages, keyless: set<Id>)
    requires forall i :: i in keyless ==> i in m && m[i].parentId.None?
    ensures Parents(AsWritten(g, m, keyless)) == Parents(m) <==> forall i :: i in keyless && i in g ==> g[i].None?
  {
    var m' := AsWritten(g, m, keyless);
    if i :| i in keyless && i in g && g[i].Some? {
      assert Parents(m')[i] == g[i] && Parents(m)[i] == None;
    }
    if forall i :: i in keyless && i in g ==> g[i].None? {
      assert forall i :: i in m ==> m'[i].parentId == m[i].parentId;
    }
  }

  /** An update keeps rows and JSON in step exactly when every message sent without
      its `parentId` key is new or was a root already. */
  lemma {:induction false} UpdateMirrorsIff(len: nat, s: Store, chat: string, incoming: Hist, keyless: set<Id>, s': Store)
    requires Mirrors(len, s) && chat in s.chats
    requires Proper(len, Update(chat, incoming, keyless)) && Step(s, Update(chat, incoming, keyless), s')
    ensures Mirrors(len, s') <==> KeysAgree(s.chats[chat], keyless)
  {
    var h, h' := s.chats[chat], s'.chats[chat];
    var g := RowLinks(s.table, chat);
    assert g == LinksOf(s.chats, chat);
    MergeKeepsRoles(h, incoming);
    var m' := AsWritten(g, h'.messages, keyless);
    ReconcileIsBackfill(len, s.table, chat, h'.order, h'.messages, keyless);
    BackfillLinks(len, s.table, chat, h'.order, m');
    AsWrittenRoles(g, h', keyless);
    OverwriteAll(g, Parents(m'));
    assert forall i :: i in keyless ==> i in h'.messages && h'.messages[i].parentId.None?;
    WrittenAgreesIff(g, h'.messages, keyless);
    if KeysAgree(h, keyless) {
      ChangeOneChat(len, s, chat, h', s'.table);
    } else {
      assert RowLinks(s'.table, chat) != LinksOf(s'.chats, chat);
    }
  }

  /** What is asked of a request, given the store it meets. */
  ghost predicate Allowed(len: nat, s: Store, e: Event) {
    && Proper(len, e)
    && (e.Update? && e.chat in s.chats ==> KeysAgree(s.chats[e.chat], e.keyless))
  }

  lemma {:induction false} StepMirrors(len: nat, s: Store, e: Event, s': Store)
    requires Mirrors(len, s) && Allowed(len, s, e) && Step(s, e, s')
    ensures Mirrors(len, s')
  {
    match e
    case Insert(chat, h) =>
      if chat !in s.chats {
        InsertMirrors(len, s, chat, h);
      }
    case Save(chat, id, p, now) =>
      if chat in s.chats {
        var h' := s'.chats[chat];
        assert RowLinks(s.table, chat) == LinksOf(s.chats, chat);
        UpsertKeepsRoles(s.chats[chat], id, p, now);
        UpsertRowLinks(len, s.table, chat, id, h'.messages[id]);
        ChangeOneChat(len, s, chat, h', s'.table);
      }
    case Delete(chat, id) =>
      if chat in s.chats {
        var h' := s'.chats[chat];
        assert RowLinks(s.table, chat) == LinksOf(s.chats, chat);
        DeletionKeepsRoles(s.chats[chat], id, h');
        if id in s.chats[chat].messages {
          DeleteMirrors(len, s, chat, id, h');
        } else {
          ChangeOneChat(len, s, chat, h', s'.table);
        }
      }
    case Update(chat, incoming, keyless) =>
      if chat in s.chats {
        UpdateMirrorsIff(len, s, chat, incoming, keyless, s');
      }
  }

  /** A run of the store from its empty start. */
  ghost predicate IsRun(len: nat, events: seq<Event>, stores: seq<Store>) {
    && |stores| == |events| + 1
    && stores[0] == Store(map[], map[])
    && forall k :: 0 <= k < |events| ==> Allowed(len, stores[k], events[k]) && Step(stores[k], events[k], stores[k + 1])
  }

  lemma {:induction false} RunsMirror(len: nat, events: seq<Event>, stores: seq<Store>, k: nat)
    requires IsRun(len, events, stores) && k < |stores|
    ensures Mirrors(len, stores[k])
    decreases k
  {
    if k > 0 {
      RunsMirror(len, events, stores, k - 1);
      StepMirrors(len, stores[k - 1], events[k - 1], stores[k]);
    } else {
      forall c ensures RowLinks(map[], c) == map[] {
        assert RowIds(map[], c) == {};
      }
    }
  }

  /** Where rows and JSON agree, the map rebuilt from the rows of a chat, in whatever
      order they are returned, has the ids and parents of the JSON, symmetric links,
      and the same child sets exactly when the JSON links are symmetric. */
  lemma {:induction false} MirroredIsRebuilt(len: nat, s: Store, chat: string, keys: seq<string>)
    requires Mirrors(len, s) && chat in s.chats && IsSelect(s.table, chat, keys)
    ensures
      var json := s.chats[chat].messages;
      var rebuilt := Navigable(Collected(s.table, chat, keys));
      && Parents(rebuilt) == Parents(json) && SymmetricUpTo(rebuilt, None, {}) && NoRepeats(rebuilt)
      && (keys == [] <==> json == map[])
      && (SymmetricUpTo(json, None, {}) <==> SameChildren(rebuilt, json))
  {
    var json := s.chats[chat].messages;
    assert RowLinks(s.table, chat) == LinksOf(s.chats, chat);
    RebuiltMap(len, s.table, chat, keys);
    var rebuilt := Navigable(Collected(s.table, chat, keys));
    assert Parents(rebuilt) == Parents(json);
    SameLinksSameChildren(rebuilt, json);
    assert Parents(json) == map[] <==> Parents(json).Keys == {};
    assert json == map[] <==> json.Keys == {};
  }

  /** At every point of every run, also between the saves of a follow-up. */
  lemma {:induction false} RowsRefineJson(len: nat, events: seq<Event>, stores: seq<Store>, k: nat, chat: string, keys: seq<string>)
    requires IsRun(len, events, stores) && k < |stores|
    requires chat in stores[k].chats && IsSelect(stores[k].table, chat, keys)
    ensures
      var json := stores[k].chats[chat].messages;
      var rebuilt := Navigable(Collected(stores[k].table, chat, keys));
      && Parents(rebuilt) == Parents(json)
      && (keys == [] <==> json == map[])
      && (SymmetricUpTo(json, None, {}) <==> SameChildren(rebuilt, json))
  {
    RunsMirror(len, events, stores, k);
    MirroredIsRebuilt(len, stores[k], chat, keys);
  }

  ghost predicate SameChildren(a: Messages, b: Messages) {
    forall p :: p in a && p in b ==> Elements(a[p].childrenIds) == Elements(b[p].childrenIds)
  }

  lemma {:induction false} SameLinksSameChildren(a: Messages, b: Messages)
    requires Parents(a) == Parents(b) && SymmetricUpTo(a, None, {})
    ensures SymmetricUpTo(b, None, {}) <==> SameChildren(a, b)
  {
    assert a.Keys == Parents(a).Keys && b.Keys == Parents(b).Keys;
    forall p, c | p in b ensures (Lists(a, p, c) <==> Names(b, c, p)) {
      assert Lists(a, p, c) <==> Names(a, c, p);
      assert c in a ==> Parents(a)[c] == Parents(b)[c];
    }
    if SymmetricUpTo(b, None, {}) {
      forall p, c | p in b ensures c in a[p].childrenIds <==> c in b[p].childrenIds {
        assert Lists(b, p, c) <==> Names(b, c, p);
        assert Lists(a, p, c) <==> Names(b, c, p);
      }
    }
    if SameChildren(a, b) {
      forall p, c | p in b ensures Lists(b, p, c) <==> Names(b, c, p) {
        assert c in Elements(a[p].childrenIds) <==> c in Elements(b[p].childrenIds);
        assert Lists(a, p, c) <==> Names(b, c, p);
      }
    }
  }
}
