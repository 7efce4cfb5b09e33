/**
 The `chat_message` table: one row per message, keyed by `{chat_id}-{message_id}`,
 holding parent links but no child lists.
 */
module Rows {
  import opened Prelude
  import opened Forest
  import opened History
  import opened Merge
  import opened Completion

  datatype Row = Row(chatId: string, parentId: Option<Id>, role: string, content: string, createdAt: nat)

  type Table = map<string, Row>

  function Key(chat: string, id: Id): string {
    chat + "-" + id
  }

  /** The message id is recovered by cutting the prefix off, if it is there. */
  function Strip(chat: string, key: string): Id {
    if chat + "-" <= key then key[|chat| + 1..] else key
  }

  // ---------------------------------------------------------------- keys

  /** Every row sits under the composite key of its chat, and chat ids have length `len`. */
  ghost predicate WellKeyed(len: nat, t: Table) {
    forall k :: k in t ==> |k| > len && k[len] == '-' && t[k].chatId == k[..len]
  }

  lemma {:induction false} KeyParts(chat: string, id: Id)
    ensures |Key(chat, id)| == |chat| + 1 + |id|
    ensures Key(chat, id)[..|chat|] == chat && Key(chat, id)[|chat|] == '-' && Key(chat, id)[|chat| + 1..] == id
    ensures Strip(chat, Key(chat, id)) == id
  {
    assert chat + "-" <= Key(chat, id);
  }

  /** Chat ids of equal length keep the rows of different chats apart. */
  lemma {:induction false} KeyInjective(chat: string, id: Id, chat': string, id': Id)
    requires |chat| == |chat'|
    ensures Key(chat, id) == Key(chat', id') <==> chat == chat' && id == id'
  {
    KeyParts(chat, id);
    KeyParts(chat', id');
  }

  /** Without equal lengths they may meet: message `b-c` of chat `a` and message `c`
      of chat `a-b` share a row, for all `a`, `b`, `c`. */
  lemma {:induction false} KeysCanCollide(a: string, b: string, c: Id)
    ensures Key(a, b + "-" + c) == Key(a + "-" + b, c) && a != a + "-" + b
  {
    assert |a + "-" + b| == |a| + 1 + |b|;
  }

  lemma {:induction false} CollisionMeansPrefix(a: string, i: Id, b: string, j: Id)
    requires Key(a, i) == Key(b, j) && |a| < |b|
    ensures a + "-" <= b
  {
    var k := Key(a, i);
    KeyParts(a, i);
    KeyParts(b, j);
    assert (a + "-") == k[..|a| + 1];
    assert b == k[..|b|];
  }

  /** Two chats can share a row exactly when one id, a dash after it, begins the other. */
  lemma {:induction false} KeysCollideIff(a: string, b: string)
    requires a != b
    ensures (exists i, j :: Key(a, i) == Key(b, j)) <==> a + "-" <= b || b + "-" <= a
  {
    if i, j :| Key(a, i) == Key(b, j) {
      if |a| == |b| {
        KeyInjective(a, i, b, j);
      } else if |a| < |b| {
        CollisionMeansPrefix(a, i, b, j);
      } else {
        CollisionMeansPrefix(b, j, a, i);
      }
    }
    if a + "-" <= b {
      KeysCanCollide(a, b[|a| + 1..], "");
      assert b == a + "-" + b[|a| + 1..];
      assert Key(a, b[|a| + 1..] + "-" + "") == Key(b, "");
    }
    if b + "-" <= a {
      KeysCanCollide(b, a[|b| + 1..], "");
      assert a == b + "-" + a[|b| + 1..];
      assert Key(b, a[|b| + 1..] + "-" + "") == Key(a, "");
    }
  }

  lemma {:induction false} KeyOfStripped(len: nat, t: Table, k: string)
    requires WellKeyed(len, t) && k in t
    ensures Key(t[k].chatId, Strip(t[k].chatId, k)) == k
    ensures Strip(t[k].chatId, k) == k[len + 1..]
  {
    var chat := t[k].chatId;
    assert k == chat + "-" + k[len + 1..];
    assert chat + "-" <= k;
  }

  // ---------------------------------------------------------------- reading

  ghost function RowIds(t: Table, chat: string): set<Id> {
    set k | k in t && t[k].chatId == chat :: Strip(chat, k)
  }

  /** The parent links that the rows of `chat` hold. */
  ghost function RowLinks(t: Table, chat: string): Links {
    map i | i in RowIds(t, chat) :: if Key(chat, i) in t then t[Key(chat, i)].parentId else None
  }

  lemma {:induction false} RowIdIsKey(len: nat, t: Table, chat: string, i: Id)
    requires WellKeyed(len, t) && |chat| == len
    ensures i in RowIds(t, chat) <==> Key(chat, i) in t
    ensures Key(chat, i) in t ==> t[Key(chat, i)].chatId == chat
  {
    KeyParts(chat, i);
    if i in RowIds(t, chat) {
      var k :| k in t && t[k].chatId == chat && Strip(chat, k) == i;
      KeyOfStripped(len, t, k);
    }
  }

  // ---------------------------------------------------------------- writing

  /** `upsert_message`, the fields that carry structure. An existing row keeps its chat. */
  function RowUpserted(t: Table, chat: string, id: Id, data: Message): Table {
    var k := Key(chat, id);
    if k in t
    then t[k := t[k].(parentId := data.parentId, role := data.role, content := data.content)]
    else t[k := Row(chat, data.parentId, data.role, data.content, data.timestamp)]
  }

  lemma {:induction false} UpsertKeepsKeys(len: nat, t: Table, chat: string, id: Id, data: Message)
    requires WellKeyed(len, t) && |chat| == len
    ensures WellKeyed(len, RowUpserted(t, chat, id, data))
  {
    KeyParts(chat, id);
  }

  lemma {:induction false} UpsertOneRow(len: nat, t: Table, chat: string, id: Id, data: Message, c: string, i: Id)
    requires WellKeyed(len, t) && |chat| == len && |c| == len
    ensures
      var t' := RowUpserted(t, chat, id, data);
      && (i in RowIds(t', c) <==> i in RowIds(t, c) || (c == chat && i == id))
      && (i in RowIds(t', c) ==> RowLinks(t', c)[i] == if c == chat && i == id then data.parentId else RowLinks(t, c)[i])
  {
    UpsertKeepsKeys(len, t, chat, id, data);
    RowIdIsKey(len, t, c, i);
    RowIdIsKey(len, RowUpserted(t, chat, id, data), c, i);
    KeyInjective(chat, id, c, i);
  }

  lemma {:induction false} UpsertLinksOf(len: nat, t: Table, chat: string, id: Id, data: Message, c: string)
    requires WellKeyed(len, t) && |chat| == len && |c| == len
    ensures RowLinks(RowUpserted(t, chat, id, data), c) ==
      if c == chat then RowLinks(t, c)[id := data.parentId] else RowLinks(t, c)
  {
    forall i {
      UpsertOneRow(len, t, chat, id, data, c, i);
    }
  }

  /** Upserting one row changes the links of its chat at that id, and nothing else. */
  lemma {:induction false} UpsertRowLinks(len: nat, t: Table, chat: string, id: Id, data: Message)
    requires WellKeyed(len, t) && |chat| == len
    ensures
      var t' := RowUpserted(t, chat, id, data);
      && WellKeyed(len, t')
      && RowLinks(t', chat) == RowLinks(t, chat)[id := data.parentId]
      && (forall c :: |c| == len && c != chat ==> RowLinks(t', c) == RowLinks(t, c))
  {
    UpsertKeepsKeys(len, t, chat, id, data);
    forall c | |c| == len {
      UpsertLinksOf(len, t, chat, id, data, c);
    }
  }

  /** The backfill loop: every message with a role is upserted, in dict order. */
  function Backfilled(t: Table, chat: string, order: seq<Id>, m: Messages): Table
    decreases |order|
  {
    if order == [] then t
    else
      var i := order[|order| - 1];
      var rest := Backfilled(t, chat, order[..|order| - 1], m);
      if i in m && m[i].role != "" then RowUpserted(rest, chat, i, m[i]) else rest
  }

  /** The links of the messages that a backfill writes. */
  ghost function Written(order: seq<Id>, m: Messages): Links {
    map i | i in order && i in m && m[i].role != "" :: m[i].parentId
  }

  lemma {:induction false} WrittenStep(g: Links, order: seq<Id>, m: Messages)
    requires order != []
    ensures
      var i := order[|order| - 1];
      g + Written(order, m) ==
        if i in m && m[i].role != "" then (g + Written(order[..|order| - 1], m))[i := m[i].parentId]
        else g + Written(order[..|order| - 1], m)
  {
    assert order == order[..|order| - 1] + [order[|order| - 1]];
  }

  lemma {:induction false} BackfillLinks(len: nat, t: Table, chat: string, order: seq<Id>, m: Messages)
    requires WellKeyed(len, t) && |chat| == len
    ensures
      var t' := Backfilled(t, chat, order, m);
      && WellKeyed(len, t')
      && RowLinks(t', chat) == RowLinks(t, chat) + Written(order, m)
      && (forall c :: |c| == len && c != chat ==> RowLinks(t', c) == RowLinks(t, c))
    decreases |order|
  {
    if order == [] {
      assert Written(order, m) == map[];
    } else {
      var front, i := order[..|order| - 1], order[|order| - 1];
      BackfillLinks(len, t, chat, front, m);
      WrittenStep(RowLinks(t, chat), order, m);
      if i in m && m[i].role != "" {
        UpsertRowLinks(len, Backfilled(t, chat, front, m), chat, i, m[i]);
      }
    }
  }

  /** `delete_message_ids_by_chat_id` */
  function RowsDeleted(t: Table, chat: string, ids: set<Id>): Table {
    map k | k in t && !(t[k].chatId == chat && k in (set i | i in ids :: Key(chat, i))) :: t[k]
  }

  lemma {:induction false} DeleteOneRow(len: nat, t: Table, chat: string, ids: set<Id>, c: string, i: Id)
    requires WellKeyed(len, t) && |chat| == len && |c| == len
    ensures
      var t' := RowsDeleted(t, chat, ids);
      && (i in RowIds(t', c) <==> i in RowIds(t, c) && !(c == chat && i in ids))
      && (i in RowIds(t', c) ==> RowLinks(t', c)[i] == RowLinks(t, c)[i])
  {
    RowIdIsKey(len, t, c, i);
    RowIdIsKey(len, RowsDeleted(t, chat, ids), c, i);
    forall j | j in ids ensures Key(chat, j) == Key(c, i) <==> c == chat && j == i {
      KeyInjective(chat, j, c, i);
    }
  }

  lemma {:induction false} DeleteLinksOf(len: nat, t: Table, chat: string, ids: set<Id>, c: string)
    requires WellKeyed(len, t) && |chat| == len && |c| == len
    ensures RowLinks(RowsDeleted(t, chat, ids), c) == if c == chat then RowLinks(t, c) - ids else RowLinks(t, c)
  {
    forall i {
      DeleteOneRow(len, t, chat, ids, c, i);
    }
  }

  lemma {:induction false} DeleteRowLinks(len: nat, t: Table, chat: string, ids: set<Id>)
    requires WellKeyed(len, t) && |chat| == len
    ensures
      var t' := RowsDeleted(t, chat, ids);
      && WellKeyed(len, t')
      && RowLinks(t', chat) == RowLinks(t, chat) - ids
      && (forall c :: |c| == len && c != chat ==> RowLinks(t', c) == RowLinks(t, c))
  {
    forall c | |c| == len {
      DeleteLinksOf(len, t, chat, ids, c);
    }
  }

  // ---------------------------------------------------------------- rebuilding the map

  /** A result of `SELECT … WHERE chat_id = chat`: every row of the chat once, in any order. */
  ghost predicate IsSelect(t: Table, chat: string, keys: seq<string>) {
    && NoDup(keys)
    && forall k :: k in keys <==> k in t && t[k].chatId == chat
  }

  function RowMessage(chat: string, key: string, r: Row): Message {
    Message(Strip(chat, key), r.parentId, [], r.role, r.createdAt, "", r.content)
  }

  /** The first loop: `messages_map[msg_id] = msg`. */
  function Collected(t: Table, chat: string, keys: seq<string>): Hist
    requires forall k :: k in keys ==> k in t
    decreases |keys|
  {
    if keys == [] then Hist([], map[], None)
    else
      var k := keys[|keys| - 1];
      Put(Collected(t, chat, keys[..|keys| - 1]), Strip(chat, k), RowMessage(chat, k, t[k]))
  }

  /** The second loop: children in dict order; a blank parent id has none. */
  function Navigable(h: Hist): (r: Messages)
    ensures r.Keys == h.messages.Keys
  {
    map i | i in h.messages :: h.messages[i].(childrenIds := if i == "" then [] else KidsIn(h.order, h.messages, i))
  }

  ghost predicate FiledRows(done: seq<Id>, base: Messages, m: Messages) {
    && m.Keys == base.Keys
    && forall i :: i in m ==> m[i] == base[i].(childrenIds := if i == "" then [] else KidsIn(done, base, i))
  }

  lemma {:induction false} FiledRowsStep(done: seq<Id>, c: Id, base: Messages, m: Messages, m': Messages)
    requires FiledRows(done, base, m) && c in m && m'.Keys == m.Keys
    requires forall i :: i in m ==>
      m'[i] == m[i].(childrenIds := m[i].childrenIds + if m[c].parentId == Some(i) && i != "" then [c] else [])
    ensures FiledRows(done + [c], base, m')
  {
    assert (done + [c])[..|done|] == done;
  }

  method FileRow(m: Messages, c: Id) returns (m': Messages)
    requires c in m
    ensures m'.Keys == m.Keys
    ensures forall i :: i in m ==>
      m'[i] == m[i].(childrenIds := m[i].childrenIds + if m[c].parentId == Some(i) && i != "" then [c] else [])
  {
    m' := m;
    var parent := m[c].parentId;
    if parent.Some? && parent.value != "" && parent.value in m {
      m' := m[parent.value := m[parent.value].(childrenIds := m[parent.value].childrenIds + [c])];
    }
  }

  lemma {:induction false} CollectedIsDict(t: Table, chat: string, keys: seq<string>)
    requires forall k :: k in keys ==> k in t
    ensures Collected(t, chat, keys).Valid()
    ensures forall i :: i in Collected(t, chat, keys).messages ==> Collected(t, chat, keys).messages[i].childrenIds == []
    decreases |keys|
  {
    if keys != [] {
      CollectedIsDict(t, chat, keys[..|keys| - 1]);
    }
  }

  method Collect(t: Table, chat: string, keys: seq<string>) returns (h: Hist)
    requires forall k :: k in keys ==> k in t
    ensures h == Collected(t, chat, keys)
  {
    h := Hist([], map[], None);
    for n := 0 to |keys|
      invariant h == Collected(t, chat, keys[..n])
    {
      assert keys[..n + 1][..n] == keys[..n];
      h := Put(h, Strip(chat, keys[n]), RowMessage(chat, keys[n], t[keys[n]]));
    }
    assert keys[..|keys|] == keys;
  }

  method LinkChildren(order: seq<Id>, base: Messages) returns (m: Messages)
    requires forall i :: i in order ==> i in base
    requires forall i :: i in base ==> base[i].childrenIds == []
    ensures m == Navigable(Hist(order, base, None))
  {
    m := base;
    for k := 0 to |order|
      invariant FiledRows(order[..k], base, m)
    {
      var m' := FileRow(m, order[k]);
      FiledRowsStep(order[..k], order[k], base, m, m');
      TakeOneMore(order, k);
      m := m';
    }
    assert order[..|order|] == order;
  }

  /** `ChatMessages.get_messages_map_by_chat_id`: None when the chat has no rows. */
  method RowsMap(t: Table, chat: string, keys: seq<string>) returns (m: Option<Messages>)
    requires forall k :: k in keys ==> k in t
    ensures m == if keys == [] then None else Some(Navigable(Collected(t, chat, keys)))
  {
    if keys == [] {
      return None;
    }
    var h := Collect(t, chat, keys);
    CollectedIsDict(t, chat, keys);
    var linked := LinkChildren(h.order, h.messages);
    m := Some(linked);
  }

  lemma {:induction false} CollectedLinks(len: nat, t: Table, chat: string, keys: seq<string>)
    requires WellKeyed(len, t) && |chat| == len
    requires forall k :: k in keys ==> k in t && t[k].chatId == chat
    ensures
      var m := Collected(t, chat, keys).messages;
      && (forall i :: i in m <==> Key(chat, i) in keys)
      && (forall i :: i in m ==> m[i].parentId == t[Key(chat, i)].parentId)
    decreases |keys|
  {
    if keys != [] {
      var front, k := keys[..|keys| - 1], keys[|keys| - 1];
      CollectedLinks(len, t, chat, front);
      KeyOfStripped(len, t, k);
      assert keys == front + [k];
      forall i ensures Key(chat, i) == k <==> i == Strip(chat, k) {
        KeyInjective(chat, i, chat, Strip(chat, k));
      }
    }
  }

  lemma {:induction false} NavigableIsSymmetric(h: Hist)
    requires h.Valid() && "" !in h.messages
    ensures Parents(Navigable(h)) == Parents(h.messages)
    ensures SymmetricUpTo(Navigable(h), None, {}) && NoRepeats(Navigable(h))
  {
    var m := Navigable(h);
    forall p | p in m ensures NoDup(m[p].childrenIds) {
      KidsNoDup(h.order, h.messages, p);
    }
    forall p, c | p in m ensures Lists(m, p, c) <==> Names(m, c, p) {
      assert c in h.messages ==> c in h.order;
    }
  }

  lemma {:induction false} CollectedParents(len: nat, t: Table, chat: string, keys: seq<string>)
    requires WellKeyed(len, t) && |chat| == len && IsSelect(t, chat, keys)
    ensures Parents(Collected(t, chat, keys).messages) == RowLinks(t, chat)
  {
    CollectedLinks(len, t, chat, keys);
    forall i {
      RowIdIsKey(len, t, chat, i);
    }
  }

  lemma {:induction false} NoKeysNoLinks(t: Table, chat: string, keys: seq<string>)
    requires IsSelect(t, chat, keys)
    ensures keys == [] <==> RowLinks(t, chat) == map[]
  {
    if keys == [] {
      assert RowIds(t, chat) == {};
    } else {
      assert keys[0] in keys;
      assert Strip(chat, keys[0]) in RowIds(t, chat);
      assert Strip(chat, keys[0]) in RowLinks(t, chat);
    }
  }

  /** However the database orders the rows, the rebuilt map has exactly the stored
      ids and parents, and child lists that are their duplicate-free inverse. */
  lemma {:induction false} RebuiltMap(len: nat, t: Table, chat: string, keys: seq<string>)
    requires WellKeyed(len, t) && |chat| == len && IsSelect(t, chat, keys)
    requires "" !in RowLinks(t, chat)
    ensures
      var m := Navigable(Collected(t, chat, keys));
      && Parents(m) == RowLinks(t, chat)
      && SymmetricUpTo(m, None, {}) && NoRepeats(m)
      && (keys == [] <==> RowLinks(t, chat) == map[])
  {
    CollectedParents(len, t, chat, keys);
    NoKeysNoLinks(t, chat, keys);
    CollectedIsDict(t, chat, keys);
    NavigableIsSymmetric(Collected(t, chat, keys));
  }
}
