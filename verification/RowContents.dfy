/**
 What the rows hold besides the links: in every run each row carries the role and the
 content of its JSON message, and the time of the write that created it.
 */
module RowContents {
  import opened Prelude
  import opened Forest
  import opened History
  import opened Merge
  import opened Completion
  import opened Rows
  import opened DualWrite

  // ---------------------------------------------------------------- one row

  lemma {:induction false} UpsertedRow(len: nat, t: Table, chat: string, id: Id, data: Message, c: string, i: Id)
    requires WellKeyed(len, t) && |chat| == len && |c| == len
    ensures
      var t', k := RowUpserted(t, chat, id, data), Key(c, i);
      var hit := c == chat && i == id;
      && (k in t' <==> k in t || hit)
      && (hit ==> t'[k].role == data.role && t'[k].content == data.content
                  && t'[k].createdAt == if k in t then t[k].createdAt else data.timestamp)
      && (!hit && k in t ==> t'[k] == t[k])
  {
    KeyInjective(chat, id, c, i);
  }

  lemma {:induction false} BackfilledRow(len: nat, t: Table, chat: string, order: seq<Id>, m: Messages, c: string, i: Id)
    requires WellKeyed(len, t) && |chat| == len && |c| == len
    ensures
      var t', k := Backfilled(t, chat, order, m), Key(c, i);
      var hit := c == chat && i in order && i in m && m[i].role != "";
      && (k in t' <==> k in t || hit)
      && (hit ==> t'[k].role == m[i].role && t'[k].content == m[i].content
                  && t'[k].createdAt == if k in t then t[k].createdAt else m[i].timestamp)
      && (!hit && k in t ==> t'[k] == t[k])
    decreases |order|
  {
    if order != [] {
      var front, x := order[..|order| - 1], order[|order| - 1];
      assert order == front + [x];
      BackfilledRow(len, t, chat, front, m, c, i);
      BackfillLinks(len, t, chat, front, m);
      if x in m && m[x].role != "" {
        UpsertedRow(len, Backfilled(t, chat, front, m), chat, x, m[x], c, i);
      }
    }
  }

  lemma {:induction false} DeletedRow(len: nat, t: Table, chat: string, ids: set<Id>, c: string, i: Id)
    requires WellKeyed(len, t) && |chat| == len && |c| == len
    ensures
      var t', k := RowsDeleted(t, chat, ids), Key(c, i);
      (k in t' <==> k in t && !(c == chat && i in ids)) && (k in t' ==> t'[k] == t[k])
  {
    RowIdIsKey(len, t, c, i);
    forall j | j in ids ensures Key(chat, j) == Key(c, i) <==> c == chat && j == i {
      KeyInjective(chat, j, c, i);
    }
  }

  // ---------------------------------------------------------------- one step

  ghost predicate Stored(s: Store, c: string, i: Id) {
    c in s.chats && i in s.chats[c].messages
  }

  /** The row of the message is there, with its role and content. */
  ghost predicate Carries(s: Store, c: string, i: Id) {
    Stored(s, c, i) ==>
      && Key(c, i) in s.table
      && s.table[Key(c, i)].role == s.chats[c].messages[i].role
      && s.table[Key(c, i)].content == s.chats[c].messages[i].content
  }

  /** The row keeps its time if the message was there, and else has that of the message. */
  ghost predicate KeepsTime(s: Store, s': Store, c: string, i: Id)
    requires Stored(s', c, i) && Key(c, i) in s'.table
    requires Stored(s, c, i) ==> Key(c, i) in s.table
  {
    s'.table[Key(c, i)].createdAt ==
      if Stored(s, c, i) then s.table[Key(c, i)].createdAt else s'.chats[c].messages[i].timestamp
  }

  lemma {:induction false} StoredIffRow(len: nat, s: Store, c: string, i: Id)
    requires Mirrors(len, s) && |c| == len
    ensures Stored(s, c, i) <==> Key(c, i) in s.table
  {
    RowIdIsKey(len, s.table, c, i);
    assert RowLinks(s.table, c) == LinksOf(s.chats, c);
    assert i in RowLinks(s.table, c) <==> i in RowIds(s.table, c);
    assert c in s.chats ==> (i in Parents(s.chats[c].messages) <==> i in s.chats[c].messages);
  }

  lemma {:induction false} SaveCarries(len: nat, s: Store, chat: string, id: Id, p: Patch, now: nat, s': Store, c: string, i: Id)
    requires Mirrors(len, s) && |c| == len && chat in s.chats && Step(s, Save(chat, id, p, now), s')
    requires Stored(s', c, i) && Carries(s, c, i)
    ensures Carries(s', c, i) && (Stored(s, c, i) ==> Key(c, i) in s.table) && KeepsTime(s, s', c, i)
  {
    StoredIffRow(len, s, c, i);
    UpsertedRow(len, s.table, chat, id, s'.chats[chat].messages[id], c, i);
  }

  lemma {:induction false} InsertCarries(len: nat, s: Store, chat: string, h: Hist, s': Store, c: string, i: Id)
    requires Mirrors(len, s) && |c| == len && |chat| == len && WithRoles(h) && chat !in s.chats && Step(s, Insert(chat, h), s')
    requires Stored(s', c, i) && Carries(s, c, i)
    ensures Carries(s', c, i) && (Stored(s, c, i) ==> Key(c, i) in s.table) && KeepsTime(s, s', c, i)
  {
    StoredIffRow(len, s, c, i);
    BackfilledRow(len, s.table, chat, h.order, h.messages, c, i);
  }

  lemma {:induction false} UpdateCarries(len: nat, s: Store, chat: string, incoming: Hist, keyless: set<Id>, s': Store, c: string, i: Id)
    requires Mirrors(len, s) && |c| == len && chat in s.chats && WithRoles(incoming) && Step(s, Update(chat, incoming, keyless), s')
    requires Stored(s', c, i) && Carries(s, c, i)
    ensures Carries(s', c, i) && (Stored(s, c, i) ==> Key(c, i) in s.table) && KeepsTime(s, s', c, i)
  {
    var h' := s'.chats[chat];
    var written := AsWritten(RowLinks(s.table, chat), h'.messages, keyless);
    StoredIffRow(len, s, c, i);
    MergeKeepsRoles(s.chats[chat], incoming);
    ReconcileIsBackfill(len, s.table, chat, h'.order, h'.messages, keyless);
    BackfilledRow(len, s.table, chat, h'.order, written, c, i);
    OnlyParentsDiffer(RowLinks(s.table, chat), h'.messages, keyless, i);
    if c == chat {
      assert i in h'.order && h'.messages[i].role != "";
    }
  }

  lemma {:induction false} OnlyParentsDiffer(g: Links, m: Messages, keyless: set<Id>, i: Id)
    ensures i in m ==>
      var x := AsWritten(g, m, keyless)[i];
      x.role == m[i].role && x.content == m[i].content && x.timestamp == m[i].timestamp
  {
  }

  lemma {:induction false} DeleteCarries(len: nat, s: Store, chat: string, id: Id, s': Store, c: string, i: Id)
    requires Mirrors(len, s) && |c| == len && chat in s.chats && Step(s, Delete(chat, id), s')
    requires Stored(s', c, i) && Carries(s, c, i)
    ensures Carries(s', c, i) && (Stored(s, c, i) ==> Key(c, i) in s.table) && KeepsTime(s, s', c, i)
  {
    var h, h' := s.chats[chat], s'.chats[chat];
    StoredIffRow(len, s, c, i);
    DeletionKeepsRoles(h, id, h');
    if id in h.messages {
      var written := Backfilled(s.table, chat, h'.order, h'.messages);
      BackfilledRow(len, s.table, chat, h'.order, h'.messages, c, i);
      BackfillLinks(len, s.table, chat, h'.order, h'.messages);
      DeletedRow(len, written, chat, Dead(h.messages, id), c, i);
    }
  }

  ghost predicate AllCarried(s: Store) {
    forall c, i :: Carries(s, c, i)
  }

  /** One step, seen from one message. */
  lemma {:induction false} StepCarries(len: nat, s: Store, e: Event, s': Store, c: string, i: Id)
    requires Mirrors(len, s) && Allowed(len, s, e) && Step(s, e, s') && Stored(s', c, i) && Carries(s, c, i)
    ensures Carries(s', c, i) && (Stored(s, c, i) ==> Key(c, i) in s.table) && KeepsTime(s, s', c, i)
  {
    StepMirrors(len, s, e, s');
    if e.chat in s.chats || e.Insert? {
      match e
      case Insert(chat, h) => if chat !in s.chats { InsertCarries(len, s, chat, h, s', c, i); }
      case Save(chat, id, p, now) => SaveCarries(len, s, chat, id, p, now, s', c, i);
      case Delete(chat, id) => DeleteCarries(len, s, chat, id, s', c, i);
      case Update(chat, incoming, keyless) => UpdateCarries(len, s, chat, incoming, keyless, s', c, i);
    }
  }

  lemma {:induction false} StepCarriesAll(len: nat, s: Store, e: Event, s': Store)
    requires Mirrors(len, s) && Allowed(len, s, e) && Step(s, e, s') && AllCarried(s)
    ensures AllCarried(s')
  {
    forall c, i ensures Carries(s', c, i) {
      if Stored(s', c, i) {
        StepCarries(len, s, e, s', c, i);
      }
    }
  }

  // ---------------------------------------------------------------- reading back

  lemma {:induction false} CollectedContents(len: nat, t: Table, chat: string, keys: seq<string>, i: Id)
    requires WellKeyed(len, t) && |chat| == len
    requires forall k :: k in keys ==> k in t && t[k].chatId == chat
    requires i in Collected(t, chat, keys).messages
    ensures Key(chat, i) in t
    ensures
      var x, row := Collected(t, chat, keys).messages[i], t[Key(chat, i)];
      x.id == i && x.role == row.role && x.content == row.content && x.timestamp == row.createdAt
    decreases |keys|
  {
    var front, k := keys[..|keys| - 1], keys[|keys| - 1];
    KeyOfStripped(len, t, k);
    if i != Strip(chat, k) {
      CollectedContents(len, t, chat, front, i);
    }
  }

  lemma {:induction false} CollectedOrder(len: nat, t: Table, chat: string, keys: seq<string>, a: Id, b: Id)
    requires WellKeyed(len, t) && |chat| == len && NoDup(keys)
    requires forall k :: k in keys ==> k in t && t[k].chatId == chat
    ensures Before(Collected(t, chat, keys).order, a, b) <==> Before(keys, Key(chat, a), Key(chat, b))
    decreases |keys|
  {
    if keys != [] {
      var front, k := keys[..|keys| - 1], keys[|keys| - 1];
      assert keys == front + [k] && k !in front;
      CollectedOrder(len, t, chat, front, a, b);
      CollectedLinks(len, t, chat, front);
      CollectedIsDict(t, chat, front);
      KeyOfStripped(len, t, k);
      var x := Strip(chat, k);
      BeforeSnoc(front, k, Key(chat, a), Key(chat, b));
      BeforeSnoc(Collected(t, chat, front).order, x, a, b);
      KeyInjective(chat, b, chat, x);
    }
  }

  /** The children of a rebuilt message stand in the order of their rows. */
  lemma {:induction false} RebuiltChildrenInRowOrder(len: nat, t: Table, chat: string, keys: seq<string>, p: Id, a: Id, b: Id)
    requires WellKeyed(len, t) && |chat| == len && IsSelect(t, chat, keys) && "" !in RowLinks(t, chat)
    ensures
      var m := Navigable(Collected(t, chat, keys));
      p in m && Names(m, a, p) && Names(m, b, p) ==>
        (Before(m[p].childrenIds, a, b) <==> Before(keys, Key(chat, a), Key(chat, b)))
  {
    var h := Collected(t, chat, keys);
    RebuiltMap(len, t, chat, keys);
    assert RowLinks(t, chat).Keys == Parents(Navigable(h)).Keys;
    if p in h.messages && Names(h.messages, a, p) && Names(h.messages, b, p) {
      KidsInOrder(h.order, h.messages, p, a, b);
      CollectedOrder(len, t, chat, keys, a, b);
    }
  }

  /** The message rebuilt from its row. */
  lemma {:induction false} RebuiltContents(len: nat, s: Store, chat: string, keys: seq<string>, i: Id)
    requires Mirrors(len, s) && Stored(s, chat, i) && Carries(s, chat, i) && IsSelect(s.table, chat, keys)
    ensures
      var json, rebuilt := s.chats[chat].messages, Navigable(Collected(s.table, chat, keys));
      && i in rebuilt && rebuilt[i].id == i && rebuilt[i].role == json[i].role && rebuilt[i].content == json[i].content
      && rebuilt[i].timestamp == s.table[Key(chat, i)].createdAt
  {
    MirroredIsRebuilt(len, s, chat, keys);
    assert i in Parents(s.chats[chat].messages);
    CollectedContents(len, s.table, chat, keys, i);
  }

  // ---------------------------------------------------------------- runs

  /** Step `j` wrote the message, which has been there since. */
  ghost predicate WrittenAt(stores: seq<Store>, j: nat, k: nat, c: string, i: Id)
    requires j < k < |stores|
  {
    !Stored(stores[j], c, i) && forall n :: j < n <= k ==> Stored(stores[n], c, i)
  }

  /** `time` is what the message had when it was written. */
  ghost predicate CreatedAt(stores: seq<Store>, k: nat, c: string, i: Id, time: nat)
    requires k < |stores|
  {
    exists j :: 0 <= j < k && WrittenAt(stores, j, k, c, i) && stores[j + 1].chats[c].messages[i].timestamp == time
  }

  lemma {:induction false} RunsCarry(len: nat, events: seq<Event>, stores: seq<Store>, k: nat, c: string, i: Id)
    requires IsRun(len, events, stores) && k < |stores| && Stored(stores[k], c, i)
    ensures Carries(stores[k], c, i) && CreatedAt(stores, k, c, i, stores[k].table[Key(c, i)].createdAt)
    decreases k
  {
    var s, s' := stores[k - 1], stores[k];
    RunsMirror(len, events, stores, k - 1);
    if Stored(s, c, i) {
      RunsCarry(len, events, stores, k - 1, c, i);
      StepCarries(len, s, events[k - 1], s', c, i);
      Since(stores, k - 1, c, i, s.table[Key(c, i)].createdAt);
    } else {
      StepCarries(len, s, events[k - 1], s', c, i);
      assert WrittenAt(stores, k - 1, k, c, i);
    }
  }

  lemma {:induction false} Since(stores: seq<Store>, k: nat, c: string, i: Id, time: nat)
    requires k + 1 < |stores| && CreatedAt(stores, k, c, i, time) && Stored(stores[k + 1], c, i)
    ensures CreatedAt(stores, k + 1, c, i, time)
  {
    var j :| 0 <= j < k && WrittenAt(stores, j, k, c, i) && stores[j + 1].chats[c].messages[i].timestamp == time;
    assert WrittenAt(stores, j, k + 1, c, i);
  }

  /** In every state of every run, for every message of the JSON: the map rebuilt from the
      rows, in whatever order they are returned, has it under its id with its role and its
      content, and with the time of the write that created the row. */
  lemma {:induction false} RebuiltCarriesJson(len: nat, events: seq<Event>, stores: seq<Store>, k: nat, chat: string, keys: seq<string>, i: Id)
    requires IsRun(len, events, stores) && k < |stores|
    requires chat in stores[k].chats && i in stores[k].chats[chat].messages && IsSelect(stores[k].table, chat, keys)
    ensures
      var json, rebuilt := stores[k].chats[chat].messages, Navigable(Collected(stores[k].table, chat, keys));
      && i in rebuilt && rebuilt[i].id == i && rebuilt[i].role == json[i].role && rebuilt[i].content == json[i].content
      && CreatedAt(stores, k, chat, i, rebuilt[i].timestamp)
  {
    RunsMirror(len, events, stores, k);
    RunsCarry(len, events, stores, k, chat, i);
    RebuiltContents(len, stores[k], chat, keys, i);
  }
}
