/**
 Whole requests on the two stores: a new chat, a follow-up as the sequence of its
 saves, a deletion, an update. After each of them the history of every chat is a
 forest, and the map rebuilt from its rows has the same children.
 */
module Requests {
  import opened Prelude
  import opened Forest
  import opened History
  import opened Merge
  import opened Completion
  import opened Rows
  import opened DualWrite
  import opened RowContents
  import Runs

  datatype Request =
    | Start(chat: string, user: Option<Patch>, entries: seq<Id>, now: nat)
    | Continue(chat: string, user: Option<Patch>, entries: seq<Id>, now: nat)
    | Remove(chat: string, id: Id)
    | Send(chat: string, incoming: Hist, keyless: set<Id>)

  // ---------------------------------------------------------------- a follow-up as its saves

  function PlaceholderSaves(chat: string, ids: seq<Id>, parent: Option<Id>, now: nat): (r: seq<Event>)
    ensures forall e :: e in r ==> e.Save? && e.chat == chat
    decreases |ids|
  {
    if ids == [] then []
    else
      var id := ids[|ids| - 1];
      PlaceholderSaves(chat, ids[..|ids| - 1], parent, now) + [Save(chat, id, Placeholder(id, parent, now), now)]
  }

  function UserSave(chat: string, user: Option<Patch>, now: nat): seq<Event> {
    if NamedUser(user).Some? then [Save(chat, NamedUser(user).value, user.value, now)] else []
  }

  function ParentSave(chat: string, h: Hist, user: Option<Patch>, now: nat): seq<Event> {
    var target := LinkTarget(h, user);
    if target.Some?
    then [Save(chat, target.value, ChildrenPatch(h.messages[target.value].childrenIds + [NamedUser(user).value]), now)]
    else []
  }

  function AnswersSave(chat: string, h: Hist, user: Option<Patch>, ids: seq<Id>, now: nat): seq<Event> {
    var named := NamedUser(user);
    if named.Some? && ids != [] && named.value in h.messages
    then [Save(chat, named.value, ChildrenPatch(AppendNew(h.messages[named.value].childrenIds, ids)), now)]
    else []
  }

  /** The saves that the handler makes for a follow-up on `h`, in order. */
  function FollowUpSaves(chat: string, h: Hist, user: Option<Patch>, entries: seq<Id>, now: nat): (r: seq<Event>)
    ensures forall e :: e in r ==> e.Save? && e.chat == chat
  {
    var ids := AssistantIds(entries);
    var h1 := WithUser(h, user, now);
    var h2 := WithParentLink(h1, user, now);
    UserSave(chat, user, now) + ParentSave(chat, h1, user, now) + AnswersSave(chat, h2, user, ids, now)
      + PlaceholderSaves(chat, ids, UserId(user), now)
  }

  /** What a save leaves of both stores. */
  function Saved(s: Store, e: Event): Store
    requires e.Save?
  {
    if e.chat !in s.chats then s
    else
      var h' := Upserted(s.chats[e.chat], e.id, e.p, e.now);
      Store(s.chats[e.chat := h'], RowUpserted(s.table, e.chat, e.id, h'.messages[e.id]))
  }

  function SavedAll(s: Store, saves: seq<Event>): Store
    requires forall e :: e in saves ==> e.Save?
    decreases |saves|
  {
    if saves == [] then s else Saved(SavedAll(s, saves[..|saves| - 1]), saves[|saves| - 1])
  }

  function UpsertedAll(h: Hist, saves: seq<Event>): Hist
    requires forall e :: e in saves ==> e.Save?
    decreases |saves|
  {
    if saves == [] then h
    else
      var e := saves[|saves| - 1];
      Upserted(UpsertedAll(h, saves[..|saves| - 1]), e.id, e.p, e.now)
  }

  lemma {:induction false} UpsertedAllConcat(h: Hist, a: seq<Event>, b: seq<Event>)
    requires forall e :: e in a + b ==> e.Save?
    ensures UpsertedAll(h, a + b) == UpsertedAll(UpsertedAll(h, a), b)
    decreases |b|
  {
    if b == [] {
      assert a + b == a;
    } else {
      assert (a + b)[..|a + b| - 1] == a + b[..|b| - 1];
      UpsertedAllConcat(h, a, b[..|b| - 1]);
    }
  }

  lemma {:induction false} UpsertedOne(h: Hist, e: Event)
    requires e.Save?
    ensures UpsertedAll(h, [e]) == Upserted(h, e.id, e.p, e.now)
  {
    assert [e][..0] == [];
  }

  lemma {:induction false} PlaceholdersAreSaves(chat: string, h: Hist, ids: seq<Id>, parent: Option<Id>, now: nat)
    ensures UpsertedAll(h, PlaceholderSaves(chat, ids, parent, now)) == AddPlaceholders(h, ids, parent, now)
    decreases |ids|
  {
    if ids != [] {
      var front, id := ids[..|ids| - 1], ids[|ids| - 1];
      var before := PlaceholderSaves(chat, front, parent, now);
      PlaceholdersAreSaves(chat, h, front, parent, now);
      assert (before + [Save(chat, id, Placeholder(id, parent, now), now)])[..|before|] == before;
    }
  }

  /** The saves of a follow-up, one after the other, are the follow-up. */
  lemma {:induction false} FollowUpIsItsSaves(chat: string, h: Hist, user: Option<Patch>, entries: seq<Id>, now: nat)
    ensures UpsertedAll(h, FollowUpSaves(chat, h, user, entries, now)) == FollowedUp(h, user, entries, now)
  {
    var ids := AssistantIds(entries);
    var h1 := WithUser(h, user, now);
    var h2 := WithParentLink(h1, user, now);
    var h3 := WithAnswerLinks(h2, user, ids, now);
    var a, b := UserSave(chat, user, now), ParentSave(chat, h1, user, now);
    var c, d := AnswersSave(chat, h2, user, ids, now), PlaceholderSaves(chat, ids, UserId(user), now);
    if a != [] { UpsertedOne(h, a[0]); }
    if b != [] { UpsertedOne(h1, b[0]); }
    if c != [] { UpsertedOne(h2, c[0]); }
    assert UpsertedAll(h, a) == h1 && UpsertedAll(h1, b) == h2 && UpsertedAll(h2, c) == h3;
    UpsertedAllConcat(h, a, b);
    UpsertedAllConcat(h, a + b, c);
    UpsertedAllConcat(h, a + b + c, d);
    PlaceholdersAreSaves(chat, h3, ids, UserId(user), now);
  }

  lemma {:induction false} SavedAllChats(s: Store, chat: string, saves: seq<Event>)
    requires chat in s.chats && forall e :: e in saves ==> e.Save? && e.chat == chat
    ensures SavedAll(s, saves).chats == s.chats[chat := UpsertedAll(s.chats[chat], saves)]
    decreases |saves|
  {
    if saves != [] {
      SavedAllChats(s, chat, saves[..|saves| - 1]);
    }
  }

  lemma {:induction false} SavedAllMirrors(len: nat, s: Store, saves: seq<Event>)
    requires Mirrors(len, s) && AllCarried(s) && forall e :: e in saves ==> e.Save? && Proper(len, e)
    ensures Mirrors(len, SavedAll(s, saves)) && AllCarried(SavedAll(s, saves))
    decreases |saves|
  {
    if saves != [] {
      var front, e := saves[..|saves| - 1], saves[|saves| - 1];
      SavedAllMirrors(len, s, front);
      assert Step(SavedAll(s, front), e, Saved(SavedAll(s, front), e));
      StepMirrors(len, SavedAll(s, front), e, SavedAll(s, saves));
      StepCarriesAll(len, SavedAll(s, front), e, SavedAll(s, saves));
    }
  }

  // ---------------------------------------------------------------- requests

  /** What a request leaves of both stores. */
  ghost predicate Handled(s: Store, r: Request, s': Store) {
    match r
    case Start(chat, user, entries, now) => Step(s, Insert(chat, NewChat(user, entries, now)), s')
    case Continue(chat, user, entries, now) =>
      s' == if chat in s.chats then SavedAll(s, FollowUpSaves(chat, s.chats[chat], user, entries, now)) else s
    case Remove(chat, id) => Step(s, Delete(chat, id), s')
    case Send(chat, incoming, keyless) => Step(s, Update(chat, incoming, keyless), s')
  }

  /** The user message of the call has a role. */
  ghost predicate HasRole(user: Option<Patch>) {
    NamedUser(user).Some? ==> user.value.role.Some? && user.value.role.value != ""
  }

  /** What the callers guarantee: chat ids of one length, a role on every message sent,
      answers that fit the chat, and updates that send the parents they name and a key
      with every message that is stored with a parent. */
  ghost predicate Fits(len: nat, s: Store, r: Request) {
    match r
    case Start(chat, user, entries, now) => |chat| == len && Runs.NewChatOk(user, entries) && HasRole(user)
    case Continue(chat, user, entries, now) =>
      now > 0 && HasRole(user) && (chat in s.chats ==> Runs.FollowUpOk(s.chats[chat].messages, user, entries))
    case Remove(_, _) => true
    case Send(chat, incoming, keyless) =>
      && Allowed(len, s, Update(chat, incoming, keyless))
      && Closed(Parents(incoming.messages)) && Acyclic(Parents(incoming.messages))
  }

  /** Rows and JSON agree, and every history is a forest with a null or present cursor. */
  ghost predicate Sound(len: nat, s: Store) {
    Mirrors(len, s) && AllCarried(s) && AllGood(s.chats)
  }

  lemma {:induction false} PutRoles(h: Hist, ids: seq<Id>, parent: Option<Id>, now: nat)
    requires WithRoles(h) && "" !in ids
    ensures WithRoles(PutPlaceholders(h, ids, parent, now))
    decreases |ids|
  {
    if ids != [] {
      assert ids[|ids| - 1] in ids;
      assert forall i :: i in ids[..|ids| - 1] ==> i in ids;
      PutRoles(h, ids[..|ids| - 1], parent, now);
    }
  }

  lemma {:induction false} NewChatHasRoles(user: Option<Patch>, entries: seq<Id>, now: nat)
    requires Runs.NewChatOk(user, entries) && HasRole(user)
    ensures WithRoles(NewChat(user, entries, now))
  {
    var ids, named := AssistantIds(entries), NamedUser(user);
    var start := if named.Some?
                 then Hist([named.value], map[named.value := AsSent(user.value).(childrenIds := ids)], None)
                 else Hist([], map[], None);
    PutRoles(start, ids, UserId(user), now);
    Runs.NewChatIsForest(user, entries, now);
  }

  lemma {:induction false} PlaceholderSavesAreProper(len: nat, chat: string, ids: seq<Id>, parent: Option<Id>, now: nat)
    requires "" !in ids
    ensures forall e :: e in PlaceholderSaves(chat, ids, parent, now) ==> Proper(len, e)
    decreases |ids|
  {
    if ids != [] {
      assert ids[|ids| - 1] in ids;
      assert forall i :: i in ids[..|ids| - 1] ==> i in ids;
      PlaceholderSavesAreProper(len, chat, ids[..|ids| - 1], parent, now);
    }
  }

  lemma {:induction false} FollowUpSavesAreProper(len: nat, chat: string, h: Hist, user: Option<Patch>, entries: seq<Id>, now: nat)
    requires HasRole(user)
    ensures forall e :: e in FollowUpSaves(chat, h, user, entries, now) ==> e.Save? && Proper(len, e)
  {
    PlaceholderSavesAreProper(len, chat, AssistantIds(entries), UserId(user), now);
    var h1 := WithUser(h, user, now);
    var h2 := WithParentLink(h1, user, now);
    assert forall e :: e in UserSave(chat, user, now) ==> Proper(len, e);
    assert forall e :: e in ParentSave(chat, h1, user, now) ==> Proper(len, e);
    assert forall e :: e in AnswersSave(chat, h2, user, AssistantIds(entries), now) ==> Proper(len, e);
  }

  ghost predicate AllGood(chats: map<string, Hist>) {
    forall c :: c in chats ==> Runs.Good(chats[c])
  }

  lemma {:induction false} NewChatIsGood(user: Option<Patch>, entries: seq<Id>, now: nat)
    requires Runs.NewChatOk(user, entries)
    ensures Runs.Good(NewChat(user, entries, now))
  {
    Runs.NewChatIsForest(user, entries, now);
    Runs.NewChatCursor(user, entries, now);
  }

  lemma {:induction false} ChangedIsSound(len: nat, s: Store, chat: string, h': Hist, s': Store)
    requires AllGood(s.chats) && Mirrors(len, s') && AllCarried(s') && s'.chats == s.chats[chat := h'] && Runs.Good(h')
    ensures Sound(len, s')
  {
  }

  lemma {:induction false} ContinueKeepsSound(len: nat, s: Store, chat: string, user: Option<Patch>, entries: seq<Id>, now: nat)
    requires Sound(len, s) && chat in s.chats && now > 0 && HasRole(user)
    requires Runs.FollowUpOk(s.chats[chat].messages, user, entries)
    ensures Sound(len, SavedAll(s, FollowUpSaves(chat, s.chats[chat], user, entries, now)))
  {
    var h := s.chats[chat];
    var saves := FollowUpSaves(chat, h, user, entries, now);
    FollowUpSavesAreProper(len, chat, h, user, entries, now);
    SavedAllMirrors(len, s, saves);
    SavedAllChats(s, chat, saves);
    FollowUpIsItsSaves(chat, h, user, entries, now);
    Runs.FollowUpKeepsGood(h, user, entries, now);
    ChangedIsSound(len, s, chat, FollowedUp(h, user, entries, now), SavedAll(s, saves));
  }

  lemma {:induction false} DeletionKeepsGood(h: Hist, id: Id, h': Hist)
    requires Runs.Good(h) && RepairedAndDeleted(h, id, h')
    ensures Runs.Good(h')
  {
    var repaired :| IsRepair(h, repaired) && if id in repaired.messages then IsDeletion(repaired, id, h') else h' == repaired;
    Runs.RepairKeepsGood(h, repaired);
    Runs.StepKeepsGood(repaired, Runs.DeleteEvent(id), h');
  }

  lemma {:induction false} RemoveKeepsSound(len: nat, s: Store, chat: string, id: Id, s': Store)
    requires Sound(len, s) && Step(s, Delete(chat, id), s')
    ensures Sound(len, s')
  {
    StepMirrors(len, s, Delete(chat, id), s');
    StepCarriesAll(len, s, Delete(chat, id), s');
    if chat in s.chats {
      DeletionKeepsGood(s.chats[chat], id, s'.chats[chat]);
      ChangedIsSound(len, s, chat, s'.chats[chat], s');
    }
  }

  lemma {:induction false} SendKeepsSound(len: nat, s: Store, chat: string, incoming: Hist, keyless: set<Id>, s': Store)
    requires Sound(len, s) && Allowed(len, s, Update(chat, incoming, keyless)) && Step(s, Update(chat, incoming, keyless), s')
    requires Closed(Parents(incoming.messages)) && Acyclic(Parents(incoming.messages))
    ensures Sound(len, s')
  {
    StepMirrors(len, s, Update(chat, incoming, keyless), s');
    StepCarriesAll(len, s, Update(chat, incoming, keyless), s');
    if chat in s.chats {
      var h := s.chats[chat];
      Runs.StepKeepsGood(h, Runs.MergeEvent(incoming), Merged(h, incoming));
      ChangedIsSound(len, s, chat, Merged(h, incoming), s');
    }
  }

  /** Each request keeps rows and JSON in agreement and every history a forest,
      although a follow-up breaks link symmetry between its saves. */
  lemma {:induction false} RequestKeepsSound(len: nat, s: Store, r: Request, s': Store)
    requires Sound(len, s) && Fits(len, s, r) && Handled(s, r, s')
    ensures Sound(len, s')
  {
    match r
    case Start(chat, user, entries, now) =>
      NewChatHasRoles(user, entries, now);
      NewChatIsGood(user, entries, now);
      StepMirrors(len, s, Insert(chat, NewChat(user, entries, now)), s');
      StepCarriesAll(len, s, Insert(chat, NewChat(user, entries, now)), s');
      if chat !in s.chats {
        ChangedIsSound(len, s, chat, NewChat(user, entries, now), s');
      }
    case Continue(chat, user, entries, now) =>
      if chat in s.chats {
        ContinueKeepsSound(len, s, chat, user, entries, now);
      }
    case Remove(chat, id) => RemoveKeepsSound(len, s, chat, id, s');
    case Send(chat, incoming, keyless) => SendKeepsSound(len, s, chat, incoming, keyless, s');
  }

  /** A run of requests on empty tables. */
  ghost predicate IsRequestRun(len: nat, requests: seq<Request>, stores: seq<Store>) {
    && |stores| == |requests| + 1
    && stores[0] == Store(map[], map[])
    && forall k :: 0 <= k < |requests| ==> Fits(len, stores[k], requests[k]) && Handled(stores[k], requests[k], stores[k + 1])
  }

  lemma {:induction false} RequestsKeepSound(len: nat, requests: seq<Request>, stores: seq<Store>, k: nat)
    requires IsRequestRun(len, requests, stores) && k < |stores|
    ensures Sound(len, stores[k])
    decreases k
  {
    if k > 0 {
      RequestsKeepSound(len, requests, stores, k - 1);
      RequestKeepsSound(len, stores[k - 1], requests[k - 1], stores[k]);
    } else {
      assert IsRun(len, [], [stores[0]]);
      RunsMirror(len, [], [stores[0]], 0);
    }
  }

  ghost predicate SameContents(a: Messages, b: Messages) {
    forall i :: i in b ==> i in a && a[i].id == i && a[i].role == b[i].role && a[i].content == b[i].content
  }

  /** After every request of every run the map rebuilt from the rows of any chat, in
      whatever order they are returned, has the ids, the parents, the child sets, the roles
      and the contents of the JSON history, and both are forests. */
  lemma {:induction false} RebuiltIsJson(len: nat, requests: seq<Request>, stores: seq<Store>, k: nat, chat: string, keys: seq<string>)
    requires IsRequestRun(len, requests, stores) && k < |stores|
    requires chat in stores[k].chats && IsSelect(stores[k].table, chat, keys)
    ensures
      var json := stores[k].chats[chat].messages;
      var rebuilt := Navigable(Collected(stores[k].table, chat, keys));
      && Parents(rebuilt) == Parents(json) && SameChildren(rebuilt, json) && SameContents(rebuilt, json)
      && IsForest(json) && IsForest(rebuilt)
  {
    RequestsKeepSound(len, requests, stores, k);
    MirroredIsRebuilt(len, stores[k], chat, keys);
    forall i | i in stores[k].chats[chat].messages {
      RebuiltContents(len, stores[k], chat, keys, i);
    }
  }
}
