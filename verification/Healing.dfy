/**
 Reading the message map of a chat. When the rows name parents that have no row,
 those parents are taken from the JSON history and written back as rows.
 */
module Healing {
  import opened Prelude
  import opened Forest
  import opened History
  import opened Completion
  import opened Rows
  import opened DualWrite
  import opened RowContents

  /** `get_unresolved_parent_ids` */
  function Unresolved(g: Links): set<Id> {
    set i | i in g && g[i].Some? && g[i].value != "" && g[i].value !in g :: g[i].value
  }

  /** The parents a call finds in the JSON history. */
  function Missing(g: Links, blob: Messages): set<Id> {
    Unresolved(g) * blob.Keys
  }

  /** Those of them that can be written as rows: a message without a role is skipped. */
  function Healable(g: Links, blob: Messages): set<Id> {
    set i | i in Missing(g, blob) && blob[i].role != ""
  }

  function Fill(g: Links, blob: Messages, ids: set<Id>): Links
    requires ids <= blob.Keys
  {
    g + map i | i in ids :: blob[i].parentId
  }

  /** The row links after one call. */
  function Healed(g: Links, blob: Messages): Links {
    Fill(g, blob, Healable(g, blob))
  }

  // ---------------------------------------------------------------- the read path

  method SelectRows(t: Table, chat: string) returns (keys: seq<string>)
    ensures IsSelect(t, chat, keys)
  {
    keys := [];
    var rest := set k | k in t && t[k].chatId == chat;
    while rest != {}
      invariant NoDup(keys)
      invariant forall k :: k in keys || k in rest <==> k in t && t[k].chatId == chat
      invariant forall k :: k in keys ==> k !in rest
      decreases rest
    {
      var k :| k in rest;
      keys := keys + [k];
      rest := rest - {k};
    }
  }

  method Listed(ids: set<Id>) returns (order: seq<Id>)
    ensures Elements(order) == ids
  {
    order := [];
    var rest := ids;
    while rest != {}
      invariant Elements(order) + rest == ids
      decreases rest
    {
      var i :| i in rest;
      order := order + [i];
      rest := rest - {i};
    }
  }

  /** The messages that a call takes from the JSON. */
  function Fetched(g: Links, blob: Messages): (r: Messages)
    ensures r.Keys == Missing(g, blob)
  {
    map i | i in Missing(g, blob) :: blob[i]
  }

  /** `m` is the map built from the rows of the chat, in some order of them, with
      `fetched` laid over it as it stands. */
  ghost predicate IsReadFrom(t: Table, chat: string, fetched: Messages, m: Messages) {
    exists keys :: IsSelect(t, chat, keys) && m == Navigable(Collected(t, chat, keys)) + fetched
  }

  /** `Chats.get_messages_map_by_chat_id` */
  method GetMessagesMap(store: ChatStore, chat: string, ghost len: nat) returns (m: Option<Messages>)
    requires WellKeyed(len, store.table) && |chat| == len
    requires "" !in RowLinks(store.table, chat)
    requires chat in store.chats ==> store.chats[chat].Valid()
    modifies store`table
    ensures WellKeyed(len, store.table)
    ensures forall c :: |c| == len && c != chat ==> RowLinks(store.table, c) == RowLinks(old(store.table), c)
    ensures
      var g := RowLinks(old(store.table), chat);
      if g != map[] then
        var blob := if chat in store.chats then store.chats[chat].messages else map[];
        && RowLinks(store.table, chat) == Healed(g, blob)
        && m.Some? && Parents(m.value) == Fill(g, blob, Missing(g, blob))
        && IsReadFrom(old(store.table), chat, Fetched(g, blob), m.value)
      else if chat in store.chats then
        && RowLinks(store.table, chat) == Written(store.chats[chat].order, store.chats[chat].messages)
        && m == Some(store.chats[chat].messages)
      else
        RowLinks(store.table, chat) == map[] && m == None
  {
    var keys := SelectRows(store.table, chat);
    RebuiltMap(len, store.table, chat, keys);
    m := RowsMap(store.table, chat, keys);
    if m.Some? {
      m := CompleteRows(store, chat, keys, m.value, len);
    } else if chat in store.chats {
      m := RebuildFrom(store, chat, len);
    }
  }

  /** The map built from the rows, completed from the JSON if there is one. */
  method CompleteRows(store: ChatStore, chat: string, ghost keys: seq<string>, rebuilt: Messages, ghost len: nat)
    returns (m: Option<Messages>)
    requires WellKeyed(len, store.table) && |chat| == len
    requires Parents(rebuilt) == RowLinks(store.table, chat)
    requires IsSelect(store.table, chat, keys) && rebuilt == Navigable(Collected(store.table, chat, keys))
    modifies store`table
    ensures WellKeyed(len, store.table)
    ensures forall c :: |c| == len && c != chat ==> RowLinks(store.table, c) == RowLinks(old(store.table), c)
    ensures
      var g := Parents(rebuilt);
      var blob := if chat in store.chats then store.chats[chat].messages else map[];
      && RowLinks(store.table, chat) == Healed(g, blob)
      && m.Some? && Parents(m.value) == Fill(g, blob, Missing(g, blob))
      && IsReadFrom(old(store.table), chat, Fetched(g, blob), m.value)
  {
    if chat in store.chats {
      m := HealFrom(store, chat, rebuilt, len);
      ReadFrom(old(store.table), chat, keys, Fetched(Parents(rebuilt), store.chats[chat].messages), m.value);
    } else {
      NothingToFetch(Parents(rebuilt));
      assert rebuilt + map[] == rebuilt;
      ReadFrom(store.table, chat, keys, map[], rebuilt);
      m := Some(rebuilt);
    }
  }

  lemma {:induction false} NothingToFetch(g: Links)
    ensures Missing(g, map[]) == {} && Fill(g, map[], {}) == g && Healed(g, map[]) == g && Fetched(g, map[]) == map[]
  {
    assert Healable(g, map[]) == {};
  }

  /** What a call returns, message by message: a missing parent as it stands in the JSON,
      with its content and its child list, and everything else from its row. */
  lemma {:induction false} ReadContents(len: nat, t: Table, chat: string, blob: Messages, m: Messages, i: Id)
    requires WellKeyed(len, t) && |chat| == len && "" !in RowLinks(t, chat)
    requires IsReadFrom(t, chat, Fetched(RowLinks(t, chat), blob), m)
    ensures i in RowLinks(t, chat) ==>
      && i in m && Key(chat, i) in t && m[i].id == i
      && m[i].role == t[Key(chat, i)].role && m[i].content == t[Key(chat, i)].content && m[i].parentId == t[Key(chat, i)].parentId
    ensures i !in RowLinks(t, chat) && i in blob && i != "" && (exists r :: r in RowLinks(t, chat) && RowLinks(t, chat)[r] == Some(i)) ==>
      i in m && m[i] == blob[i]
  {
    var g := RowLinks(t, chat);
    var keys :| IsSelect(t, chat, keys) && m == Navigable(Collected(t, chat, keys)) + Fetched(g, blob);
    if i in g {
      RowIsRead(len, t, chat, keys, i);
      assert i !in Fetched(g, blob);
    } else {
      MissingIsFetched(g, blob, i);
    }
  }

  lemma {:induction false} MissingIsFetched(g: Links, blob: Messages, i: Id)
    requires i !in g
    ensures i in blob && i != "" && (exists r :: r in g && g[r] == Some(i)) ==> i in Fetched(g, blob) && Fetched(g, blob)[i] == blob[i]
  {
  }

  lemma {:induction false} RowIsRead(len: nat, t: Table, chat: string, keys: seq<string>, i: Id)
    requires WellKeyed(len, t) && |chat| == len && IsSelect(t, chat, keys) && i in RowLinks(t, chat)
    ensures
      var m := Navigable(Collected(t, chat, keys));
      && i in m && Key(chat, i) in t && m[i].id == i
      && m[i].role == t[Key(chat, i)].role && m[i].content == t[Key(chat, i)].content && m[i].parentId == t[Key(chat, i)].parentId
  {
    CollectedParents(len, t, chat, keys);
    assert i in Parents(Collected(t, chat, keys).messages);
    CollectedContents(len, t, chat, keys, i);
    CollectedLinks(len, t, chat, keys);
  }

  lemma {:induction false} ReadFrom(t: Table, chat: string, keys: seq<string>, fetched: Messages, m: Messages)
    requires IsSelect(t, chat, keys) && m == Navigable(Collected(t, chat, keys)) + fetched
    ensures IsReadFrom(t, chat, fetched, m)
  {
  }

  /** The fallback when the chat has no rows. */
  method RebuildFrom(store: ChatStore, chat: string, ghost len: nat) returns (m: Option<Messages>)
    requires WellKeyed(len, store.table) && |chat| == len && chat in store.chats
    requires RowLinks(store.table, chat) == map[]
    modifies store`table
    ensures WellKeyed(len, store.table)
    ensures forall c :: |c| == len && c != chat ==> RowLinks(store.table, c) == RowLinks(old(store.table), c)
    ensures RowLinks(store.table, chat) == Written(store.chats[chat].order, store.chats[chat].messages)
    ensures m == Some(store.chats[chat].messages)
  {
    var h := store.chats[chat];
    BackfillLinks(len, store.table, chat, h.order, h.messages);
    store.Backfill(chat, h.order, h.messages);
    assert map[] + Written(h.order, h.messages) == Written(h.order, h.messages);
    m := Some(h.messages);
  }

  /** Fills the gaps of the rebuilt map from the JSON history, in memory and in the table. */
  method HealFrom(store: ChatStore, chat: string, rebuilt: Messages, ghost len: nat) returns (m: Option<Messages>)
    requires WellKeyed(len, store.table) && |chat| == len && chat in store.chats
    requires Parents(rebuilt) == RowLinks(store.table, chat)
    modifies store`table
    ensures WellKeyed(len, store.table)
    ensures forall c :: |c| == len && c != chat ==> RowLinks(store.table, c) == RowLinks(old(store.table), c)
    ensures
      var g, blob := Parents(rebuilt), store.chats[chat].messages;
      && RowLinks(store.table, chat) == Healed(g, blob)
      && m == Some(rebuilt + Fetched(g, blob)) && Parents(m.value) == Fill(g, blob, Missing(g, blob))
  {
    var blob := store.chats[chat].messages;
    var g := Parents(rebuilt);
    var missing := Missing(g, blob);
    var order := Listed(missing);
    var found := Fetched(g, blob);
    BackfillLinks(len, store.table, chat, order, found);
    WrittenIsHealable(g, blob, order, found);
    store.Backfill(chat, order, found);
    FillParents(rebuilt, blob, found);
    m := Some(rebuilt + found);
  }

  lemma {:induction false} WrittenIsHealable(g: Links, blob: Messages, order: seq<Id>, found: Messages)
    requires Elements(order) == Missing(g, blob) && found == Fetched(g, blob)
    ensures g + Written(order, found) == Healed(g, blob)
  {
    assert Written(order, found) == map i | i in Healable(g, blob) :: blob[i].parentId by {
      assert forall i :: i in order <==> i in Elements(order);
    }
  }

  lemma {:induction false} FillParents(rebuilt: Messages, blob: Messages, found: Messages)
    requires found == Fetched(Parents(rebuilt), blob)
    ensures Parents(rebuilt + found) == Fill(Parents(rebuilt), blob, Missing(Parents(rebuilt), blob))
  {
  }

  // ---------------------------------------------------------------- convergence

  /** The row links after `n` calls, the JSON history staying as it is. */
  ghost function HealedTimes(g: Links, blob: Messages, n: nat): Links
    decreases n
  {
    if n == 0 then g else HealedTimes(Healed(g, blob), blob, n - 1)
  }

  /** One call adds exactly the healable parents, takes their links from the JSON,
      and moves no row that was there. */
  lemma {:induction false} HealAddsOnly(g: Links, blob: Messages)
    ensures Healed(g, blob).Keys == g.Keys + Healable(g, blob) && Healable(g, blob) !! g.Keys
    ensures forall i :: i in g ==> Healed(g, blob)[i] == g[i]
    ensures forall i :: i in Healable(g, blob) ==> Healed(g, blob)[i] == blob[i].parentId
  {
  }

  lemma {:induction false} HealShrinksGap(g: Links, blob: Messages)
    requires Healable(g, blob) != {}
    ensures |blob.Keys - Healed(g, blob).Keys| < |blob.Keys - g.Keys|
    ensures |Healed(g, blob)| > |g|
  {
    HealAddsOnly(g, blob);
    var before, after := blob.Keys - g.Keys, blob.Keys - Healed(g, blob).Keys;
    assert before == after + Healable(g, blob) && after !! Healable(g, blob);
    assert |Healed(g, blob).Keys| == |g.Keys| + |Healable(g, blob)|;
  }

  /** `g` needs no healing: every parent a row names is a row, absent from the JSON,
      or a message without a role. */
  ghost predicate Settled(g: Links, blob: Messages) {
    forall i :: i in g && g[i].Some? && g[i].value != "" ==>
      g[i].value in g || g[i].value !in blob || blob[g[i].value].role == ""
  }

  lemma {:induction false} SettledIffNothingHealable(g: Links, blob: Messages)
    ensures Settled(g, blob) <==> Healable(g, blob) == {}
  {
    if Settled(g, blob) {
      forall p ensures p !in Healable(g, blob) {
        if p in Unresolved(g) {
          var i :| i in g && g[i] == Some(p) && p !in g;
        }
      }
    } else {
      var i :| i in g && g[i].Some? && g[i].value != ""
        && !(g[i].value in g || g[i].value !in blob || blob[g[i].value].role == "");
      assert g[i].value in Unresolved(g);
      assert g[i].value in Healable(g, blob);
    }
  }

  lemma {:induction false} NothingToHeal(g: Links, blob: Messages)
    requires Healable(g, blob) == {}
    ensures Healed(g, blob) == g
  {
  }

  lemma {:induction false} HealableMeansGap(g: Links, blob: Messages)
    requires Healable(g, blob) != {}
    ensures |blob.Keys - g.Keys| > 0
  {
    var i :| i in Healable(g, blob);
    assert i in blob.Keys - g.Keys;
  }

  lemma {:induction false} HealOnceProgresses(g: Links, blob: Messages, n: nat)
    requires |Healable(g, blob)| == 0 || |blob.Keys - g.Keys| <= n
    ensures n == 0 ==> |Healable(g, blob)| == 0
    ensures n > 0 ==> |Healable(Healed(g, blob), blob)| == 0 || |blob.Keys - Healed(g, blob).Keys| <= n - 1
  {
    if Healable(g, blob) == {} {
      NothingToHeal(g, blob);
    } else {
      HealableMeansGap(g, blob);
      HealShrinksGap(g, blob);
    }
  }

  lemma {:induction false} NothingLeftAfter(g: Links, blob: Messages, n: nat)
    requires |Healable(g, blob)| == 0 || |blob.Keys - g.Keys| <= n
    ensures |Healable(HealedTimes(g, blob, n), blob)| == 0
    decreases n
  {
    HealOnceProgresses(g, blob, n);
    if n > 0 {
      NothingLeftAfter(Healed(g, blob), blob, n - 1);
    }
  }

  /** Healing converges: after as many calls as the JSON has messages without a row
      nothing is left to heal. */
  lemma {:induction false} HealingConverges(g: Links, blob: Messages, n: nat)
    requires n >= |blob.Keys - g.Keys|
    ensures Settled(HealedTimes(g, blob, n), blob)
  {
    NothingLeftAfter(g, blob, n);
    SettledIffNothingHealable(HealedTimes(g, blob, n), blob);
  }

  /** `i` is an ancestor, along the links of `h`, of a row of `g`. */
  ghost predicate AboveSome(h: Links, g: Links, i: Id) {
    exists r :: r in g && Ancestor(h, i, r)
  }

  ghost predicate AddedFromJson(g: Links, blob: Messages, h: Links, i: Id) {
    i in blob && i in h && h[i] == blob[i].parentId && blob[i].role != "" && AboveSome(h, g, i)
  }

  ghost predicate Keeps(g: Links, h: Links) {
    forall i :: i in g ==> i in h && h[i] == g[i]
  }

  lemma {:induction false} HealedFromJson(g: Links, blob: Messages, i: Id)
    requires i in Healable(g, blob)
    ensures AddedFromJson(g, blob, Healed(g, blob), i)
  {
    var h := Healed(g, blob);
    var c :| c in g && g[c] == Some(i);
    assert h[c] == Some(i);
    assert Up(h, c, 1) == Up(h, i, 0);
    assert Ancestor(h, i, c);
  }

  /** However often it is called, healing never changes the parent of a row that was
      there, and adds only messages of the JSON that have a role and are ancestors
      of an original row. */
  lemma {:induction false} HealingAddsAncestors(g: Links, blob: Messages, n: nat)
    ensures
      var h := HealedTimes(g, blob, n);
      && Keeps(g, h)
      && (forall i :: i in h && i !in g ==> AddedFromJson(g, blob, h, i))
    decreases n
  {
    if n > 0 {
      var next, h := Healed(g, blob), HealedTimes(g, blob, n);
      HealAddsOnly(g, blob);
      HealingAddsAncestors(next, blob, n - 1);
      forall i | i in h && i !in g ensures AddedFromJson(g, blob, h, i) {
        AddedThroughNext(g, blob, next, h, i);
      }
    }
  }

  lemma {:induction false} AddedThroughNext(g: Links, blob: Messages, next: Links, h: Links, i: Id)
    requires next == Healed(g, blob) && Keeps(next, h) && i in h && i !in g
    requires i !in next ==> AddedFromJson(next, blob, h, i)
    ensures AddedFromJson(g, blob, h, i)
  {
    HealAddsOnly(g, blob);
    if i in next {
      HealedFromJson(g, blob, i);
      var r :| r in g && Ancestor(next, i, r);
      AncestorPersists(next, h, i, r);
    } else {
      var c :| c in next && Ancestor(h, i, c);
      if c !in g {
        HealedFromJson(g, blob, c);
        var r :| r in g && Ancestor(next, c, r);
        AncestorPersists(next, h, c, r);
        AncestorOfAncestor(h, i, c, r);
      }
    }
  }

  lemma {:induction false} AncestorPersists(g: Links, h: Links, a: Id, d: Id)
    requires Ancestor(g, a, d) && Keeps(g, h)
    ensures Ancestor(h, a, d)
  {
    var n: nat :| n >= 1 && Up(g, d, n) == Some(a);
    UpPersists(g, h, d, n);
  }

  lemma {:induction false} UpPersists(g: Links, h: Links, i: Id, n: nat)
    requires Up(g, i, n).Some? && Keeps(g, h)
    ensures Up(h, i, n) == Up(g, i, n)
    decreases n
  {
    if n > 0 {
      UpPersists(g, h, ParentOf(g, i).value, n - 1);
    }
  }

  lemma {:induction false} AncestorOfAncestor(h: Links, a: Id, c: Id, d: Id)
    requires Ancestor(h, a, c) && Ancestor(h, c, d)
    ensures Ancestor(h, a, d)
  {
    var n: nat :| n >= 1 && Up(h, d, n) == Some(c);
    var m: nat :| m >= 1 && Up(h, c, m) == Some(a);
    UpAdd(h, d, n, m);
  }

  /** When every JSON message has a role and the rows agree with a JSON history
      without dangling parents, the healed rows are closed under parents: history
      can be walked to its root. */
  lemma {:induction false} HealedRowsAreClosed(g: Links, blob: Messages, n: nat)
    requires n >= |blob.Keys - g.Keys|
    requires Closed(Parents(blob)) && forall i :: i in blob ==> i != "" && blob[i].role != ""
    requires forall i :: i in g ==> i in blob && g[i] == blob[i].parentId
    ensures Closed(HealedTimes(g, blob, n))
  {
    HealingConverges(g, blob, n);
    HealingAddsAncestors(g, blob, n);
    var h := HealedTimes(g, blob, n);
    forall i | ParentOf(h, i).Some? ensures ParentOf(h, i).value in h {
      assert ParentOf(Parents(blob), i) == h[i];
    }
  }

  // ---------------------------------------------------------------- one call

  /** The parent that the JSON gives `u` is not one the JSON could still add to `have`. */
  ghost predicate ParentAtHand(blob: Messages, u: Id, have: set<Id>) {
    u in blob && blob[u].parentId.Some? && blob[u].parentId.value != "" && blob[u].parentId.value in blob ==>
      blob[u].parentId.value in have
  }

  lemma {:induction false} GapsAfterFill(g: Links, blob: Messages, ids: set<Id>, p: Id)
    requires Healable(g, blob) <= ids <= Missing(g, blob)
    ensures p in Missing(Fill(g, blob, ids), blob) <==>
      || (p in Missing(g, blob) && p !in ids)
      || (p in blob && p != "" && p !in g && p !in ids && exists u :: u in ids && blob[u].parentId == Some(p))
  {
    var h := Fill(g, blob, ids);
    if p in Missing(h, blob) {
      var u :| u in h && h[u] == Some(p) && p != "" && p !in h;
      if u !in ids {
        assert g[u] == Some(p);
      }
    }
    if p in Missing(g, blob) && p !in ids {
      var u :| u in g && g[u] == Some(p);
      assert u !in ids;
      assert h[u] == Some(p);
    }
    if u :| u in ids && blob[u].parentId == Some(p) {
      assert h[u] == Some(p);
    }
  }

  /** One call returns a map that the JSON cannot complete further exactly when each
      parent it fetched brings no new gap: its own parent is a row, fetched too, or
      absent from the JSON. */
  lemma {:induction false} ReturnedMapIsCompleteIff(g: Links, blob: Messages)
    ensures Missing(Fill(g, blob, Missing(g, blob)), blob) == {} <==>
      forall u :: u in Missing(g, blob) ==> ParentAtHand(blob, u, g.Keys + Missing(g, blob))
  {
    var fetched := Missing(g, blob);
    var returned := Fill(g, blob, fetched);
    forall p {
      GapsAfterFill(g, blob, fetched, p);
    }
    forall u | u in fetched && !ParentAtHand(blob, u, g.Keys + fetched)
      ensures blob[u].parentId.value in Missing(returned, blob)
    {
    }
    if p :| p in Missing(returned, blob) {
      var u :| u in fetched && blob[u].parentId == Some(p);
      assert !ParentAtHand(blob, u, g.Keys + fetched);
    }
  }

  /** The messages of the JSON that can be written as rows. */
  function WithRole(blob: Messages): (r: Messages)
    ensures r.Keys <= blob.Keys
  {
    map i | i in blob && blob[i].role != "" :: blob[i]
  }

  /** The same for the rows: one call is enough exactly when the parent of each row it
      adds is a row, added too, or nothing that could become a row. */
  lemma {:induction false} OneCallSettlesIff(g: Links, blob: Messages)
    ensures Settled(Healed(g, blob), blob) <==>
      forall u :: u in Healable(g, blob) ==> ParentAtHand(WithRole(blob), u, g.Keys + Healable(g, blob))
  {
    var roled := WithRole(blob);
    assert forall h: Links :: Healable(h, blob) == Missing(h, roled);
    assert Healed(g, blob) == Fill(g, roled, Missing(g, roled));
    SettledIffNothingHealable(Healed(g, blob), blob);
    ReturnedMapIsCompleteIff(g, roled);
  }

  /** A family where one call leaves a gap: two messages in a row of one branch have
      no rows, so the returned map names the upper one without containing it. */
  lemma {:induction false} OneCallLeavesGap(g: Links, blob: Messages, row: Id, upper: Id, top: Id)
    requires row in g && g[row] == Some(upper) && upper != "" && upper !in g
    requires upper in blob && blob[upper].parentId == Some(top) && top != "" && top != upper
    requires top !in g && forall i :: i in g ==> g[i] != Some(top)
    ensures
      var returned := Fill(g, blob, Missing(g, blob));
      upper in returned && top in Unresolved(returned) && (top in blob ==> Missing(returned, blob) != {})
  {
    var returned := Fill(g, blob, Missing(g, blob));
    assert upper in Unresolved(g);
    assert top !in Unresolved(g);
    assert returned[upper] == Some(top);
    if top in blob {
      assert !ParentAtHand(blob, upper, g.Keys + Missing(g, blob));
      ReturnedMapIsCompleteIff(g, blob);
    }
  }
}
