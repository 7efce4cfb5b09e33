/**
 Channel membership rows and the lookup of a direct-message channel by its members.
 */
module Channels {
  import opened Prelude

  /** A row of `channel_member`; leaving a channel only clears `active`. */
  datatype Member = Member(channel: Id, user: Id, active: bool)

  /** The rows, and the type of every channel. */
  datatype Store = Store(rows: seq<Member>, types: map<Id, string>)

  ghost predicate OneRowEach(rows: seq<Member>) {
    forall i, j :: 0 <= i < j < |rows| ==> rows[i].channel != rows[j].channel || rows[i].user != rows[j].user
  }

  /** The users who have a row for the channel, active or not. */
  function UsersOf(rows: seq<Member>, channel: Id): set<Id> {
    set m | m in rows && m.channel == channel :: m.user
  }

  /** `[membership(channel, u) for u in users]`, in any order. */
  ghost predicate NewRows(added: seq<Member>, channel: Id, users: set<Id>) {
    && (forall m :: m in added ==> m.channel == channel && m.active)
    && UsersOf(added, channel) == users
    && OneRowEach(added)
  }

  function WithoutUsers(rows: seq<Member>, channel: Id, users: set<Id>): (r: seq<Member>)
    ensures forall m :: m in r <==> m in rows && !(m.channel == channel && m.user in users)
    ensures |r| <= |rows|
  {
    if rows == [] then []
    else
      var m := rows[|rows| - 1];
      var rest := WithoutUsers(rows[..|rows| - 1], channel, users);
      if m.channel == channel && m.user in users then rest else rest + [m]
  }

  /** The first row of the user in the channel becomes inactive. */
  function LeftBy(rows: seq<Member>, channel: Id, user: Id): (r: seq<Member>)
    ensures |r| == |rows|
    ensures forall i :: 0 <= i < |rows| ==> r[i].channel == rows[i].channel && r[i].user == rows[i].user
  {
    if rows == [] then []
    else if rows[0].channel == channel && rows[0].user == user then [rows[0].(active := false)] + rows[1..]
    else [rows[0]] + LeftBy(rows[1..], channel, user)
  }

  // ---------------------------------------------------------------- the operations

  datatype Event =
    | Create(channel: Id, kind: string, users: set<Id>)
    | Add(channel: Id, users: set<Id>)
    | Join(channel: Id, user: Id)
    | Leave(channel: Id, user: Id)
    | Remove(channel: Id, users: set<Id>)

  /** `users` is what `_collect_unique_user_ids` returned. A new channel has a fresh id. */
  ghost predicate Step(s: Store, e: Event, s': Store) {
    match e
    case Create(channel, kind, users) =>
      && channel !in s.types && UsersOf(s.rows, channel) == {}
      && s'.types == s.types[channel := kind]
      && if kind == "group" || kind == "dm"
         then exists added :: NewRows(added, channel, users) && s'.rows == s.rows + added
         else s'.rows == s.rows
    case Add(channel, users) =>
      && s'.types == s.types
      && exists added :: NewRows(added, channel, users - UsersOf(s.rows, channel)) && s'.rows == s.rows + added
    case Join(channel, user) =>
      && s'.types == s.types
      && s'.rows == s.rows + if user in UsersOf(s.rows, channel) then [] else [Member(channel, user, true)]
    case Leave(channel, user) =>
      s' == s.(rows := LeftBy(s.rows, channel, user))
    case Remove(channel, users) =>
      s' == s.(rows := WithoutUsers(s.rows, channel, users))
  }

  class MembershipTable {
    var rows: seq<Member>
    var types: map<Id, string>

    ghost function View(): Store
      reads this
    {
      Store(rows, types)
    }

    constructor ()
      ensures View() == Store([], map[])
    {
      rows, types := [], map[];
    }

    /** The loop of `_create_membership_models`. */
    method MembershipModels(channel: Id, users: set<Id>) returns (added: seq<Member>)
      ensures NewRows(added, channel, users)
    {
      added := [];
      var rest := users;
      while rest != {}
        invariant rest <= users && NewRows(added, channel, users - rest)
        decreases rest
      {
        var u :| u in rest;
        ghost var before := added;
        assert u !in UsersOf(before, channel);
        added := added + [Member(channel, u, true)];
        UsersOfConcat(before, [Member(channel, u, true)], channel);
        assert UsersOf([Member(channel, u, true)], channel) == {u};
        assert users - (rest - {u}) == (users - rest) + {u};
        rest := rest - {u};
      }
    }

    method InsertNewChannel(channel: Id, kind: string, users: set<Id>)
      requires channel !in types && UsersOf(rows, channel) == {}
      modifies this
      ensures Step(old(View()), Create(channel, kind, users), View())
      ensures UsersOf(rows, channel) == if kind == "group" || kind == "dm" then users else {}
      ensures |rows| >= |old(rows)| && rows[..|old(rows)|] == old(rows)
      ensures forall i :: |old(rows)| <= i < |rows| ==> rows[i].channel == channel && rows[i].active
    {
      ghost var before := rows;
      if kind == "group" || kind == "dm" {
        var added := MembershipModels(channel, users);
        UsersOfConcat(rows, added, channel);
        rows := rows + added;
        assert forall i :: |before| <= i < |rows| ==> rows[i] in added;
      }
      types := types[channel := kind];
    }

    method AddMembers(channel: Id, users: set<Id>)
      modifies this
      ensures Step(old(View()), Add(channel, users), View())
      ensures UsersOf(rows, channel) == UsersOf(old(rows), channel) + users
      ensures |rows| >= |old(rows)| && rows[..|old(rows)|] == old(rows)
      ensures forall i :: |old(rows)| <= i < |rows| ==>
        rows[i].channel == channel && rows[i].active && rows[i].user in users && rows[i].user !in UsersOf(old(rows), channel)
    {
      ghost var before := rows;
      var added := MembershipModels(channel, users - UsersOf(rows, channel));
      UsersOfConcat(rows, added, channel);
      rows := rows + added;
      forall i | |before| <= i < |rows|
        ensures rows[i].channel == channel && rows[i].active && rows[i].user in users && rows[i].user !in UsersOf(before, channel)
      {
        assert rows[i] in added && rows[i].user in UsersOf(added, channel);
      }
    }

    method JoinChannel(channel: Id, user: Id)
      modifies this
      ensures Step(old(View()), Join(channel, user), View())
      ensures UsersOf(rows, channel) == UsersOf(old(rows), channel) + {user}
      ensures forall c :: c != channel ==> UsersOf(rows, c) == UsersOf(old(rows), c)
      ensures |rows| >= |old(rows)| && rows[..|old(rows)|] == old(rows)
      ensures forall i :: |old(rows)| <= i < |rows| ==> rows[i].channel == channel && rows[i].user == user && rows[i].active
    {
      ghost var added := if user in UsersOf(rows, channel) then [] else [Member(channel, user, true)];
      forall c {
        UsersOfConcat(rows, added, c);
      }
      assert UsersOf([Member(channel, user, true)], channel) == {user};
      assert rows + [] == rows;
      if user !in UsersOf(rows, channel) {
        rows := rows + [Member(channel, user, true)];
      }
    }

    method LeaveChannel(channel: Id, user: Id) returns (found: bool)
      modifies this
      ensures Step(old(View()), Leave(channel, user), View())
      ensures found <==> user in UsersOf(old(rows), channel)
      ensures forall c :: UsersOf(rows, c) == UsersOf(old(rows), c)
      ensures |rows| == |old(rows)|
      ensures forall i :: 0 <= i < |rows| && !(rows[i].channel == channel && rows[i].user == user) ==> rows[i] == old(rows)[i]
      ensures OneRowEach(old(rows)) ==> forall m :: m in rows && m.channel == channel && m.user == user ==> !m.active
    {
      if OneRowEach(rows) {
        LeftIsInactive(rows, channel, user);
      }
      forall c {
        UsersAfterLeave(rows, channel, user, c);
      }
      OthersStay(rows, channel, user);
      found := user in UsersOf(rows, channel);
      rows := LeftBy(rows, channel, user);
    }

    method RemoveMembers(channel: Id, users: set<Id>) returns (removed: nat)
      modifies this
      ensures Step(old(View()), Remove(channel, users), View())
      ensures removed == |old(rows)| - |rows|
      ensures UsersOf(rows, channel) == UsersOf(old(rows), channel) - users
      ensures forall c :: c != channel ==> UsersOf(rows, c) == UsersOf(old(rows), c)
      ensures OneRowEach(old(rows)) ==> removed == |UsersOf(old(rows), channel) * users|
    {
      if OneRowEach(rows) {
        RemovedAreCounted(rows, channel, users);
        CountsAreSizes(rows, channel, users);
      }
      var kept := WithoutUsers(rows, channel, users);
      removed := |rows| - |kept|;
      rows := kept;
    }
  }

  lemma {:induction false} UsersOfConcat(a: seq<Member>, b: seq<Member>, channel: Id)
    ensures UsersOf(a + b, channel) == UsersOf(a, channel) + UsersOf(b, channel)
  {
  }

  /** Leaving touches no row of another user or channel. */
  lemma {:induction false} OthersStay(rows: seq<Member>, channel: Id, user: Id)
    ensures forall i :: 0 <= i < |rows| && !(rows[i].channel == channel && rows[i].user == user) ==> LeftBy(rows, channel, user)[i] == rows[i]
    decreases |rows|
  {
    if rows != [] && !(rows[0].channel == channel && rows[0].user == user) {
      OthersStay(rows[1..], channel, user);
    }
  }

  lemma {:induction false} UsersAfterLeave(rows: seq<Member>, channel: Id, user: Id, c: Id)
    ensures UsersOf(LeftBy(rows, channel, user), c) == UsersOf(rows, c)
  {
    var left := LeftBy(rows, channel, user);
    forall u ensures u in UsersOf(left, c) <==> u in UsersOf(rows, c) {
      if u in UsersOf(rows, c) {
        var i :| 0 <= i < |rows| && rows[i].channel == c && rows[i].user == u;
        assert left[i] in left;
      }
    }
  }

  /** With one row for each user the row that leaving changes is the only one. */
  lemma {:induction false} LeftIsInactive(rows: seq<Member>, channel: Id, user: Id)
    requires OneRowEach(rows)
    ensures forall m :: m in LeftBy(rows, channel, user) && m.channel == channel && m.user == user ==> !m.active
    decreases |rows|
  {
    if rows != [] && !(rows[0].channel == channel && rows[0].user == user) {
      LeftIsInactive(rows[1..], channel, user);
    }
  }

  lemma {:induction false} RemovedAreCounted(rows: seq<Member>, channel: Id, users: set<Id>)
    ensures |rows| - |WithoutUsers(rows, channel, users)| == MatchCount(rows, channel, users)
    decreases |rows|
  {
    if rows != [] {
      RemovedAreCounted(rows[..|rows| - 1], channel, users);
    }
  }

  // ---------------------------------------------------------------- at most one row

  lemma {:induction false} AppendKeepsOneRow(rows: seq<Member>, channel: Id, added: seq<Member>)
    requires OneRowEach(rows) && OneRowEach(added)
    requires forall m :: m in added ==> m.channel == channel && m.user !in UsersOf(rows, channel)
    ensures OneRowEach(rows + added)
  {
    var all := rows + added;
    forall i, j | 0 <= i < j < |all| ensures all[i].channel != all[j].channel || all[i].user != all[j].user {
      if i < |rows| <= j {
        assert all[i] in rows && all[j] in added;
      }
    }
  }

  lemma {:induction false} RemoveKeepsOneRow(rows: seq<Member>, channel: Id, users: set<Id>)
    requires OneRowEach(rows)
    ensures OneRowEach(WithoutUsers(rows, channel, users))
    decreases |rows|
  {
    if rows != [] {
      var front, m := rows[..|rows| - 1], rows[|rows| - 1];
      RemoveKeepsOneRow(front, channel, users);
      var rest := WithoutUsers(front, channel, users);
      forall x | x in rest ensures x.channel != m.channel || x.user != m.user {
        assert x in front;
      }
    }
  }

  lemma {:induction false} StepKeepsOneRow(s: Store, e: Event, s': Store)
    requires OneRowEach(s.rows) && Step(s, e, s')
    ensures OneRowEach(s'.rows)
  {
    match e
    case Create(channel, kind, users) =>
      if kind == "group" || kind == "dm" {
        var added :| NewRows(added, channel, users) && s'.rows == s.rows + added;
        AppendKeepsOneRow(s.rows, channel, added);
      }
    case Add(channel, users) =>
      var fresh_ := users - UsersOf(s.rows, channel);
      var added :| NewRows(added, channel, fresh_) && s'.rows == s.rows + added;
      assert forall m :: m in added ==> m.user in UsersOf(added, channel);
      AppendKeepsOneRow(s.rows, channel, added);
    case Join(channel, user) =>
    case Leave(channel, user) =>
    case Remove(channel, users) =>
      RemoveKeepsOneRow(s.rows, channel, users);
  }

  ghost predicate IsRun(events: seq<Event>, stores: seq<Store>) {
    && |stores| == |events| + 1 && stores[0] == Store([], map[])
    && forall k :: 0 <= k < |events| ==> Step(stores[k], events[k], stores[k + 1])
  }

  /** Every sequential run keeps at most one row for each channel and user. */
  lemma {:induction false} RunsKeepOneRow(events: seq<Event>, stores: seq<Store>, k: nat)
    requires IsRun(events, stores) && k < |stores|
    ensures OneRowEach(stores[k].rows)
    decreases k
  {
    if k > 0 {
      RunsKeepOneRow(events, stores, k - 1);
      StepKeepsOneRow(stores[k - 1], events[k - 1], stores[k]);
    }
  }

  // ---------------------------------------------------------------- the lookup

  /** `count(user_id)` in the channel's group. */
  function Count(rows: seq<Member>, channel: Id): nat {
    if rows == [] then 0
    else Count(rows[..|rows| - 1], channel) + if rows[|rows| - 1].channel == channel then 1 else 0
  }

  /** `sum(case(user_id in users: 1, else: 0))` in the channel's group. */
  function MatchCount(rows: seq<Member>, channel: Id, users: set<Id>): nat {
    if rows == [] then 0
    else MatchCount(rows[..|rows| - 1], channel, users)
         + if rows[|rows| - 1].channel == channel && rows[|rows| - 1].user in users then 1 else 0
  }

  /** The channel has a group in the subquery, and the group passes both conditions. */
  predicate Selected(rows: seq<Member>, channel: Id, users: set<Id>) {
    UsersOf(rows, channel) != {} && Count(rows, channel) == |users| && MatchCount(rows, channel, users) == |users|
  }

  lemma {:induction false} UsersStep(rows: seq<Member>, m: Member, channel: Id)
    requires OneRowEach(rows + [m])
    ensures UsersOf(rows + [m], channel) == UsersOf(rows, channel) + (if m.channel == channel then {m.user} else {})
    ensures m.channel == channel ==> m.user !in UsersOf(rows, channel)
  {
    UsersOfConcat(rows, [m], channel);
    assert UsersOf([m], channel) == if m.channel == channel then {m.user} else {};
    var all := rows + [m];
    assert all[|rows|] == m && forall i :: 0 <= i < |rows| ==> all[i] == rows[i];
  }

  lemma {:induction false} SizesStep(before: set<Id>, user: Id, users: set<Id>)
    requires user !in before
    ensures |before + {user}| == |before| + 1
    ensures |(before + {user}) * users| == |before * users| + (if user in users then 1 else 0)
  {
    if user in users {
      assert (before + {user}) * users == before * users + {user};
    } else {
      assert (before + {user}) * users == before * users;
    }
  }

  /** With one row for each user the count is the number of members, and the sum the
      number of wanted members. */
  lemma {:induction false} CountsAreSizes(rows: seq<Member>, channel: Id, users: set<Id>)
    requires OneRowEach(rows)
    ensures Count(rows, channel) == |UsersOf(rows, channel)|
    ensures MatchCount(rows, channel, users) == |UsersOf(rows, channel) * users|
    decreases |rows|
  {
    if rows != [] {
      var front, m := rows[..|rows| - 1], rows[|rows| - 1];
      CountsAreSizes(front, channel, users);
      assert rows == front + [m];
      UsersStep(front, m, channel);
      if m.channel == channel {
        SizesStep(UsersOf(front, channel), m.user, users);
      }
    }
  }

  lemma {:induction false} SubsetOfSameSize(a: set<Id>, b: set<Id>)
    requires a <= b && |a| == |b|
    ensures a == b
  {
    if x :| x in b && x !in a {
      var c := b - {x};
      assert a <= c && |c| == |b| - 1;
      SubsetCard(a, c);
    }
  }

  /** The two counts pick a channel exactly when its members are the wanted users:
      as many rows as users, all of them wanted, each user at most once. */
  lemma {:induction false} SelectedIffExactMembers(rows: seq<Member>, channel: Id, users: set<Id>)
    requires OneRowEach(rows) && users != {}
    ensures Selected(rows, channel, users) <==> UsersOf(rows, channel) == users
  {
    CountsAreSizes(rows, channel, users);
    var members := UsersOf(rows, channel);
    if Selected(rows, channel, users) {
      SubsetOfSameSize(members * users, users);
      SubsetOfSameSize(members * users, members);
    }
    if members == users {
      assert members * users == users;
    }
  }

  /** On any rows: the sum reaches the count exactly when only wanted users have rows. */
  lemma {:induction false} CountsCompare(rows: seq<Member>, channel: Id, users: set<Id>)
    ensures MatchCount(rows, channel, users) <= Count(rows, channel)
    ensures MatchCount(rows, channel, users) == Count(rows, channel) <==> UsersOf(rows, channel) <= users
    decreases |rows|
  {
    if rows != [] {
      var front, m := rows[..|rows| - 1], rows[|rows| - 1];
      CountsCompare(front, channel, users);
      assert rows == front + [m];
      UsersOfConcat(front, [m], channel);
      assert UsersOf([m], channel) == if m.channel == channel then {m.user} else {};
    }
  }

  /** On any rows, duplicates included: the lookup picks a wrong channel exactly when
      only some of the wanted users have rows there, but as many rows as wanted users. */
  lemma {:induction false} LookupIsFooledIff(rows: seq<Member>, channel: Id, users: set<Id>)
    ensures Selected(rows, channel, users) && UsersOf(rows, channel) != users <==>
      {} < UsersOf(rows, channel) < users && Count(rows, channel) == |users|
  {
    CountsCompare(rows, channel, users);
  }

  /** Without the invariant the counts can be fooled: a user with two rows stands in
      for a missing one. */
  lemma {:induction false} DuplicateRowFoolsLookup(channel: Id, a: Id, b: Id)
    requires a != b
    ensures
      var rows := [Member(channel, a, true), Member(channel, a, true)];
      Selected(rows, channel, {a, b}) && UsersOf(rows, channel) == {a}
  {
    var m := Member(channel, a, true);
    var rows := [m, m];
    assert rows[..1] == [m] && [m][..0] == [];
    assert Count(rows, channel) == Count([m], channel) + 1;
    assert MatchCount(rows, channel, {a, b}) == MatchCount([m], channel, {a, b}) + 1;
    assert |{a, b}| == 2 by { assert {a, b} - {a} == {b}; }
    assert m in rows;
  }

  /** `get_dm_channel_by_user_ids`: on rows that a run can produce it finds a channel
      exactly when some direct-message channel's members are the given users, and
      what it finds is one. */
  method FindDmChannel(table: MembershipTable, userIds: seq<Id>) returns (r: Option<Id>)
    requires OneRowEach(table.rows) && userIds != []
    ensures r.Some? ==>
      && r.value in table.types && table.types[r.value] == "dm"
      && UsersOf(table.rows, r.value) == Elements(userIds)
    ensures r.None? ==>
      forall c :: c in table.types && table.types[c] == "dm" ==> UsersOf(table.rows, c) != Elements(userIds)
  {
    var unique := set u | u in userIds;
    assert unique == Elements(userIds);
    assert userIds[0] in unique;
    var rest := table.types.Keys;
    while rest != {}
      invariant rest <= table.types.Keys
      invariant forall c :: c in table.types && table.types[c] == "dm" && c !in rest ==> UsersOf(table.rows, c) != unique
      decreases rest
    {
      var c :| c in rest;
      SelectedIffExactMembers(table.rows, c, unique);
      if table.types[c] == "dm" && Selected(table.rows, c, unique) {
        return Some(c);
      }
      rest := rest - {c};
    }
    r := None;
  }
}
