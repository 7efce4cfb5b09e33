/**
 The access decision over `access_grant` rows, in the forms in which it is asked:
 for one resource, for many, for all users, and as a filter of a listing.
 */
module Access {
  import opened Prelude

  datatype Grant = Grant(resourceType: string, resourceId: Id, principalType: string, principalId: Id, permission: string)

  /** The grants, who belongs to which group, and the users with their pending flag. */
  datatype World = World(grants: set<Grant>, members: map<Id, set<Id>>, pending: map<Id, bool>)

  /** `Groups.get_groups_by_member_id` */
  function GroupsOf(w: World, user: Id): set<Id> {
    set g | g in w.members && user in w.members[g]
  }

  predicate Concerns(g: Grant, resourceType: string, resourceId: Id, permission: string) {
    g.resourceType == resourceType && g.resourceId == resourceId && g.permission == permission
  }

  predicate IsPublic(g: Grant) {
    g.principalType == "user" && g.principalId == "*"
  }

  predicate Names(g: Grant, user: Id, groups: set<Id>) {
    (g.principalType == "user" && g.principalId == user) || (g.principalType == "group" && g.principalId in groups)
  }

  predicate Public(w: World, resourceType: string, resourceId: Id, permission: string) {
    exists g :: g in w.grants && Concerns(g, resourceType, resourceId, permission) && IsPublic(g)
  }

  /** `has_access` */
  predicate HasAccess(w: World, user: Id, resourceType: string, resourceId: Id, permission: string) {
    exists g :: g in w.grants && Concerns(g, resourceType, resourceId, permission)
      && (IsPublic(g) || Names(g, user, GroupsOf(w, user)))
  }

  /** `get_accessible_resource_ids`: one query over the grants. */
  function AccessibleIds(w: World, user: Id, resourceType: string, ids: seq<Id>, permission: string): set<Id> {
    if ids == [] then {}
    else
      set g | g in w.grants && g.resourceType == resourceType && g.resourceId in ids && g.permission == permission
        && (IsPublic(g) || Names(g, user, GroupsOf(w, user))) :: g.resourceId
  }

  /** The batch form is the single form asked for each id. */
  lemma {:induction false} BatchIsFilter(w: World, user: Id, resourceType: string, ids: seq<Id>, permission: string)
    ensures AccessibleIds(w, user, resourceType, ids, permission) ==
      set i | i in ids && HasAccess(w, user, resourceType, i, permission)
  {
    var batch := AccessibleIds(w, user, resourceType, ids, permission);
    forall i ensures i in batch <==> i in ids && HasAccess(w, user, resourceType, i, permission) {
      if i in ids && HasAccess(w, user, resourceType, i, permission) {
        var g :| g in w.grants && Concerns(g, resourceType, i, permission)
          && (IsPublic(g) || Names(g, user, GroupsOf(w, user)));
        assert g.resourceId == i;
      }
    }
  }

  /** `get_users_with_access`: the loops over the grants of one resource. */
  method UsersWithAccess(w: World, resourceType: string, resourceId: Id, permission: string) returns (users: set<Id>)
    ensures forall u :: u in users <==>
      && u in w.pending
      && HasAccess(w, u, resourceType, resourceId, permission)
      && !(Public(w, resourceType, resourceId, permission) && w.pending[u])
  {
    var found: set<Id> := {};
    var all := set g | g in w.grants && Concerns(g, resourceType, resourceId, permission);
    var rest := all;
    while rest != {}
      invariant rest <= all
      invariant forall g :: g in all && g !in rest ==> !IsPublic(g)
      invariant forall u :: u in found <==> exists g :: g in all && g !in rest && Names(g, u, GroupsOf(w, u))
      decreases rest
    {
      var g :| g in rest;
      if IsPublic(g) {
        assert Public(w, resourceType, resourceId, permission);
        return set u | u in w.pending && !w.pending[u];
      }
      ghost var before, oldRest := found, rest;
      if g.principalType == "user" {
        found := found + {g.principalId};
      } else if g.principalType == "group" && g.principalId in w.members {
        found := found + w.members[g.principalId];
      }
      rest := rest - {g};
      forall u ensures u in found <==> exists x :: x in all && x !in rest && Names(x, u, GroupsOf(w, u)) {
        assert u in found <==> u in before || Names(g, u, GroupsOf(w, u));
        assert forall x :: x in all && x !in rest <==> x == g || (x in all && x !in oldRest);
      }
    }
    users := set u | u in found && u in w.pending;
  }

  // ---------------------------------------------------------------- listings

  datatype Row = Row(id: Id, owner: Id)

  /** `filter`: a user, group ids, both or neither. */
  datatype Viewer = Viewer(user: Option<Id>, groups: set<Id>)

  predicate ViewerNamed(g: Grant, v: Viewer) {
    (v.user.Some? && v.user.value != "" && g.principalType == "user" && g.principalId == v.user.value)
    || (g.principalType == "group" && g.principalId in v.groups)
  }

  predicate Named(w: World, v: Viewer, resourceType: string, id: Id, permission: string) {
    exists g :: g in w.grants && Concerns(g, resourceType, id, permission) && ViewerNamed(g, v)
  }

  predicate Owns(v: Viewer, r: Row) {
    v.user.Some? && v.user.value != "" && r.owner == v.user.value
  }

  /** The listing filter for a permission other than `read_only`. */
  predicate Listed(w: World, v: Viewer, resourceType: string, r: Row, permission: string) {
    if v.groups == {} && (v.user.None? || v.user.value == "") then true
    else Owns(v, r) || Public(w, resourceType, r.id, permission) || Named(w, v, resourceType, r.id, permission)
  }

  /** The `read_only` listing. */
  predicate ListedReadOnly(w: World, v: Viewer, resourceType: string, r: Row) {
    && Named(w, v, resourceType, r.id, "read")
    && !Named(w, v, resourceType, r.id, "write")
    && !Public(w, resourceType, r.id, "read")
    && !Owns(v, r)
  }

  /** For a user with all their groups the listing keeps exactly the owned and the
      accessible rows. */
  lemma {:induction false} ListingIsOwnedOrAccessible(w: World, user: Id, resourceType: string, r: Row, permission: string)
    requires user != ""
    ensures Listed(w, Viewer(Some(user), GroupsOf(w, user)), resourceType, r, permission) <==>
      r.owner == user || HasAccess(w, user, resourceType, r.id, permission)
  {
    var v := Viewer(Some(user), GroupsOf(w, user));
    if HasAccess(w, user, resourceType, r.id, permission) {
      var g :| g in w.grants && Concerns(g, resourceType, r.id, permission) && (IsPublic(g) || Names(g, user, GroupsOf(w, user)));
      assert IsPublic(g) || ViewerNamed(g, v);
    }
    if Named(w, v, resourceType, r.id, permission) {
      var g :| g in w.grants && Concerns(g, resourceType, r.id, permission) && ViewerNamed(g, v);
      assert Names(g, user, GroupsOf(w, user));
    }
  }

  /** The read-only and the write listing of a viewer share a row exactly when the
      row is listed read-only although everyone may write it. */
  lemma {:induction false} ReadOnlyMeetsWrite(w: World, v: Viewer, resourceType: string, r: Row)
    requires v.groups != {} || (v.user.Some? && v.user.value != "")
    ensures ListedReadOnly(w, v, resourceType, r) && Listed(w, v, resourceType, r, "write") <==>
      ListedReadOnly(w, v, resourceType, r) && Public(w, resourceType, r.id, "write")
  {
  }

  /** That does happen: a personal read grant beside a public write grant. */
  lemma {:induction false} PublicWriteIsListedReadOnly(user: Id, r: Row, resourceType: string)
    requires user != "" && user != "*" && r.owner != user
    ensures
      var read, write := Grant(resourceType, r.id, "user", user, "read"), Grant(resourceType, r.id, "user", "*", "write");
      var w := World({read, write}, map[], map[user := false]);
      var v := Viewer(Some(user), {});
      ListedReadOnly(w, v, resourceType, r) && Listed(w, v, resourceType, r, "write")
  {
    var read, write := Grant(resourceType, r.id, "user", user, "read"), Grant(resourceType, r.id, "user", "*", "write");
    var w := World({read, write}, map[], map[user := false]);
    var v := Viewer(Some(user), {});
    assert read in w.grants && ViewerNamed(read, v);
    assert write in w.grants && IsPublic(write);
  }

  // ---------------------------------------------------------------- in terms of the rows

  /** The decision, read off the tables: a grant of that permission on that resource to
      everyone, to the user, or to a group that has the user as a member. */
  lemma {:induction false} AccessMeans(w: World, user: Id, resourceType: string, resourceId: Id, permission: string)
    ensures HasAccess(w, user, resourceType, resourceId, permission) <==>
      || Grant(resourceType, resourceId, "user", "*", permission) in w.grants
      || Grant(resourceType, resourceId, "user", user, permission) in w.grants
      || exists g :: g in w.members && user in w.members[g] && Grant(resourceType, resourceId, "group", g, permission) in w.grants
  {
    if HasAccess(w, user, resourceType, resourceId, permission) {
      var g :| g in w.grants && Concerns(g, resourceType, resourceId, permission) && (IsPublic(g) || Names(g, user, GroupsOf(w, user)));
      assert g == Grant(resourceType, resourceId, g.principalType, g.principalId, permission);
    }
    var all, own := Grant(resourceType, resourceId, "user", "*", permission), Grant(resourceType, resourceId, "user", user, permission);
    assert IsPublic(all) && Names(own, user, GroupsOf(w, user));
    if g :| g in w.members && user in w.members[g] && Grant(resourceType, resourceId, "group", g, permission) in w.grants {
      assert Names(Grant(resourceType, resourceId, "group", g, permission), user, GroupsOf(w, user));
    }
  }

  /** A grant of that permission on that row to the viewer, by name or by group. */
  ghost predicate GrantedTo(w: World, v: Viewer, resourceType: string, id: Id, permission: string) {
    || (v.user.Some? && v.user.value != "" && Grant(resourceType, id, "user", v.user.value, permission) in w.grants)
    || exists g :: g in v.groups && Grant(resourceType, id, "group", g, permission) in w.grants
  }

  lemma {:induction false} NamedMeans(w: World, v: Viewer, resourceType: string, id: Id, permission: string)
    ensures Named(w, v, resourceType, id, permission) <==> GrantedTo(w, v, resourceType, id, permission)
    ensures Public(w, resourceType, id, permission) <==> Grant(resourceType, id, "user", "*", permission) in w.grants
  {
    if Named(w, v, resourceType, id, permission) {
      var g :| g in w.grants && Concerns(g, resourceType, id, permission) && ViewerNamed(g, v);
      assert g == Grant(resourceType, id, g.principalType, g.principalId, permission);
    }
    if v.user.Some? {
      assert v.user.value != "" ==> ViewerNamed(Grant(resourceType, id, "user", v.user.value, permission), v);
    }
    if g :| g in v.groups && Grant(resourceType, id, "group", g, permission) in w.grants {
      assert ViewerNamed(Grant(resourceType, id, "group", g, permission), v);
    }
    if Public(w, resourceType, id, permission) {
      var g :| g in w.grants && Concerns(g, resourceType, id, permission) && IsPublic(g);
      assert g == Grant(resourceType, id, "user", "*", permission);
    }
    assert IsPublic(Grant(resourceType, id, "user", "*", permission));
  }

  /** The read-only listing, read off the tables: the viewer is granted reading and not
      writing, not everyone may read, and the viewer does not own the row. */
  lemma {:induction false} ReadOnlyMeans(w: World, v: Viewer, resourceType: string, r: Row)
    ensures ListedReadOnly(w, v, resourceType, r) <==>
      && GrantedTo(w, v, resourceType, r.id, "read") && !GrantedTo(w, v, resourceType, r.id, "write")
      && Grant(resourceType, r.id, "user", "*", "read") !in w.grants
      && !(v.user.Some? && v.user.value != "" && r.owner == v.user.value)
  {
    NamedMeans(w, v, resourceType, r.id, "read");
    NamedMeans(w, v, resourceType, r.id, "write");
  }

  /** The listing, read off the tables: everything for nobody in particular, else what the
      viewer owns, what everyone may use, and what the viewer is granted. */
  lemma {:induction false} ListedMeans(w: World, v: Viewer, resourceType: string, r: Row, permission: string)
    ensures Listed(w, v, resourceType, r, permission) <==>
      || (v.groups == {} && (v.user.None? || v.user.value == ""))
      || (v.user.Some? && v.user.value != "" && r.owner == v.user.value)
      || Grant(resourceType, r.id, "user", "*", permission) in w.grants
      || GrantedTo(w, v, resourceType, r.id, permission)
  {
    NamedMeans(w, v, resourceType, r.id, permission);
  }
}
