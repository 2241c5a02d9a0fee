/** Workspace roles in Keycloak (operators/pkg/tenant-controller/keycloak_utils.go and the naming
    functions of the tenant and workspace controllers). */
module Roles {
  import opened Common
  import opened Text

  /** The two values of WorkspaceUserRole, as text. */
  const MANAGER := "manager"
  const USER := "user"

  const ROLE_PREFIX := "workspace-"

  /** An entry of a tenant's workspace list. */
  datatype WorkspaceEntry = WorkspaceEntry(workspace: string, role: string)

  /** genWsKcRoleName, also spelled out in genKcUserRoleNames. */
  function RoleName(workspace: string, role: string): string {
    ROLE_PREFIX + workspace + ":" + role
  }

  /** Distinct (workspace, role) pairs never share a role name, whatever the workspace is called. */
  lemma RoleNameInjective(w: string, r: string, w': string, r': string)
    requires ':' !in r && ':' !in r'
    ensures RoleName(w, r) == RoleName(w', r') <==> w == w' && r == r'
  {
    if RoleName(w, r) == RoleName(w', r') {
      var s, a, b := RoleName(w, r), ROLE_PREFIX + w, ROLE_PREFIX + w';
      assert s == a + ":" + r == b + ":" + r';
      assert s[|a|] == ':' && s[|b|] == ':';
      assert |a| == |b|;
      assert a == s[..|a|] == b && r == s[|a| + 1..] == r';
      assert w == a[|ROLE_PREFIX|..] && w' == b[|ROLE_PREFIX|..];
    }
  }

  /** genKcUserRoleNames. */
  method GenKcUserRoleNames(workspaces: seq<WorkspaceEntry>) returns (names: seq<string>)
    ensures |names| == |workspaces|
    ensures forall i :: 0 <= i < |names| ==> names[i] == RoleName(workspaces[i].workspace, workspaces[i].role)
    ensures forall i :: 0 <= i < |names| ==>
      names[i] == "workspace-" + workspaces[i].workspace + ":" + workspaces[i].role
    ensures forall name :: name in names ==> HasPrefix(name, ROLE_PREFIX)
  {
    names := [];
    for i := 0 to |workspaces|
      invariant |names| == i
      invariant forall k :: 0 <= k < i ==> names[k] == RoleName(workspaces[k].workspace, workspaces[k].role)
      invariant forall k :: 0 <= k < i ==> HasPrefix(names[k], ROLE_PREFIX)
    {
      names := names + [ROLE_PREFIX + workspaces[i].workspace + ":" + workspaces[i].role];
    }
  }

  /** subtractRoles: the roles of `a` with the prefix that are not in `b`, in order. */
  method SubtractRoles(a: seq<string>, b: seq<string>, prefix: string) returns (res: seq<string>)
    ensures res == Filter(a, name => HasPrefix(name, prefix) && name !in b)
    ensures forall name :: name in res <==> name in a && HasPrefix(name, prefix) && name !in b
  {
    var gone := (name: string) => HasPrefix(name, prefix) && name !in b;
    var tempMap: set<string> := {};
    for i := 0 to |b|
      invariant tempMap == set name | name in b[..i]
    {
      tempMap := tempMap + {b[i]};
    }
    assert b[..|b|] == b;
    res := [];
    for i := 0 to |a|
      invariant res == Filter(a[..i], gone)
    {
      assert a[..i + 1] == a[..i] + [a[i]];
      FilterConcat(a[..i], [a[i]], gone);
      if HasPrefix(a[i], prefix) {
        if a[i] !in tempMap {
          res := res + [a[i]];
        }
      }
    }
    assert a[..|a|] == a;
    FilterIn(a, gone);
  }

  /** What a user's roles should become: the roles outside the prefix, and the wanted ones. */
  ghost function Target(roles: set<string>, names: seq<string>, prefix: string): set<string> {
    (set r | r in roles && !HasPrefix(r, prefix)) + (set r | r in names)
  }

  /** The fate of the calls of one role sync. */
  datatype Sync = Sync(lookup: nat -> Outcome, current: Outcome, remove: Outcome, add: Outcome)

  /** Every call that a role sync needs succeeds; roles are removed only when there are some to remove. */
  ghost predicate SyncSucceeds(s: Sync, names: seq<string>, roles: set<string>, catalogue: set<string>,
                               prefix: string) {
    && (forall i: nat :: i < |names| ==> s.lookup(i).Done? && names[i] in catalogue)
    && s.current.Done?
    && ((exists r :: r in roles && HasPrefix(r, prefix) && r !in names) ==> s.remove.Done?)
    && s.add.Done?
  }

  /** The target of a sync and its success, in words. */
  lemma SyncInWords(s: Sync, names: seq<string>, roles: set<string>, catalogue: set<string>, prefix: string)
    ensures forall r :: r in Target(roles, names, prefix) <==> r in names || (r in roles && !(prefix <= r))
    ensures ((forall i: nat :: i < |names| ==> s.lookup(i) == Done && names[i] in catalogue) &&
             s.current == Done && s.remove == Done && s.add == Done) ==>
      SyncSucceeds(s, names, roles, catalogue, prefix)
    ensures SyncSucceeds(s, names, roles, catalogue, prefix) ==>
      && s.current == Done && s.add == Done
      && forall i: nat :: i < |names| ==> s.lookup(i) == Done && names[i] in catalogue
  {
  }

  /** The client roles that exist, and the ones each user holds. */
  class Keycloak {
    var catalogue: set<string>
    var held: map<string, set<string>>

    /** The roles of a user, in some order. */
    method ListRoles(user: string) returns (roles: seq<string>)
      ensures (set r | r in roles) == if user in held then held[user] else {}
    {
      roles := [];
      var todo := if user in held then held[user] else {};
      ghost var all := todo;
      while todo != {}
        invariant todo <= all && (set r | r in roles) == all - todo
        decreases todo
      {
        var r :| r in todo;
        todo := todo - {r};
        ghost var before := roles;
        roles := roles + [r];
        assert (set x | x in roles) == (set x | x in before) + {r};
      }
    }

    ghost function RolesOf(user: string): set<string>
      reads this
    {
      if user in held then held[user] else {}
    }

    /** updateUserRoles. */
    method UpdateUserRoles(names: seq<string>, user: string, prefix: string, s: Sync) returns (ok: bool)
      modifies this`held
      ensures forall u :: u != user ==> RolesOf(u) == old(RolesOf(u))
      // success is exact; failure keeps every role outside the prefix and adds only wanted roles
      ensures RolesOf(user) <= old(RolesOf(user)) + (set n | n in names)
      ensures ok && (forall n :: n in names ==> HasPrefix(n, prefix)) ==>
        RolesOf(user) == Target(old(RolesOf(user)), names, prefix)
      ensures (forall n :: n in names ==> HasPrefix(n, prefix)) ==>
        Target(RolesOf(user), names, prefix) == Target(old(RolesOf(user)), names, prefix)
      ensures ok <==> SyncSucceeds(s, names, old(RolesOf(user)), catalogue, prefix)
    {
      var rolesToSet: seq<string> := [];
      for i := 0 to |names|
        invariant rolesToSet == names[..i]
        invariant forall k: nat :: k < i ==> s.lookup(k).Done? && names[k] in catalogue
      {
        if !s.lookup(i).Done? || names[i] !in catalogue {
          return false;
        }
        rolesToSet := rolesToSet + [names[i]];
      }
      assert rolesToSet == names;
      if !s.current.Done? {
        return false;
      }
      var current := ListRoles(user);
      ghost var was := RolesOf(user);
      assert forall r :: r in was <==> r in current;
      var rolesToDelete := SubtractRoles(current, rolesToSet, prefix);
      ghost var kept := set r | r in was && r !in rolesToDelete;
      assert |rolesToDelete| > 0 <==> exists r :: r in was && HasPrefix(r, prefix) && r !in names by {
        if |rolesToDelete| > 0 {
          assert rolesToDelete[0] in rolesToDelete;
        }
      }
      if |rolesToDelete| > 0 {
        if s.remove.Effective() {
          held := held[user := (if user in held then held[user] else {}) - (set r | r in rolesToDelete)];
        }
        if !s.remove.Succeeded() {
          return false;
        }
      }
      assert RolesOf(user) == kept;
      if s.add.Effective() {
        held := held[user := (if user in held then held[user] else {}) + (set r | r in rolesToSet)];
      }
      ok := s.add.Succeeded();
    }

    /** Role syncs that fail in any way, then one that succeeds: the roles depend only on the
        roles the user had at the start and on the wanted ones. */
    method Resync(names: seq<string>, user: string, prefix: string, syncs: seq<Sync>) returns (ok: bool)
      requires forall n :: n in names ==> HasPrefix(n, prefix)
      modifies this`held
      ensures ok ==> RolesOf(user) == Target(old(RolesOf(user)), names, prefix)
      ensures forall u :: u != user ==> RolesOf(u) == old(RolesOf(u))
    {
      ok := false;
      for i := 0 to |syncs|
        invariant Target(RolesOf(user), names, prefix) == Target(old(RolesOf(user)), names, prefix)
        invariant ok ==> RolesOf(user) == Target(old(RolesOf(user)), names, prefix)
        invariant forall u :: u != user ==> RolesOf(u) == old(RolesOf(u))
      {
        ok := UpdateUserRoles(names, user, prefix, syncs[i]);
      }
    }
  }
}
