/** The reconcile of a tenant that is not being deleted
    (operators/pkg/tenant-controller/tenant_controller.go): many steps that may fail one by one,
    and a status that sums them up. */
module TenantReconcile {
  import opened Common
  import opened Roles
  import opened Tenants
  import opened KeycloakUsers
  import NC = NextcloudSubscription
  import KC = KeycloakSubscription

  /** What a tenant needs in the cluster. */
  datatype Resource = Namespace | ResourceQuota | ManageBinding | AccessRole | AccessBinding | DenyPolicy | AllowPolicy

  /** The fate of the calls of one reconcile; `lookup` is the result for each entry of the workspace
      list, and the two handlers have scripts of their own. */
  datatype Script = Script(addFinalizer: Outcome, create: Resource -> Outcome, lookup: nat -> Outcome,
                           keycloak: KC.Script, nextcloud: NC.Script, updateStatus: Outcome, update: Outcome) {
    /** The resources that the reconcile creates or updates: without the namespace, none of the others
        is attempted; with it, all of them are, whatever fails. */
    ghost function Written(): set<Resource> {
      if create(Namespace).Done? then set r: Resource | create(r).Effective()
      else if create(Namespace).Effective() then {Namespace}
      else {}
    }

    /** The script of the Nextcloud handler, for the names of the tenant. */
    function Nextcloud(tn: Tenant): NC.Script {
      nextcloud.(expected := NC.GenNcDisplayname(tn.firstName, tn.lastName))
    }
  }

  function PersonOf(name: string, tn: Tenant): KC.Person {
    KC.Person(name, tn.firstName, tn.lastName, tn.email)
  }

  datatype Status = Status(namespaceCreated: bool, namespaceName: string, failingWorkspaces: seq<string>,
                           keycloakOk: bool, nextcloudOk: bool, ready: bool)

  /** What Keycloak and Nextcloud hold when a reconcile starts. */
  datatype World = World(users: map<string, KcUser>, held: map<string, set<string>>, catalogue: set<string>,
                         stored: NC.Stored) {
    ghost function RolesOf(user: string): set<string> {
      if user in held then held[user] else {}
    }
  }

  /** Every call that the Keycloak handler needs succeeds. */
  ghost predicate KeycloakSucceeds(s: Script, name: string, tn: Tenant, w: World) {
    var p := PersonOf(name, tn);
    && KC.AccountSucceeds(w.users, p, s.keycloak)
    && SyncSucceeds(s.keycloak.sync, KC.RoleNames(Pick(tn.workspaces, s.lookup, true)),
                    w.RolesOf(KC.TargetId(w.users, p, s.keycloak)), w.catalogue, ROLE_PREFIX)
  }

  /** Every call of the reconcile that Ready answers for succeeds. */
  ghost predicate AllSucceeded(s: Script, name: string, tn: Tenant, hadFinalizer: bool, w: World) {
    && (hadFinalizer || s.addFinalizer.Done?)
    && (forall r: Resource :: s.create(r).Done?)
    && (forall i: nat :: i < |tn.workspaces| ==> s.lookup(i).Done?)
    && KeycloakSucceeds(s, name, tn, w)
    && s.Nextcloud(tn).Succeeds(w.stored)
  }

  /** The entries whose lookup has the given result, in order. */
  function Pick(ws: seq<WorkspaceEntry>, lookup: nat -> Outcome, ok: bool): seq<WorkspaceEntry> {
    PickFirst(ws, lookup, ok, |ws|)
  }

  /** The same among the first `n` entries. */
  function PickFirst(ws: seq<WorkspaceEntry>, lookup: nat -> Outcome, ok: bool, n: nat): seq<WorkspaceEntry>
    requires n <= |ws|
  {
    if n == 0 then []
    else if lookup(n - 1).Done? == ok then PickFirst(ws, lookup, ok, n - 1) + [ws[n - 1]]
    else PickFirst(ws, lookup, ok, n - 1)
  }

  function NamesOf(ws: seq<WorkspaceEntry>): seq<string> {
    seq(|ws|, i requires 0 <= i < |ws| => ws[i].workspace)
  }

  /** Interleave two lists as the lookups say, the last entry first. */
  function Weave(good: seq<WorkspaceEntry>, bad: seq<WorkspaceEntry>, lookup: nat -> Outcome, n: nat)
    : seq<WorkspaceEntry>
  {
    if n == 0 then []
    else if lookup(n - 1).Done? then
      if |good| == 0 then []
      else Weave(good[..|good| - 1], bad, lookup, n - 1) + [good[|good| - 1]]
    else if |bad| == 0 then []
    else Weave(good, bad[..|bad| - 1], lookup, n - 1) + [bad[|bad| - 1]]
  }

  lemma {:induction false} PickFirstCount(ws: seq<WorkspaceEntry>, lookup: nat -> Outcome, n: nat)
    requires n <= |ws|
    ensures |PickFirst(ws, lookup, true, n)| + |PickFirst(ws, lookup, false, n)| == n
  {
    if n > 0 {
      PickFirstCount(ws, lookup, n - 1);
    }
  }

  /** The interleaving of the first `n` entries. */
  ghost predicate WovenFirst(ws: seq<WorkspaceEntry>, lookup: nat -> Outcome, n: nat)
    requires n <= |ws|
  {
    Weave(PickFirst(ws, lookup, true, n), PickFirst(ws, lookup, false, n), lookup, n) == ws[..n]
  }

  lemma WeaveStep(ws: seq<WorkspaceEntry>, lookup: nat -> Outcome, n: nat)
    requires n < |ws| && WovenFirst(ws, lookup, n)
    ensures WovenFirst(ws, lookup, n + 1)
  {
    var good, bad := PickFirst(ws, lookup, true, n), PickFirst(ws, lookup, false, n);
    assert ws[..n + 1] == ws[..n] + [ws[n]];
    if lookup(n).Done? {
      WeaveGood(good, bad, lookup, n, ws[n]);
      assert PickFirst(ws, lookup, true, n + 1) == good + [ws[n]];
      assert PickFirst(ws, lookup, false, n + 1) == bad;
    } else {
      WeaveBad(good, bad, lookup, n, ws[n]);
      assert PickFirst(ws, lookup, true, n + 1) == good;
      assert PickFirst(ws, lookup, false, n + 1) == bad + [ws[n]];
    }
  }

  lemma {:induction false} WeaveFirst(ws: seq<WorkspaceEntry>, lookup: nat -> Outcome, n: nat)
    requires n <= |ws|
    ensures WovenFirst(ws, lookup, n)
  {
    if n > 0 {
      WeaveFirst(ws, lookup, n - 1);
      WeaveStep(ws, lookup, n - 1);
    }
  }

  /** The existing and the failing entries partition the list and keep its order: weaving them
      together gives the list back. */
  lemma PickPartitions(ws: seq<WorkspaceEntry>, lookup: nat -> Outcome)
    ensures |Pick(ws, lookup, true)| + |Pick(ws, lookup, false)| == |ws|
    ensures Weave(Pick(ws, lookup, true), Pick(ws, lookup, false), lookup, |ws|) == ws
  {
    PickFirstCount(ws, lookup, |ws|);
    WeaveFirst(ws, lookup, |ws|);
    assert ws[..|ws|] == ws;
  }

  lemma WeaveGood(good: seq<WorkspaceEntry>, bad: seq<WorkspaceEntry>, lookup: nat -> Outcome, n: nat,
                  e: WorkspaceEntry)
    requires lookup(n).Done?
    ensures Weave(good + [e], bad, lookup, n + 1) == Weave(good, bad, lookup, n) + [e]
  {
    assert (good + [e])[..|good|] == good;
  }

  lemma WeaveBad(good: seq<WorkspaceEntry>, bad: seq<WorkspaceEntry>, lookup: nat -> Outcome, n: nat,
                 e: WorkspaceEntry)
    requires !lookup(n).Done?
    ensures Weave(good, bad + [e], lookup, n + 1) == Weave(good, bad, lookup, n) + [e]
  {
    assert (bad + [e])[..|bad|] == bad;
  }

  lemma {:induction false} PickFirstExisting(ws: seq<WorkspaceEntry>, lookup: nat -> Outcome, present: set<string>,
                                             n: nat)
    requires n <= |ws|
    requires forall i: nat :: i < |ws| ==> (lookup(i).Done? <==> ws[i].workspace in present)
    ensures PickFirst(ws, lookup, true, n) == Existing(ws[..n], present)
  {
    if n > 0 {
      PickFirstExisting(ws, lookup, present, n - 1);
      assert ws[..n] == ws[..n - 1] + [ws[n - 1]];
      ExistingSnoc(ws[..n - 1], ws[n - 1], present);
    }
  }

  /** The lookups tell which workspaces exist: the existing entries are those of present workspaces. */
  lemma PickExisting(ws: seq<WorkspaceEntry>, lookup: nat -> Outcome, present: set<string>)
    requires forall i: nat :: i < |ws| ==> (lookup(i).Done? <==> ws[i].workspace in present)
    ensures Pick(ws, lookup, true) == Existing(ws, present)
  {
    PickFirstExisting(ws, lookup, present, |ws|);
    assert ws[..|ws|] == ws;
  }

  /** Reconciles of all tenants, each with lookups that tell which workspaces exist, write the label
      index that workspace deletion and key collection read. */
  lemma ReconciledAll(before: map<string, Tenant>, after: map<string, Tenant>, present: set<string>,
                      lookup: string -> (nat -> Outcome))
    requires before.Keys == after.Keys
    requires forall name :: name in before ==>
      after[name] == WithLabels(before[name], Pick(before[name].workspaces, lookup(name), true))
    requires forall name, i: nat :: name in before && i < |before[name].workspaces| ==>
      (lookup(name)(i).Done? <==> before[name].workspaces[i].workspace in present)
    ensures AllRelabelled(before, after, present)
  {
    forall name | name in before
      ensures Pick(before[name].workspaces, lookup(name), true) == Existing(before[name].workspaces, present)
    {
      PickExisting(before[name].workspaces, lookup(name), present);
    }
  }

  /** strings.ReplaceAll(name, ".", "-"). */
  function Dashed(name: string): (r: string)
    ensures |r| == |name|
    ensures forall i :: 0 <= i < |r| ==> r[i] == if name[i] == '.' then '-' else name[i]
  {
    if |name| == 0 then "" else [if name[0] == '.' then '-' else name[0]] + Dashed(name[1..])
  }

  /** The tenant's personal namespace. */
  function NamespaceName(name: string): string {
    "tenant-" + Dashed(name)
  }

  /** The check of every workspace of a tenant. */
  method CheckWorkspaces(ws: seq<WorkspaceEntry>, lookup: nat -> Outcome)
    returns (existing: seq<WorkspaceEntry>, failing: seq<string>, err: bool)
    ensures existing == Pick(ws, lookup, true)
    ensures failing == NamesOf(Pick(ws, lookup, false))
    ensures |failing| == |Pick(ws, lookup, false)|
    ensures forall i :: 0 <= i < |failing| ==> failing[i] == Pick(ws, lookup, false)[i].workspace
    ensures err <==> exists i: nat :: i < |ws| && !lookup(i).Done?
    // nothing is lost and the order is kept
    ensures |existing| + |failing| == |ws|
  {
    existing, failing, err := [], [], false;
    for i := 0 to |ws|
      invariant existing == PickFirst(ws, lookup, true, i)
      invariant failing == NamesOf(PickFirst(ws, lookup, false, i))
      invariant err <==> exists k: nat :: k < i && !lookup(k).Done?
    {
      if !lookup(i).Done? {
        err := true;
        failing := failing + [ws[i].workspace];
      } else {
        existing := existing + [ws[i]];
      }
    }
    PickPartitions(ws, lookup);
  }

  lemma {:induction false} PickAllFirst(ws: seq<WorkspaceEntry>, lookup: nat -> Outcome, n: nat)
    requires n <= |ws| && forall i: nat :: i < n ==> lookup(i).Done?
    ensures PickFirst(ws, lookup, true, n) == ws[..n]
  {
    if n > 0 {
      PickAllFirst(ws, lookup, n - 1);
    }
  }

  lemma PickAll(ws: seq<WorkspaceEntry>, lookup: nat -> Outcome)
    ensures (forall i: nat :: i < |ws| ==> lookup(i).Done?) ==> Pick(ws, lookup, true) == ws
  {
    if forall i: nat :: i < |ws| ==> lookup(i).Done? {
      PickAllFirst(ws, lookup, |ws|);
      assert ws[..|ws|] == ws;
    }
  }

  /** Every failure counts: Ready needs each of these, and nothing else. */
  lemma ReadyInWords(s: Script, name: string, tn: Tenant, hadFinalizer: bool, w: World)
    ensures AllSucceeded(s, name, tn, hadFinalizer, w) <==>
      && (hadFinalizer || s.addFinalizer == Done)
      && s.create(Namespace) == Done && s.create(ResourceQuota) == Done && s.create(ManageBinding) == Done
      && s.create(AccessRole) == Done && s.create(AccessBinding) == Done
      && s.create(DenyPolicy) == Done && s.create(AllowPolicy) == Done
      && NamesOf(Pick(tn.workspaces, s.lookup, false)) == []
      && KeycloakSucceeds(s, name, tn, w)
      && s.nextcloud.(expected := tn.firstName + " " + tn.lastName).Succeeds(w.stored)
  {
    NonePicked(tn.workspaces, s.lookup, |tn.workspaces|);
    assert |NamesOf(Pick(tn.workspaces, s.lookup, false))| == |Pick(tn.workspaces, s.lookup, false)|;
    if s.create(Namespace) == Done && s.create(ResourceQuota) == Done && s.create(ManageBinding) == Done &&
       s.create(AccessRole) == Done && s.create(AccessBinding) == Done &&
       s.create(DenyPolicy) == Done && s.create(AllowPolicy) == Done {
      forall r: Resource ensures s.create(r).Done? {
        match r
        case Namespace =>
        case ResourceQuota =>
        case ManageBinding =>
        case AccessRole =>
        case AccessBinding =>
        case DenyPolicy =>
        case AllowPolicy =>
      }
    }
  }

  lemma {:induction false} NonePicked(ws: seq<WorkspaceEntry>, lookup: nat -> Outcome, n: nat)
    requires n <= |ws|
    ensures PickFirst(ws, lookup, false, n) == [] <==> forall i: nat :: i < n ==> lookup(i) == Done
  {
    if n > 0 {
      NonePicked(ws, lookup, n - 1);
    }
  }

  lemma NextcloudInWords(st: NC.Stored, s: Script, tn: Tenant, name: string)
    requires NC.SecretCurrent(st, "keycloak-" + name)
    ensures s.nextcloud.Calm() && s.Nextcloud(tn).Succeeds(st) && st.secret.Some? ==>
      var user := NC.AfterAttempt(st, s.Nextcloud(tn), "keycloak-" + name).user;
      user.Some? && user.value.displayname == tn.firstName + " " + tn.lastName
  {
    NC.CalmSuccess(st, s.Nextcloud(tn), "keycloak-" + name);
  }

  lemma OwnAccount(users: map<string, KcUser>, p: KC.Person, s: KC.Script)
    requires UniqueNames(users)
    ensures !Mistaken(users, p.name) ==>
      var after, id := KC.AccountsAfter(users, p, s), KC.TargetId(users, p, s);
      KC.Untouched(users, after, p.name) &&
      (KC.AccountSucceeds(users, p, s) ==> id in after && after[id] == KC.Account(id, p))
  {
    if !Mistaken(users, p.name) {
      KC.AttemptMeans(users, p, s);
    }
  }

  /** The tenant object in the cluster, its resources, and the services that hold its accounts. */
  class TenantObject {
    const name: string
    const realm: KC.Realm
    const stores: NC.Stores
    var tenant: Tenant
    var finalizer: bool
    var status: Status
    var resources: set<Resource>

    constructor (name: string, tenant: Tenant, realm: KC.Realm, stores: NC.Stores)
      requires UniqueNames(realm.users) && stores.Valid() && stores.tenant == name
      ensures Valid() && this.name == name && this.tenant == tenant && this.realm == realm && this.stores == stores
      ensures !finalizer && resources == {}
    {
      this.name, this.tenant, this.realm, this.stores := name, tenant, realm, stores;
      finalizer, resources := false, {};
      status := Status(false, "", [], false, false, false);
    }

    ghost predicate Valid()
      reads this, realm, stores
    {
      UniqueNames(realm.users) && stores.Valid() && stores.tenant == name
    }

    ghost function Services(): World
      reads this, realm, realm.kc, stores
    {
      World(realm.users, realm.kc.held, realm.kc.catalogue, NC.Stored(stores.user, stores.secret))
    }

    /** CreateOrUpdate of one resource. */
    method CreateOrUpdate(r: Resource, outcome: Outcome) returns (failed: bool)
      modifies this`resources
      ensures failed == !outcome.Done?
      ensures resources == if outcome.Effective() then old(resources) + {r} else old(resources)
    {
      if outcome.Effective() {
        resources := resources + {r};
      }
      failed := !outcome.Succeeded();
    }

    /** createOrUpdateClusterResources: the tenant gains exactly the resources whose call took effect;
        without its namespace none of the other six is attempted, with it no failure stops the rest. */
    method CreateOrUpdateClusterResources(s: Script) returns (nsOk: bool, err: bool)
      modifies this`resources
      ensures resources == old(resources) + s.Written()
      ensures forall r: Resource :: r in resources <==>
        r in old(resources) || (s.create(r).Effective() && (r == Namespace || s.create(Namespace).Done?))
      ensures nsOk == s.create(Namespace).Done?
      ensures !err <==> forall r: Resource :: s.create(r).Done?
      ensures !err ==> forall r: Resource :: r in resources
    {
      var failed := CreateOrUpdate(Namespace, s.create(Namespace));
      if failed {
        return false, true;
      }
      var f1 := CreateOrUpdate(ResourceQuota, s.create(ResourceQuota));
      var f2 := CreateOrUpdate(ManageBinding, s.create(ManageBinding));
      var f3 := CreateOrUpdate(AccessRole, s.create(AccessRole));
      var f4 := CreateOrUpdate(AccessBinding, s.create(AccessBinding));
      var f5 := CreateOrUpdate(DenyPolicy, s.create(DenyPolicy));
      var f6 := CreateOrUpdate(AllowPolicy, s.create(AllowPolicy));
      nsOk, err := true, f1 || f2 || f3 || f4 || f5 || f6;
      forall r: Resource
        ensures r in resources <==> r in old(resources) || s.create(r).Effective()
        ensures !err ==> s.create(r).Done?
      {
        match r
        case Namespace =>
        case ResourceQuota =>
        case ManageBinding =>
        case AccessRole =>
        case AccessBinding =>
        case DenyPolicy =>
        case AllowPolicy =>
      }
    }

    /** The two subscriptions: Keycloak always, Nextcloud only in an existing namespace. */
    method Subscribe(existing: seq<WorkspaceEntry>, nsOk: bool, s: Script) returns (keycloakOk: bool, nextcloudOk: bool)
      requires Valid() && existing == Pick(tenant.workspaces, s.lookup, true)
      modifies realm, realm.kc, stores
      ensures Valid() && realm.kc.catalogue == old(realm.kc.catalogue)
      ensures keycloakOk <==> KeycloakSucceeds(s, name, tenant, old(Services()))
      ensures nextcloudOk <==> nsOk && s.Nextcloud(tenant).Succeeds(old(Services()).stored)
      ensures NC.Stored(stores.user, stores.secret) ==
              if nsOk then NC.AfterAttempt(old(Services()).stored, s.Nextcloud(tenant), "keycloak-" + name)
              else old(Services()).stored
      ensures realm.users == KC.AccountsAfter(old(realm.users), PersonOf(name, tenant), s.keycloak)
      ensures
        var id := KC.TargetId(old(realm.users), PersonOf(name, tenant), s.keycloak);
        && (keycloakOk ==> realm.kc.RolesOf(id) == KC.SyncedRoles(old(realm.kc.RolesOf(id)), existing))
        && (forall u :: u != id ==> realm.kc.RolesOf(u) == old(realm.kc.RolesOf(u)))
      ensures nextcloudOk && s.nextcloud.Calm() ==> HasCredentials()
    {
      keycloakOk := realm.HandleKeycloakSubscription(PersonOf(name, tenant), existing, s.keycloak);
      nextcloudOk := false;
      if nsOk {
        nextcloudOk := stores.HandleNextcloudSubscription(s.Nextcloud(tenant));
      }
    }

    /** The credentials secret exists and holds the current password of the tenant's Nextcloud user. */
    ghost predicate HasCredentials()
      reads this, stores
    {
      stores.user.Some? && stores.secret == Some(NC.Secret(NC.GenNcUsername(name), stores.user.value.password))
    }

    /** Reconcile up to the status it is about to write. */
    method Assess(s: Script) returns (shown: Status, existing: seq<WorkspaceEntry>)
      requires Valid()
      modifies this`finalizer, this`resources, realm, realm.kc, stores
      ensures Valid()
      ensures finalizer == (old(finalizer) || s.addFinalizer.Effective())
      ensures resources == old(resources) + s.Written()
      // Ready says exactly that every call succeeded
      ensures shown.ready <==> AllSucceeded(s, name, tenant, old(finalizer), old(Services()))
      ensures shown.ready ==> shown.keycloakOk && shown.nextcloudOk && forall r: Resource :: r in resources
      ensures shown.failingWorkspaces == NamesOf(Pick(tenant.workspaces, s.lookup, false))
      ensures existing == Pick(tenant.workspaces, s.lookup, true)
      ensures shown.namespaceCreated == s.create(Namespace).Done?
      ensures shown.namespaceName == if s.create(Namespace).Done? then "tenant-" + Dashed(name) else ""
      ensures shown.keycloakOk <==> KeycloakSucceeds(s, name, tenant, old(Services()))
      ensures shown.nextcloudOk <==> s.create(Namespace).Done? && s.Nextcloud(tenant).Succeeds(old(Services()).stored)
      ensures realm.users == KC.AccountsAfter(old(realm.users), PersonOf(name, tenant), s.keycloak)
      // and what that means outside the object
      ensures
        var id := KC.TargetId(old(realm.users), PersonOf(name, tenant), s.keycloak);
        && (shown.keycloakOk ==> realm.kc.RolesOf(id) == KC.SyncedRoles(old(realm.kc.RolesOf(id)), existing))
        && (forall u :: u != id ==> realm.kc.RolesOf(u) == old(realm.kc.RolesOf(u)))
      ensures shown.nextcloudOk && s.nextcloud.Calm() ==> HasCredentials()
      ensures NC.Stored(stores.user, stores.secret) ==
              if s.create(Namespace).Done?
              then NC.AfterAttempt(old(Services()).stored, s.Nextcloud(tenant), "keycloak-" + name)
              else old(Services()).stored
    {
      var retrigErr := false;
      if !finalizer {
        if s.addFinalizer.Effective() {
          finalizer := true;
        }
        if !s.addFinalizer.Succeeded() {
          retrigErr := true;
        }
      }
      var nsOk, err := CreateOrUpdateClusterResources(s);
      var nsName := "";
      if nsOk {
        nsName := NamespaceName(name);
        if err {
          retrigErr := true;
        }
      } else {
        retrigErr := true;
      }
      var failing, missing;
      existing, failing, missing := CheckWorkspaces(tenant.workspaces, s.lookup);
      if missing {
        retrigErr := true;
      }
      var keycloakOk, nextcloudOk := Subscribe(existing, nsOk, s);
      if !keycloakOk {
        retrigErr := true;
      }
      if nsOk && !nextcloudOk {
        retrigErr := true;
      }
      shown := Status(nsOk, nsName, failing, keycloakOk, nextcloudOk, !retrigErr);
    }

    /** Reconcile, past the deletion branch. */
    method Reconcile(s: Script) returns (ok: bool, shown: Status)
      requires Valid()
      modifies this`tenant, this`finalizer, this`status, this`resources, realm, realm.kc, stores
      ensures Valid()
      ensures finalizer == (old(finalizer) || s.addFinalizer.Effective() || s.update.Effective())
      ensures resources == old(resources) + s.Written()
      ensures shown.ready <==> AllSucceeded(s, name, old(tenant), old(finalizer), old(Services()))
      ensures shown.failingWorkspaces == NamesOf(Pick(old(tenant).workspaces, s.lookup, false))
      ensures status == if s.updateStatus.Effective() then shown else old(status)
      // the labels follow the workspaces that were found, even when another step failed
      ensures tenant == if s.update.Effective()
                        then WithLabels(old(tenant), Pick(old(tenant).workspaces, s.lookup, true))
                        else old(tenant)
      ensures ok <==> shown.ready && s.updateStatus.Done? && s.update.Done?
      // what Ready means for the tenant: all seven resources exist; outside the mistaken case its own
      // account has its data, and its roles outside the prefix plus exactly those of its workspaces;
      // and undisturbed, the credentials secret holds the current password
      ensures shown.ready ==> forall r: Resource :: r in resources
      ensures
        var id := KC.TargetId(old(realm.users), PersonOf(name, old(tenant)), s.keycloak);
        shown.ready ==>
          && realm.kc.RolesOf(id) == KC.SyncedRoles(old(realm.kc.RolesOf(id)), old(tenant).workspaces)
          && (!Mistaken(old(realm.users), name) ==>
                id in realm.users && realm.users[id] == KC.Account(id, PersonOf(name, old(tenant))))
      ensures shown.ready && s.nextcloud.Calm() ==> HasCredentials()
      ensures shown.ready && s.nextcloud.Calm() && old(stores.secret).Some? ==>
        stores.user.value.displayname == old(tenant).firstName + " " + old(tenant).lastName
      ensures
        var id := KC.TargetId(old(realm.users), PersonOf(name, old(tenant)), s.keycloak);
        shown.ready && !Mistaken(old(realm.users), name) ==>
          id in realm.users && realm.users[id] ==
            KcUser(id, name, old(tenant).firstName, old(tenant).lastName, old(tenant).email)
      // and for everyone else, ready or not, outside the mistaken case
      ensures !Mistaken(old(realm.users), name) ==> KC.Untouched(old(realm.users), realm.users, name)
    {
      NextcloudInWords(Services().stored, s, tenant, name);
      OwnAccount(realm.users, PersonOf(name, tenant), s.keycloak);
      PickAll(tenant.workspaces, s.lookup);
      var existing;
      shown, existing := Assess(s);
      var written := WriteBack(shown, existing, s);
      ok := shown.ready && written;
    }

    /** The end of Reconcile: the status, then the labels, are written back. */
    method WriteBack(shown: Status, existing: seq<WorkspaceEntry>, s: Script) returns (ok: bool)
      modifies this`tenant, this`finalizer, this`status
      ensures ok <==> s.updateStatus.Done? && s.update.Done?
      ensures status == if s.updateStatus.Effective() then shown else old(status)
      ensures tenant == if s.update.Effective() then WithLabels(old(tenant), existing) else old(tenant)
      ensures finalizer == (old(finalizer) || s.update.Effective())
    {
      ok := true;
      if s.updateStatus.Effective() {
        status := shown;
      }
      if !s.updateStatus.Succeeded() {
        ok := false;
      }
      var updated := UpdateTnLabels(tenant, existing);
      if s.update.Effective() {
        tenant := updated;
        // the object in memory carries the finalizer since the start of the reconcile
        finalizer := true;
      }
      if !s.update.Succeeded() {
        ok := false;
      }
    }
  }
}
