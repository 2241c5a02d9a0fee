/** The Keycloak account and roles of a tenant (handleKeycloakSubscription in
    operators/pkg/tenant-controller/tenant_controller.go, createKcUser and updateKcUser in
    keycloak_utils.go). */
module KeycloakSubscription {
  import opened Common
  import opened Text
  import opened Roles
  import opened KeycloakUsers

  /** What a tenant object says about its owner. */
  datatype Person = Person(name: string, firstName: string, lastName: string, email: string)

  /** The fate of the calls of one reconcile, and the id a new user would get. */
  datatype Script = Script(search: Outcome, create: Outcome, newId: string, update: Outcome, sendEmail: Outcome,
                           sync: Sync)

  function Account(id: string, p: Person): KcUser {
    KcUser(id, p.name, p.firstName, p.lastName, p.email)
  }

  /** The role names of the entries, in order. */
  function RoleNames(existing: seq<WorkspaceEntry>): seq<string> {
    seq(|existing|, i requires 0 <= i < |existing| => RoleName(existing[i].workspace, existing[i].role))
  }

  /** The roles outside the operator's prefix, and exactly those of the entries. */
  ghost function SyncedRoles(roles: set<string>, existing: seq<WorkspaceEntry>): set<string> {
    Target(roles, RoleNames(existing), ROLE_PREFIX)
  }

  /** A verification mail that was sent. */
  datatype Mail = Mail(id: string, address: string)

  /** The account after its data was rewritten; the user name is never written. */
  function Rewritten(u: KcUser, p: Person): KcUser {
    u.(firstName := p.firstName, lastName := p.lastName, email := p.email)
  }

  /** The lookup finds nobody and the account can be created. */
  ghost predicate Creates(users: map<string, KcUser>, p: Person, s: Script) {
    s.search.Done? && Hits(users, p.name) == {} && s.newId !in users
  }

  ghost predicate Updates(users: map<string, KcUser>, p: Person, s: Script) {
    s.search.Done? && Looked(users, p.name).Some?
  }

  /** The accounts after one attempt, whatever fails in it. */
  ghost function AccountsAfter(users: map<string, KcUser>, p: Person, s: Script): map<string, KcUser> {
    if Updates(users, p, s) && s.update.Effective() then
      var id := Looked(users, p.name).value;
      users[id := Rewritten(users[id], p)]
    else if Creates(users, p, s) && s.create.Effective() then users[s.newId := Account(s.newId, p)]
    else users
  }

  /** The account that an attempt works on. */
  ghost function TargetId(users: map<string, KcUser>, p: Person, s: Script): string {
    if Looked(users, p.name).Some? then Looked(users, p.name).value else s.newId
  }

  ghost predicate AccountSucceeds(users: map<string, KcUser>, p: Person, s: Script) {
    if Looked(users, p.name).Some? then
      s.search.Done? && s.update.Done? && (users[Looked(users, p.name).value].email != p.email ==> s.sendEmail.Done?)
    else Creates(users, p, s) && s.create.Done? && s.sendEmail.Done?
  }

  /** The mail of an attempt: for a new account, and for a new address of an old one. */
  ghost function MailSent(users: map<string, KcUser>, p: Person, s: Script): seq<Mail> {
    if Updates(users, p, s) then
      var id := Looked(users, p.name).value;
      if s.update.Done? && users[id].email != p.email && s.sendEmail.Effective() then [Mail(id, p.email)] else []
    else if Creates(users, p, s) && s.create.Done? && s.sendEmail.Effective() then [Mail(s.newId, p.email)]
    else []
  }

  class Realm {
    const kc: Keycloak
    var users: map<string, KcUser>
    /** Every verification mail sent. */
    ghost var mails: seq<Mail>

    constructor (kc: Keycloak)
      ensures this.kc == kc && users == map[] && mails == []
    {
      this.kc := kc;
      users := map[];
      mails := [];
    }

    /** createKcUser: the account exists even when the verification mail fails. */
    method CreateKcUser(p: Person, s: Script) returns (ok: bool)
      modifies this`users, this`mails
      ensures users == if s.newId !in old(users) && s.create.Effective()
                       then old(users)[s.newId := Account(s.newId, p)] else old(users)
      ensures mails == old(mails) + if s.newId !in old(users) && s.create.Done? && s.sendEmail.Effective()
                                    then [Mail(s.newId, p.email)] else []
      ensures ok <==> s.newId !in old(users) && s.create.Done? && s.sendEmail.Done?
    {
      // the service never reuses the id of an account
      if s.newId in users {
        return false;
      }
      if s.create.Effective() {
        users := users[s.newId := Account(s.newId, p)];
      }
      if !s.create.Succeeded() {
        return false;
      }
      if s.sendEmail.Effective() {
        mails := mails + [Mail(s.newId, p.email)];
      }
      ok := s.sendEmail.Succeeded();
    }

    /** updateKcUser: names and address change, the user name does not; a new address is verified. */
    method UpdateKcUser(id: string, p: Person, newAddress: bool, s: Script) returns (ok: bool)
      requires id in users
      modifies this`users, this`mails
      ensures users == if s.update.Effective() then old(users)[id := Rewritten(old(users)[id], p)] else old(users)
      ensures mails == old(mails) + if s.update.Done? && newAddress && s.sendEmail.Effective()
                                    then [Mail(id, p.email)] else []
      ensures ok <==> s.update.Done? && (newAddress ==> s.sendEmail.Done?)
    {
      if s.update.Effective() {
        users := users[id := users[id].(firstName := p.firstName, lastName := p.lastName, email := p.email)];
      }
      if !s.update.Succeeded() {
        return false;
      }
      if newAddress && s.sendEmail.Effective() {
        mails := mails + [Mail(id, p.email)];
      }
      ok := !newAddress || s.sendEmail.Succeeded();
    }

    /** The first half of handleKeycloakSubscription: look the account up, create or update it. */
    method EnsureAccount(p: Person, s: Script) returns (ok: bool, userID: string)
      requires UniqueNames(users)
      modifies this`users, this`mails
      ensures users == AccountsAfter(old(users), p, s)
      ensures mails == old(mails) + MailSent(old(users), p, s)
      ensures ok <==> AccountSucceeds(old(users), p, s)
      ensures ok ==> userID == TargetId(old(users), p, s)
    {
      ok, userID := false, "";
      var info := GetUserInfo(users, p.name, s.search);
      if info.Absent? {
        assert |Hits(users, p.name)| == 0;
        userID := s.newId;
        ok := CreateKcUser(p, s);
      } else if info.Known? {
        assert |Hits(users, p.name)| != 0;
        userID := info.id;
        ok := UpdateKcUser(info.id, p, info.email != p.email, s);
      }
    }

    /** handleKeycloakSubscription: the accounts, the mails, the error and the roles, for every fate of
        its calls. */
    method HandleKeycloakSubscription(p: Person, existing: seq<WorkspaceEntry>, s: Script) returns (ok: bool)
      requires UniqueNames(users)
      modifies this`users, this`mails, kc`held
      ensures UniqueNames(users) && users == AccountsAfter(old(users), p, s)
      ensures mails == old(mails) + MailSent(old(users), p, s)
      ensures
        var id := TargetId(old(users), p, s);
        && (ok <==> AccountSucceeds(old(users), p, s) &&
                    SyncSucceeds(s.sync, RoleNames(existing), old(kc.RolesOf(id)), kc.catalogue, ROLE_PREFIX))
        && (ok ==> kc.RolesOf(id) == SyncedRoles(old(kc.RolesOf(id)), existing))
        && SyncedRoles(kc.RolesOf(id), existing) == SyncedRoles(old(kc.RolesOf(id)), existing)
        && (forall u :: u != id || !AccountSucceeds(old(users), p, s) ==> kc.RolesOf(u) == old(kc.RolesOf(u)))
    {
      if Mistaken(users, p.name) {
        MistakenMeans(users, p, s);
      } else {
        AttemptMeans(users, p, s);
      }
      var userID;
      ok, userID := EnsureAccount(p, s);
      if !ok {
        return;
      }
      var names := GenKcUserRoleNames(existing);
      assert names == RoleNames(existing);
      ok := kc.UpdateUserRoles(names, userID, ROLE_PREFIX, s.sync);
    }

    /** Attempts on one tenant, from any realm whose lookup does not show its address yet. The address is
        stored by the first attempt whose write takes effect. No success comes before it, and a mail to
        the address is sent in the whole run if and only if that one attempt saw its write done and its
        mail take effect: no later attempt sends it again. */
    method Run(p: Person, existing: seq<WorkspaceEntry>, scripts: seq<Script>)
      returns (results: seq<bool>, ghost decisive: nat)
      requires UniqueNames(users) && !Settled(users, p)
      modifies this`users, this`mails, kc`held
      ensures |results| == |scripts| && decisive <= |scripts|
      ensures forall i :: 0 <= i < decisive ==> !Writes(old(users), p, scripts[i]) && !results[i]
      ensures decisive < |scripts| ==> Writes(old(users), p, scripts[decisive])
      ensures mails == old(mails) + if decisive < |scripts| then MailSent(old(users), p, scripts[decisive]) else []
      ensures decisive < |scripts| ==> Settled(users, p)
    {
      results, decisive := [], 0;
      for i := 0 to |scripts|
        invariant |results| == i && decisive <= i
        invariant UniqueNames(users)
        invariant forall k :: 0 <= k < decisive ==> !Writes(old(users), p, scripts[k]) && !results[k]
        invariant decisive == i ==> users == old(users) && mails == old(mails)
        invariant decisive < i ==>
          && Writes(old(users), p, scripts[decisive]) && Settled(users, p)
          && mails == old(mails) + MailSent(old(users), p, scripts[decisive])
      {
        AttemptSettles(users, p, scripts[i]);
        ghost var undecided := decisive == i;
        var ok := HandleKeycloakSubscription(p, existing, scripts[i]);
        results := results + [ok];
        if undecided && !Writes(old(users), p, scripts[i]) {
          decisive := i + 1;
        }
      }
    }
  }

  /** The account that the lookup yields has the wanted address. */
  ghost predicate Settled(users: map<string, KcUser>, p: Person) {
    var found := Looked(users, p.name);
    found.Some? && users[found.value].email == p.email
  }

  /** The attempt stores the data of the person. */
  ghost predicate Writes(users: map<string, KcUser>, p: Person, s: Script) {
    (Updates(users, p, s) && s.update.Effective()) || (Creates(users, p, s) && s.create.Effective())
  }

  /** The accounts of other names are as they were. */
  ghost predicate Untouched(before: map<string, KcUser>, after: map<string, KcUser>, name: string) {
    forall id :: id in before && before[id].username != name ==> id in after && after[id] == before[id]
  }

  /** One attempt in words, for every answer of the search: an account that is found gets the names and the
      address and keeps its user name, a missing one is created, and several others stop the attempt. The
      mail goes out for a new account and for a new address, after a write that is done. */
  lemma AttemptInWords(users: map<string, KcUser>, p: Person, s: Script)
    requires UniqueNames(users)
    ensures
      var after, mails, ok := AccountsAfter(users, p, s), MailSent(users, p, s), AccountSucceeds(users, p, s);
      if !s.search.Done? then after == users && mails == [] && !ok
      else if Exact(users, p.name) || |Hits(users, p.name)| == 1 then
        var id := TargetId(users, p, s);
        && id in Hits(users, p.name) && (Exact(users, p.name) ==> users[id].username == p.name)
        && after == (if s.update == FailedBefore then users
                     else users[id := KcUser(id, users[id].username, p.firstName, p.lastName, p.email)])
        && mails == (if s.update == Done && users[id].email != p.email && s.sendEmail != FailedBefore
                     then [Mail(id, p.email)] else [])
        && (ok <==> s.update == Done && (users[id].email != p.email ==> s.sendEmail == Done))
      else if |Hits(users, p.name)| == 0 && s.newId !in users then
        && TargetId(users, p, s) == s.newId
        && after == (if s.create == FailedBefore then users
                     else users[s.newId := KcUser(s.newId, p.name, p.firstName, p.lastName, p.email)])
        && mails == (if s.create == Done && s.sendEmail != FailedBefore then [Mail(s.newId, p.email)] else [])
        && (ok <==> s.create == Done && s.sendEmail == Done)
      else after == users && mails == [] && !ok
  {
    assert |Hits(users, p.name)| == 0 <==> Hits(users, p.name) == {};
  }

  /** The roles after a sync in words. */
  lemma SyncedInWords(roles: set<string>, existing: seq<WorkspaceEntry>, r: string)
    ensures r in SyncedRoles(roles, existing) <==>
      || (r in roles && !("workspace-" <= r))
      || exists e :: e in existing && r == "workspace-" + e.workspace + ":" + e.role
  {
    var names := RoleNames(existing);
    if e :| e in existing && r == "workspace-" + e.workspace + ":" + e.role {
      var i :| 0 <= i < |existing| && existing[i] == e;
      assert names[i] == r;
    }
  }

  /** One attempt on any realm: success needs a write, a write stores the address, and once it is
      stored it stays and no mail is sent for it. */
  lemma AttemptSettles(users: map<string, KcUser>, p: Person, s: Script)
    requires UniqueNames(users)
    ensures
      var after := AccountsAfter(users, p, s);
      && UniqueNames(after)
      && (AccountSucceeds(users, p, s) ==> Writes(users, p, s))
      && (Writes(users, p, s) || Settled(users, p) ==> Settled(after, p))
      && (!Writes(users, p, s) ==> after == users && MailSent(users, p, s) == [])
      && (Settled(users, p) ==> MailSent(users, p, s) == [])
  {
    if Mistaken(users, p.name) {
      MistakenMeans(users, p, s);
      assert Hits(AccountsAfter(users, p, s), p.name) == Hits(users, p.name);
    } else {
      AttemptMeans(users, p, s);
    }
  }

  /** One attempt outside the mistaken case: nobody else is touched, names stay unique, a success gives
      the person's own account its data, and a write stores the address there. */
  lemma AttemptMeans(users: map<string, KcUser>, p: Person, s: Script)
    requires UniqueNames(users) && !Mistaken(users, p.name)
    ensures
      var after, id := AccountsAfter(users, p, s), TargetId(users, p, s);
      && UniqueNames(after) && !Mistaken(after, p.name) && Untouched(users, after, p.name)
      && (AccountSucceeds(users, p, s) ==> id in after && after[id] == Account(id, p) && Writes(users, p, s))
      && (id in users && Updates(users, p, s) ==> users[id].username == p.name)
      && (Writes(users, p, s) ==> Settled(after, p) && Exact(after, p.name))
  {
    var after, id := AccountsAfter(users, p, s), TargetId(users, p, s);
    if Writes(users, p, s) {
      assert |Hits(users, p.name)| == 0 <==> Hits(users, p.name) == {};
      assert id in after && after[id].username == p.name && after[id].email == p.email;
    }
  }

  /** One attempt in the mistaken case: it rewrites the one account whose name contains the person's,
      exactly when its search is done and its update takes effect, and never creates the person's own. */
  lemma MistakenMeans(users: map<string, KcUser>, p: Person, s: Script)
    requires UniqueNames(users) && Mistaken(users, p.name)
    ensures
      var after, id := AccountsAfter(users, p, s), TargetId(users, p, s);
      && UniqueNames(after) && Hits(users, p.name) == {id} && users[id].username != p.name
      && after == (if s.search.Done? && s.update.Effective() then users[id := Rewritten(users[id], p)] else users)
      && !Exact(after, p.name)
  {
    OneElement(Hits(users, p.name));
  }

  /** The mistaken case arises: one other account whose name contains the tenant's. */
  lemma MistakenExists()
    ensures Mistaken(map["1" := KcUser("1", "john.doe", "", "", "")], "john")
  {
    var users := map["1" := KcUser("1", "john.doe", "", "", "")];
    assert "john" <= "john.doe"[0..];
    assert Contains("john.doe", "john");
    assert Hits(users, "john") == {"1"};
  }
}
