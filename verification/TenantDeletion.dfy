/** The deletion of a tenant (operators/pkg/tenant-controller/tenant_controller.go): the finalizer
    must outlive the tenant's Keycloak and Nextcloud users
    (DeleteUser in nextcloud_utils.go). */
module TenantDeletion {
  import opened Common
  import opened KeycloakUsers
  import opened Text
  import NC = NextcloudSubscription

  /** The answer to Nextcloud's DELETE: status 100, another status, or no usable answer at all; the last
      two with or without the effect. */
  datatype DeleteReply = Status100 | OtherStatus(effective: bool) | NoAnswer(effective: bool)

  /** The fate of the calls of one reconcile of a tenant being deleted. */
  datatype Script = Script(search: Outcome, deleteKc: Outcome, deleteNc: DeleteReply, confirmNc: Outcome,
                           removeFinalizer: Outcome) {
    /** The attempt deletes the account that its lookup yields, if there is one. */
    predicate Strikes() {
      search.Done? && deleteKc.Effective()
    }
  }

  /** What is stored about the tenant. */
  datatype Stored = Stored(finalizer: bool, kcUser: bool, ncUser: bool)

  /** Without the finalizer neither user is left. */
  predicate CleanedUp(st: Stored) {
    st.finalizer || (!st.kcUser && !st.ncUser)
  }

  /** When Nextcloud's answers amount to a deleted user. */
  predicate NcDeleted(existed: bool, reply: DeleteReply, confirm: Outcome) {
    match reply
    case NoAnswer(_) => false
    case Status100 => existed || confirm.Done?
    case OtherStatus(effective) => (!existed || effective) && confirm.Done?
  }

  /** Every call that the clean-up needs succeeds: two or more other users whose names contain the
      tenant's block it once its own account is gone. */
  ghost predicate CleansUp(s: Script, users: map<string, KcUser>, ncExists: bool, tenant: string) {
    && s.search.Done? && (Exact(users, tenant) || |Hits(users, tenant)| < 2)
    && (Hits(users, tenant) == {} || s.deleteKc.Done?)
    && NcDeleted(ncExists, s.deleteNc, s.confirmNc)
  }

  /** What is stored outside the operator: the finalizer, the Keycloak accounts, the Nextcloud users. */
  datatype Held = Held(finalizer: bool, users: map<string, KcUser>, ncUsers: set<string>)

  /** The accounts after one attempt: whoever the lookup yields goes. */
  ghost function AccountsAfter(users: map<string, KcUser>, tenant: string, s: Script): map<string, KcUser> {
    if s.Strikes() && Looked(users, tenant).Some? then users - {Looked(users, tenant).value} else users
  }

  /** The Nextcloud users after one attempt. */
  function NcAfter(ncUsers: set<string>, username: string, reply: DeleteReply): set<string> {
    if reply.Status100? || reply.effective then ncUsers - {username} else ncUsers
  }

  /** One reconcile of a tenant being deleted. */
  ghost function Next(h: Held, tenant: string, s: Script): Held {
    if !h.finalizer then h
    else
      Held(!(CleansUp(s, h.users, NC.GenNcUsername(tenant) in h.ncUsers, tenant) && s.removeFinalizer.Effective()),
           AccountsAfter(h.users, tenant, s), NcAfter(h.ncUsers, NC.GenNcUsername(tenant), s.deleteNc))
  }

  /** Any number of reconciles. */
  ghost function After(h: Held, tenant: string, scripts: seq<Script>): Held {
    if |scripts| == 0 then h
    else Next(After(h, tenant, scripts[..|scripts| - 1]), tenant, scripts[|scripts| - 1])
  }

  class Services {
    var kcUsers: map<string, KcUser>
    /** The names of the Nextcloud users. */
    var ncUsers: set<string>
    /** The finalizer of the tenant being deleted. */
    var finalizer: bool
    const tenant: string
    ghost var log: seq<Stored>

    ghost function Now(): Stored
      reads this
    {
      Stored(finalizer, Exact(kcUsers, tenant), NC.GenNcUsername(tenant) in ncUsers)
    }

    ghost function State(): Held
      reads this
    {
      Held(finalizer, kcUsers, ncUsers)
    }

    ghost predicate Valid()
      reads this
    {
      && UniqueNames(kcUsers) && CleanedUp(Now())
      && forall i :: 0 <= i < |log| ==> CleanedUp(log[i])
    }

    /** NcActor.DeleteUser: when the answer is not 100, the user counts as deleted only if it is
        confirmed to be missing. */
    method NcDeleteUser(username: string, reply: DeleteReply, confirm: Outcome) returns (ok: bool)
      modifies this`ncUsers, this`log
      ensures ncUsers == NcAfter(old(ncUsers), username, reply)
      ensures ok ==> username !in ncUsers
      ensures ok <==> NcDeleted(username in old(ncUsers), reply, confirm)
      // deleted when the deletion is acknowledged, or when the user is missing and confirmed to be
      ensures ok <==>
        && !reply.NoAnswer?
        && ((reply.Status100? && username in old(ncUsers)) || (confirm.Done? && username !in ncUsers))
      ensures username in ncUsers <==>
        username in old(ncUsers) && !reply.Status100? && !reply.effective
      ensures forall name :: name != username ==> (name in ncUsers <==> name in old(ncUsers))
      ensures log == old(log) || log == old(log) + [Now()]
    {
      // the service answers 100 only when it removes an existing user
      var acknowledged := reply.Status100? && username in ncUsers;
      if acknowledged || (!reply.Status100? && reply.effective) {
        ncUsers := ncUsers - {username};
        log := log + [Now()];
      }
      if reply.NoAnswer? {
        return false;
      }
      if acknowledged {
        return true;
      }
      if !confirm.Done? {
        return false;
      }
      ok := username !in ncUsers;
    }

    /** handleDeletion: both users are attempted, whatever happens to the first. */
    method HandleDeletion(s: Script) returns (ok: bool)
      requires Valid()
      modifies this`kcUsers, this`ncUsers, this`log
      ensures Valid() && old(log) <= log
      ensures ok ==> !Exact(kcUsers, tenant) && NC.GenNcUsername(tenant) !in ncUsers
      ensures ok <==> CleansUp(s, old(kcUsers), NC.GenNcUsername(tenant) in old(ncUsers), tenant)
      ensures kcUsers == AccountsAfter(old(kcUsers), tenant, s)
      // another person's account is deleted exactly in the mistaken case
      ensures (exists id :: id in old(kcUsers) && id !in kcUsers && old(kcUsers)[id].username != tenant) <==>
              s.search.Done? && s.deleteKc.Effective() && Mistaken(old(kcUsers), tenant)
      ensures ncUsers == NcAfter(old(ncUsers), NC.GenNcUsername(tenant), s.deleteNc)
      // no error exactly when Keycloak's half succeeds and Nextcloud's user is deleted or confirmed missing
      ensures ok <==>
        && s.search.Done? && (Exact(old(kcUsers), tenant) || |Hits(old(kcUsers), tenant)| < 2)
        && (Hits(old(kcUsers), tenant) == {} || s.deleteKc.Done?)
        && !s.deleteNc.NoAnswer?
        && ((s.deleteNc.Status100? && "keycloak-" + tenant in old(ncUsers)) ||
            (s.confirmNc.Done? && "keycloak-" + tenant !in ncUsers))
    {
      var kcOk := DeleteKcUser(s);
      var ncOk := NcDeleteUser(NC.GenNcUsername(tenant), s.deleteNc, s.confirmNc);
      ok := kcOk && ncOk;
    }

    /** The Keycloak half of handleDeletion. */
    method DeleteKcUser(s: Script) returns (ok: bool)
      requires Valid()
      modifies this`kcUsers, this`log
      ensures Valid() && old(log) <= log
      ensures ok ==> !Exact(kcUsers, tenant)
      ensures ok <==>
        && s.search.Done? && (Exact(old(kcUsers), tenant) || |Hits(old(kcUsers), tenant)| < 2)
        && (Hits(old(kcUsers), tenant) == {} || s.deleteKc.Done?)
      ensures kcUsers == AccountsAfter(old(kcUsers), tenant, s)
      ensures (exists id :: id in old(kcUsers) && id !in kcUsers && old(kcUsers)[id].username != tenant) <==>
              s.search.Done? && s.deleteKc.Effective() && Mistaken(old(kcUsers), tenant)
    {
      ok := true;
      var info := GetUserInfo(kcUsers, tenant, s.search);
      ghost var before := kcUsers;
      if info.Failed? {
        ok := false;
      } else if info.Known? {
        if s.deleteKc.Effective() {
          kcUsers := kcUsers - {info.id};
          log := log + [Now()];
        }
        if !s.deleteKc.Succeeded() {
          ok := false;
        }
      }
      assert |Hits(before, tenant)| == 0 <==> Hits(before, tenant) == {};
      KcChange(before, kcUsers, tenant, info, s);
    }

    /** The deletion branch of Reconcile. */
    method ReconcileDeletion(s: Script) returns (ok: bool)
      requires Valid()
      modifies this
      ensures Valid() && old(log) <= log
      // the finalizer goes only in a reconcile after which neither user exists
      ensures old(finalizer) && !finalizer ==> !Exact(kcUsers, tenant) && NC.GenNcUsername(tenant) !in ncUsers
      ensures State() == Next(old(State()), tenant, s)
      ensures old(finalizer) ==>
        var clean := CleansUp(s, old(kcUsers), NC.GenNcUsername(tenant) in old(ncUsers), tenant);
        (!finalizer <==> clean && s.removeFinalizer.Effective()) && (ok <==> clean && s.removeFinalizer.Done?)
      ensures !old(finalizer) ==> ok && !finalizer && kcUsers == old(kcUsers) && ncUsers == old(ncUsers)
    {
      ok := true;
      if finalizer {
        ok := HandleDeletion(s);
        if ok {
          if s.removeFinalizer.Effective() {
            finalizer := false;
            log := log + [Now()];
          }
          ok := s.removeFinalizer.Succeeded();
        }
      }
    }

    /** Retries until the tenant is gone: in every state along the way, a tenant without its
        finalizer has neither user left. */
    method Run(scripts: seq<Script>)
      requires UniqueNames(kcUsers) && finalizer && log == []
      modifies this
      ensures State() == After(old(State()), tenant, scripts)
      ensures forall i :: 0 <= i < |log| ==> CleanedUp(log[i])
      ensures !finalizer ==> !Exact(kcUsers, tenant) && NC.GenNcUsername(tenant) !in ncUsers
    {
      for i := 0 to |scripts|
        invariant Valid() && State() == After(old(State()), tenant, scripts[..i])
      {
        assert scripts[..i + 1][..i] == scripts[..i];
        var _ := ReconcileDeletion(scripts[i]);
      }
      assert scripts[..|scripts|] == scripts;
    }
  }

  /** A deletion ends in one reconcile whose calls are done, and then neither user exists, whether the
      Nextcloud user is deleted now or was already missing. */
  lemma DoneEnds(h: Held, tenant: string, s: Script)
    requires UniqueNames(h.users) && h.finalizer
    requires s.search.Done? && s.deleteKc.Done? && s.confirmNc.Done? && s.removeFinalizer.Done?
    requires s.deleteNc == Status100 || (s.deleteNc == OtherStatus(false) && "keycloak-" + tenant !in h.ncUsers)
    requires Exact(h.users, tenant) || |Hits(h.users, tenant)| < 2
    ensures
      var after := Next(h, tenant, s);
      !after.finalizer && !Exact(after.users, tenant) && "keycloak-" + tenant !in after.ncUsers
  {
    OneOwn(h.users, tenant);
    AttemptAccounts(h.users, tenant, s);
  }

  // ----- What retries do to the accounts -----

  /** The account of the tenant, if there is one. */
  ghost function Own(users: map<string, KcUser>, tenant: string): set<string> {
    set id | id in users && users[id].username == tenant
  }

  /** The accounts of other people whose names contain the tenant's. */
  ghost function Others(users: map<string, KcUser>, tenant: string): set<string> {
    set id | id in users && users[id].username != tenant && Contains(users[id].username, tenant)
  }

  /** How many attempts strike while the finalizer is there. */
  ghost function Strikes(h: Held, tenant: string, scripts: seq<Script>): nat {
    if |scripts| == 0 then 0
    else
      var before := scripts[..|scripts| - 1];
      Strikes(h, tenant, before) +
      if After(h, tenant, before).finalizer && scripts[|scripts| - 1].Strikes() then 1 else 0
  }

  /** The accounts after `n` strikes: the first takes the tenant's own account, and the next one, or the
      first if there was no such account, takes a single other account whose name contains the tenant's. */
  ghost function Struck(users: map<string, KcUser>, tenant: string, n: nat): map<string, KcUser> {
    users - Gone(Own(users, tenant), Others(users, tenant), n)
  }

  /** Who is gone after `n` strikes, of the tenant's own account and the others. */
  ghost function Gone(own: set<string>, others: set<string>, n: nat): set<string> {
    (if n > 0 then own else {}) + (if |others| == 1 && n > |own| then others else {})
  }

  /** Who a strike takes. */
  ghost function Taken(own: set<string>, others: set<string>): set<string> {
    if own != {} then own else if |others| == 1 then others else {}
  }

  lemma GoneNext(own: set<string>, others: set<string>, n: nat)
    requires own !! others && |own| <= 1
    ensures
      var gone := Gone(own, others, n);
      Gone(own, others, n + 1) == gone + Taken(own - gone, others - gone)
  {
    var gone := Gone(own, others, n);
    if n == 0 {
      assert gone == {};
      FirstStrike(own, others);
    } else if |others| == 1 && n > |own| {
      assert own - gone == {} && others - gone == {};
    } else {
      assert gone == own;
      SecondStrike(own, others, n);
    }
  }

  lemma FirstStrike(own: set<string>, others: set<string>)
    requires |own| <= 1
    ensures Gone(own, others, 1) == {} + Taken(own - {}, others - {})
  {
    assert own - {} == own && others - {} == others;
    if own == {} {
      assert |own| == 0;
    }
  }

  lemma SecondStrike(own: set<string>, others: set<string>, n: nat)
    requires own !! others && |own| <= 1 && n > 0 && !(|others| == 1 && n > |own|)
    ensures Gone(own, others, n + 1) == own + Taken(own - own, others - own)
  {
    assert own - own == {} && others - own == others;
  }

  lemma OneOwn(users: map<string, KcUser>, tenant: string)
    requires UniqueNames(users)
    ensures Exact(users, tenant) ==> Looked(users, tenant).Some? && Own(users, tenant) == {Looked(users, tenant).value}
    ensures !Exact(users, tenant) ==> Own(users, tenant) == {} && Hits(users, tenant) == Others(users, tenant)
    ensures Mistaken(users, tenant) ==>
      Looked(users, tenant).Some? && Others(users, tenant) == {Looked(users, tenant).value}
  {
    if Mistaken(users, tenant) {
      OneElement(Hits(users, tenant));
    }
  }

  /** One attempt on any realm. */
  lemma AttemptAccounts(users: map<string, KcUser>, tenant: string, s: Script)
    requires UniqueNames(users)
    ensures
      AccountsAfter(users, tenant, s) ==
      if !s.Strikes() then users
      else if Exact(users, tenant) then users - Own(users, tenant)
      else if |Others(users, tenant)| == 1 then users - Others(users, tenant)
      else users
  {
    OneOwn(users, tenant);
  }

  lemma StrikeTakes(users: map<string, KcUser>, tenant: string, s: Script)
    requires UniqueNames(users) && s.Strikes()
    ensures AccountsAfter(users, tenant, s) == users - Taken(Own(users, tenant), Others(users, tenant))
  {
    AttemptAccounts(users, tenant, s);
    OneOwn(users, tenant);
  }

  lemma Minus(users: map<string, KcUser>, tenant: string, gone: set<string>)
    ensures Own(users - gone, tenant) == Own(users, tenant) - gone
    ensures Others(users - gone, tenant) == Others(users, tenant) - gone
    ensures UniqueNames(users) ==> UniqueNames(users - gone)
  {
  }

  lemma MinusTwice(users: map<string, KcUser>, a: set<string>, b: set<string>)
    ensures (users - a) - b == users - (a + b)
  {
  }

  lemma OneMoreStrike(users: map<string, KcUser>, tenant: string, n: nat, s: Script)
    requires UniqueNames(users)
    ensures AccountsAfter(Struck(users, tenant, n), tenant, s) ==
            Struck(users, tenant, if s.Strikes() then n + 1 else n)
  {
    if s.Strikes() {
      var own, others := Own(users, tenant), Others(users, tenant);
      var gone := Gone(own, others, n);
      Minus(users, tenant, gone);
      StrikeTakes(users - gone, tenant, s);
      OneOwn(users, tenant);
      GoneNext(own, others, n);
      MinusTwice(users, gone, Taken(own - gone, others - gone));
    }
  }

  /** The accounts after any run of retries are decided by the number of strikes. */
  lemma {:induction false} RunAccounts(h: Held, tenant: string, scripts: seq<Script>)
    requires UniqueNames(h.users)
    ensures After(h, tenant, scripts).users == Struck(h.users, tenant, Strikes(h, tenant, scripts))
  {
    if |scripts| > 0 {
      var before := scripts[..|scripts| - 1];
      RunAccounts(h, tenant, before);
      OneMoreStrike(h.users, tenant, Strikes(h, tenant, before), scripts[|scripts| - 1]);
    }
  }

  /** Who survives any run of retries: the tenant's own account exactly when no attempt strikes, and
      another account exactly unless it is the only one whose name contains the tenant's and an
      attempt strikes when the tenant's own account is already gone. */
  lemma RunSurvivors(h: Held, tenant: string, scripts: seq<Script>, id: string)
    requires UniqueNames(h.users) && id in h.users
    ensures
      var n, own := Strikes(h, tenant, scripts), if Exact(h.users, tenant) then 1 else 0;
      id !in After(h, tenant, scripts).users <==>
      if h.users[id].username == tenant then n >= 1
      else Others(h.users, tenant) == {id} && n > own
  {
    RunAccounts(h, tenant, scripts);
    OneOwn(h.users, tenant);
    if |Others(h.users, tenant)| == 1 {
      OneElement(Others(h.users, tenant));
    }
  }

  /** The clean-up can never succeed again: the tenant's own account is gone, and two or more names
      contain its name. */
  ghost predicate Blocked(h: Held, tenant: string) {
    h.finalizer && !Exact(h.users, tenant) && |Others(h.users, tenant)| >= 2
  }

  /** A blocked deletion stays blocked and touches no account, whatever the calls answer. */
  lemma {:induction false} BlockedForGood(h: Held, tenant: string, scripts: seq<Script>)
    requires UniqueNames(h.users) && Blocked(h, tenant)
    ensures After(h, tenant, scripts).finalizer && After(h, tenant, scripts).users == h.users
    ensures forall s :: !CleansUp(s, h.users, NC.GenNcUsername(tenant) in h.ncUsers, tenant)
  {
    OneOwn(h.users, tenant);
    if |scripts| > 0 {
      var before := scripts[..|scripts| - 1];
      BlockedForGood(h, tenant, before);
      AttemptAccounts(h.users, tenant, scripts[|scripts| - 1]);
    }
  }

  /** With two or more such names, a run ends blocked exactly when it ends with the finalizer and
      without the tenant's own account: a strike in an attempt that failed elsewhere is enough. */
  lemma BlockedExact(h: Held, tenant: string, scripts: seq<Script>)
    requires UniqueNames(h.users) && |Others(h.users, tenant)| >= 2
    ensures Blocked(After(h, tenant, scripts), tenant) <==>
            After(h, tenant, scripts).finalizer && (Exact(h.users, tenant) ==> Strikes(h, tenant, scripts) > 0)
  {
    RunAccounts(h, tenant, scripts);
    OneOwn(h.users, tenant);
    assert Others(After(h, tenant, scripts).users, tenant) == Others(h.users, tenant);
  }

  const TWO_JOHNS := map["1" := KcUser("1", "john", "", "", ""), "2" := KcUser("2", "john.doe", "", "", "")]
  const NEXTCLOUD_SILENT := Script(Done, Done, NoAnswer(false), Done, Done)
  const ALL_DONE := Script(Done, Done, Status100, Done, Done)

  const JOHN_DOE := map["2" := KcUser("2", "john.doe", "", "", "")]

  lemma AfterTwo(h: Held, tenant: string, a: Script, b: Script)
    ensures After(h, tenant, [a, b]) == Next(Next(h, tenant, a), tenant, b)
  {
    assert [a, b][..1] == [a] && [a][..0] == [];
    assert After(h, tenant, [a]) == Next(h, tenant, a);
  }

  lemma FirstAttempt()
    ensures UniqueNames(TWO_JOHNS) && !Mistaken(TWO_JOHNS, "john")
    ensures AccountsAfter(TWO_JOHNS, "john", NEXTCLOUD_SILENT) == JOHN_DOE
  {
    assert TWO_JOHNS["1"].username == "john";
    AttemptAccounts(TWO_JOHNS, "john", NEXTCLOUD_SILENT);
    assert Own(TWO_JOHNS, "john") == {"1"};
  }

  lemma SecondAttempt()
    ensures CleansUp(ALL_DONE, JOHN_DOE, true, "john") && AccountsAfter(JOHN_DOE, "john", ALL_DONE) == map[]
  {
    assert "john.doe"[0..] == "john.doe" && Contains("john.doe", "john");
    assert Others(JOHN_DOE, "john") == {"2"} == Hits(JOHN_DOE, "john");
    AttemptAccounts(JOHN_DOE, "john", ALL_DONE);
  }

  /** The deletion of "john" in a realm that is not in the mistaken case, whose first attempt gets no
      answer from Nextcloud: the retry deletes "john.doe", reports no error and drops the finalizer. */
  lemma RetryDeletesAnother()
    ensures
      var h := Held(true, TWO_JOHNS, {NC.GenNcUsername("john")});
      && UniqueNames(h.users) && !Mistaken(h.users, "john")
      && After(h, "john", [NEXTCLOUD_SILENT, ALL_DONE]) == Held(false, map[], {})
  {
    FirstAttempt();
    SecondAttempt();
    AfterTwo(Held(true, TWO_JOHNS, {NC.GenNcUsername("john")}), "john", NEXTCLOUD_SILENT, ALL_DONE);
  }

  /** Who disappears from Keycloak in one attempt. */
  lemma KcChange(before: map<string, KcUser>, after: map<string, KcUser>, tenant: string, info: Info, s: Script)
    requires UniqueNames(before)
    requires after == if info.Known? && s.deleteKc.Effective() then before - {info.id} else before
    requires info.Known? ==> info.id in Hits(before, tenant)
    requires !s.search.Done? ==> info == Failed
    requires s.search.Done? && Exact(before, tenant) ==>
      info.Known? && info.id in before && before[info.id].username == tenant
    requires s.search.Done? && !Exact(before, tenant) ==>
      (info.Known? <==> |Hits(before, tenant)| == 1)
    ensures (exists id :: id in before && id !in after && before[id].username != tenant) <==>
            s.search.Done? && s.deleteKc.Effective() && Mistaken(before, tenant)
  {
  }
}
