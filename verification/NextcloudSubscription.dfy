/** The Nextcloud credentials of one tenant
    (handleNextcloudSubscription in operators/pkg/tenant-controller/tenant_controller.go): the
    password lives in Nextcloud and in a Kubernetes secret, and no call writes both. */
module NextcloudSubscription {
  import opened Common

  datatype User = User(password: string, displayname: string)
  datatype Secret = Secret(username: string, password: string)

  /** What the two services hold about the tenant. */
  datatype Stored = Stored(user: Option<User>, secret: Option<Secret>)

  /** What others may do between two calls of the operator: delete the secret, which is how a new
      password is asked for, and rename the user. Nobody else creates the secret or deletes the user. */
  datatype Outside = Outside(deleteSecret: bool, rename: Option<string>)

  const CALM := Outside(false, None)

  datatype Call = Call(outside: Outside, outcome: Outcome)

  /** One reconcile: the tenant's name and expected display name, the fate of each call it may
      make, and the token it may draw (none when the generator fails). */
  datatype Script = Script(expected: string, getUser: Call, getSecret: Call,
                           token: Option<string>, writeUser: Call, writeSecret: Call) {
    predicate Calm() {
      && getUser.outside == CALM && getSecret.outside == CALM
      && writeUser.outside == CALM && writeSecret.outside == CALM
    }

    /** The secret is still there when it is read, and the display name that was read. */
    predicate SeesSecret(st: Stored) {
      st.secret.Some? && !getUser.outside.deleteSecret && !getSecret.outside.deleteSecret
    }

    function SeenName(u: User): string {
      if getUser.outside.rename.Some? then getUser.outside.rename.value else u.displayname
    }

    /** The reconcile gives the user a new password: there is no user, or its secret was not found. */
    predicate SetsPassword(st: Stored) {
      && getUser.outcome.Done? && (st.user.Some? ==> getSecret.outcome.Done? && !SeesSecret(st))
      && token.Some? && writeUser.outcome.Effective()
    }

    /** Every call that the reconcile needs from this state succeeds. */
    predicate Succeeds(st: Stored) {
      && getUser.outcome.Done? && (st.user.Some? ==> getSecret.outcome.Done?)
      && if st.user.Some? && SeesSecret(st)
         then SeenName(st.user.value) == expected || writeUser.outcome.Done?
         else token.Some? && writeUser.outcome.Done? && writeSecret.outcome.Done?
    }
  }

  function GenNcUsername(tenant: string): string {
    "keycloak-" + tenant
  }

  function GenNcDisplayname(firstName: string, lastName: string): string {
    firstName + " " + lastName
  }

  /** An existing secret names the user and holds the user's current password. */
  predicate SecretCurrent(st: Stored, username: string) {
    st.secret.Some? ==> st.user.Some? && st.secret.value == Secret(username, st.user.value.password)
  }

  /** What the two services hold once others have moved. */
  function Moved(st: Stored, o: Outside): Stored {
    Stored(if o.rename.Some? && st.user.Some? then Some(st.user.value.(displayname := o.rename.value)) else st.user,
           if o.deleteSecret then None else st.secret)
  }

  /** What the call that writes the user leaves. */
  function Written(st: Stored, call: Call, user: User): Stored {
    var moved := Moved(st, call.outside);
    if call.outcome.Effective() then moved.(user := Some(user)) else moved
  }

  /** The end of an attempt that drew a token: the user gets it, then the secret. */
  function WithToken(st: Stored, s: Script, user: User, username: string): Stored {
    var written := Written(st, s.writeUser, user);
    if !s.writeUser.outcome.Done? then written
    else
      var moved := Moved(written, s.writeSecret.outside);
      if s.writeSecret.outcome.Effective() then moved.(secret := Some(Secret(username, user.password))) else moved
  }

  /** What one attempt leaves, whatever fails and whatever others do during it. */
  function AfterAttempt(st: Stored, s: Script, username: string): Stored {
    var seen := Moved(st, s.getUser.outside);
    if !s.getUser.outcome.Done? then seen
    else if seen.user.None? then
      if s.token.None? then seen else WithToken(seen, s, User(s.token.value, s.expected), username)
    else
      var found := Moved(seen, s.getSecret.outside);
      if !s.getSecret.outcome.Done? then found
      else if found.secret.None? then
        if s.token.None? then found
        else WithToken(found, s, Moved(found, s.writeUser.outside).user.value.(password := s.token.value), username)
      else if seen.user.value.displayname == s.expected then found
      else Written(found, s.writeUser, found.user.value.(displayname := s.expected))
  }

  /** The password after an attempt is the drawn token exactly when a new one was needed and written,
      whatever is disturbed or fails; a secret that is there then holds it. */
  lemma AttemptPassword(st: Stored, s: Script, username: string)
    requires SecretCurrent(st, username)
    ensures
      var after := AfterAttempt(st, s, username);
      && SecretCurrent(after, username)
      && (after.user.Some? <==> st.user.Some? || s.SetsPassword(st))
      && (after.user.Some? ==>
            after.user.value.password == if s.SetsPassword(st) then s.token.value else st.user.value.password)
      && (after.secret.Some? ==> after.secret == Some(Secret(username, after.user.value.password)))
      && (s.SetsPassword(st) ==>
            (after.secret.Some? <==> s.writeUser.outcome.Done? && s.writeSecret.outcome.Effective()))
  {
  }

  /** The exact end of an undisturbed attempt that needs a new password. */
  lemma CalmReset(st: Stored, s: Script, username: string)
    requires SecretCurrent(st, username) && s.Calm() && st.secret.None?
    ensures
      var after := AfterAttempt(st, s, username);
      if s.getUser.outcome.Done? && (st.user.Some? ==> s.getSecret.outcome.Done?) && s.token.Some? then
        var name := if st.user.Some? then st.user.value.displayname else s.expected;
        && after.user == (if s.writeUser.outcome.Effective() then Some(User(s.token.value, name)) else st.user)
        && after.secret == (if s.writeUser.outcome.Done? && s.writeSecret.outcome.Effective()
                            then Some(Secret(username, s.token.value)) else None)
      else after == st
  {
  }

  /** The exact end of an undisturbed attempt that finds its secret. */
  lemma CalmRename(st: Stored, s: Script, username: string)
    requires SecretCurrent(st, username) && s.Calm() && st.secret.Some?
    ensures
      var after := AfterAttempt(st, s, username);
      if s.getUser.outcome.Done? && s.getSecret.outcome.Done? && s.writeUser.outcome.Effective()
      then after == Stored(Some(User(st.user.value.password, s.expected)), st.secret)
      else after == st
  {
  }

  /** What an undisturbed attempt means, and when it succeeds. */
  lemma CalmSuccess(st: Stored, s: Script, username: string)
    requires SecretCurrent(st, username)
    ensures s.Calm() ==>
      var after := AfterAttempt(st, s, username);
      && (s.Succeeds(st) ==> after.user.Some? && after.secret.Some?)
      && (s.Succeeds(st) && st.secret.None? ==>
            && s.token.Some? && after.user.value.password == s.token.value
            && after.secret == Some(Secret(username, s.token.value)))
      && (s.Succeeds(st) ==>
            (after.user.value.displayname == s.expected <==>
             st.user.None? || st.secret.Some? || st.user.value.displayname == s.expected))
      && (st.secret.Some? ==>
            && after.secret == st.secret
            && (after.user == st.user || after.user == Some(st.user.value.(displayname := s.expected))))
      && (st.secret.None? && st.user.Some? ==>
            after.user == st.user || (s.token.Some? && after.user == Some(st.user.value.(password := s.token.value))))
  {
    if s.Calm() && st.secret.None? {
      CalmReset(st, s, username);
    } else if s.Calm() {
      CalmRename(st, s, username);
    }
  }

  class Stores {
    var user: Option<User>
    var secret: Option<Secret>
    const tenant: string
    /** Every state the two services went through. */
    ghost var log: seq<Stored>

    constructor (tenant: string)
      ensures this.tenant == tenant && user == None && secret == None && Valid()
    {
      this.tenant := tenant;
      user, secret := None, None;
      log := [];
    }

    ghost predicate Valid()
      reads this
    {
      && SecretCurrent(Stored(user, secret), GenNcUsername(tenant))
      && forall i :: 0 <= i < |log| ==> SecretCurrent(log[i], GenNcUsername(tenant))
    }

    method Happens(o: Outside)
      requires Valid()
      modifies this
      ensures Valid() && old(log) <= log
      ensures Stored(user, secret) == Moved(old(Stored(user, secret)), o)
    {
      if o.deleteSecret {
        secret := None;
      }
      if o.rename.Some? && user.Some? {
        user := Some(user.value.(displayname := o.rename.value));
      }
      log := log + [Stored(user, secret)];
    }

    /** handleNextcloudSubscription. */
    method HandleNextcloudSubscription(s: Script) returns (ok: bool)
      requires Valid()
      modifies this
      ensures Valid() && old(log) <= log
      ensures Stored(user, secret) == AfterAttempt(old(Stored(user, secret)), s, "keycloak-" + tenant)
      ensures old(user).Some? ==> user.Some?
      ensures ok <==> s.Succeeds(old(Stored(user, secret)))
      ensures (s.getUser.outcome.Done? && s.getSecret.outcome.Done? && s.token.Some? &&
               s.writeUser.outcome.Done? && s.writeSecret.outcome.Done?) ==> ok
      ensures ok ==> s.getUser.outcome.Done? && (old(user).Some? ==> s.getSecret.outcome.Done?)
      ensures ok && s.Calm() ==> user.Some? && secret.Some?
      // a new password is the drawn token, in both services
      ensures ok && s.Calm() && (old(user).None? || old(secret).None?) ==>
        && s.token.Some? && user.value.password == s.token.value
        && secret == Some(Secret("keycloak-" + tenant, s.token.value))
      // the reset of a lost secret is the one success that leaves a stale display name
      ensures ok && s.Calm() ==>
        (user.value.displayname == s.expected <==>
         old(user).None? || old(secret).Some? || old(user).value.displayname == s.expected)
      // whatever fails, a secret is never replaced, and only the field at stake changes
      ensures s.Calm() && old(secret).Some? ==>
        && secret == old(secret)
        && (user == old(user) || user == Some(old(user).value.(displayname := s.expected)))
      ensures s.Calm() && old(secret).None? && old(user).Some? ==>
        user == old(user) || (s.token.Some? && user == Some(old(user).value.(password := s.token.value)))
    {
      CalmSuccess(Stored(user, secret), s, GenNcUsername(tenant));
      ok := Attempt(s);
    }

    /** The branches of handleNextcloudSubscription. */
    method Attempt(s: Script) returns (ok: bool)
      requires Valid()
      modifies this
      ensures Valid() && old(log) <= log
      ensures Stored(user, secret) == AfterAttempt(old(Stored(user, secret)), s, "keycloak-" + tenant)
      ensures ok <==> s.Succeeds(old(Stored(user, secret)))
    {
      var username := GenNcUsername(tenant);
      Happens(s.getUser.outside);
      if !s.getUser.outcome.Succeeded() {
        return false;
      }
      if user.Some? {
        var displayname := user.value.displayname;
        Happens(s.getSecret.outside);
        if !s.getSecret.outcome.Succeeded() {
          return false;
        }
        if secret.None? {
          if s.token.None? {
            return false;
          }
          Happens(s.writeUser.outside);
          if s.writeUser.outcome.Effective() {
            user := Some(user.value.(password := s.token.value));
            log := log + [Stored(user, secret)];
          }
          if !s.writeUser.outcome.Succeeded() {
            return false;
          }
          ok := WriteSecret(s, username);
          return;
        }
        if displayname != s.expected {
          Happens(s.writeUser.outside);
          if s.writeUser.outcome.Effective() {
            user := Some(user.value.(displayname := s.expected));
            log := log + [Stored(user, secret)];
          }
          if !s.writeUser.outcome.Succeeded() {
            return false;
          }
        }
        return true;
      }
      if s.token.None? {
        return false;
      }
      Happens(s.writeUser.outside);
      if s.writeUser.outcome.Effective() {
        user := Some(User(s.token.value, s.expected));
        log := log + [Stored(user, secret)];
      }
      if !s.writeUser.outcome.Succeeded() {
        return false;
      }
      ok := WriteSecret(s, username);
    }

    /** The CreateOrUpdate of the secret, after the token became the user's password. */
    method WriteSecret(s: Script, username: string) returns (ok: bool)
      requires Valid() && username == GenNcUsername(tenant)
      requires s.token.Some? && user.Some? && user.value.password == s.token.value
      modifies this
      ensures Valid() && old(log) <= log && user.Some?
      ensures user == Moved(old(Stored(user, secret)), s.writeSecret.outside).user
      ensures secret == if s.writeSecret.outcome.Effective() then Some(Secret("keycloak-" + tenant, s.token.value))
                        else Moved(old(Stored(user, secret)), s.writeSecret.outside).secret
      ensures ok == s.writeSecret.outcome.Done?
    {
      Happens(s.writeSecret.outside);
      if s.writeSecret.outcome.Effective() {
        secret := Some(Secret(username, s.token.value));
        log := log + [Stored(user, secret)];
      }
      ok := s.writeSecret.outcome.Succeeded();
    }

    /** Any run of reconciles with any failures and interferences. In every state the services go
        through, an existing secret holds the current password; after two successive successful
        and undisturbed reconciles for the same names, the secret exists and the display name is
        the expected one. The states between the reconciles are a history of the scripts. */
    method Run(scripts: seq<Script>) returns (results: seq<bool>, ghost states: seq<Stored>)
      requires Valid()
      modifies this
      ensures |results| == |scripts| && old(log) <= log
      ensures forall i :: 0 <= i < |log| ==> SecretCurrent(log[i], "keycloak-" + tenant)
      ensures SecretCurrent(Stored(user, secret), "keycloak-" + tenant)
      ensures History(states, scripts, "keycloak-" + tenant)
      ensures states[0] == old(Stored(user, secret)) && states[|scripts|] == Stored(user, secret)
      ensures forall i :: 0 <= i < |scripts| ==> (results[i] <==> scripts[i].Succeeds(states[i]))
      ensures
        var n := |scripts|;
        n >= 2 && results[n - 2] && results[n - 1] && scripts[n - 2].Calm() && scripts[n - 1].Calm()
        && scripts[n - 2].expected == scripts[n - 1].expected ==>
          && user.Some? && user.value.displayname == scripts[n - 1].expected
          && secret == Some(Secret("keycloak-" + tenant, user.value.password))
    {
      results, states := [], [Stored(user, secret)];
      for i := 0 to |scripts|
        invariant Valid() && |results| == i && old(log) <= log
        invariant |states| == i + 1 && states[0] == old(Stored(user, secret)) && states[i] == Stored(user, secret)
        invariant History(states, scripts[..i], "keycloak-" + tenant)
        invariant forall k :: 0 <= k < i ==> (results[k] <==> scripts[k].Succeeds(states[k]))
        invariant i >= 1 && results[i - 1] && scripts[i - 1].Calm() ==> user.Some? && secret.Some?
        invariant i >= 2 && results[i - 2] && results[i - 1] && scripts[i - 2].Calm() && scripts[i - 1].Calm()
          ==> user.value.displayname == scripts[i - 1].expected
      {
        var ok := HandleNextcloudSubscription(scripts[i]);
        results, states := results + [ok], states + [Stored(user, secret)];
      }
      assert scripts[..|scripts|] == scripts;
    }
  }

  /** The states between successive attempts. */
  ghost predicate History(states: seq<Stored>, scripts: seq<Script>, username: string) {
    && |states| == |scripts| + 1 && SecretCurrent(states[0], username)
    && forall i :: 0 <= i < |scripts| ==> states[i + 1] == AfterAttempt(states[i], scripts[i], username)
  }

  lemma {:induction false} HistoryCurrent(states: seq<Stored>, scripts: seq<Script>, username: string, i: nat)
    requires History(states, scripts, username) && i <= |scripts|
    ensures SecretCurrent(states[i], username)
  {
    if i > 0 {
      HistoryCurrent(states, scripts, username, i - 1);
      assert states[i - 1 + 1] == AfterAttempt(states[i - 1], scripts[i - 1], username);
      AttemptPassword(states[i - 1], scripts[i - 1], username);
    }
  }

  /** Over any run, the password is the token of the last attempt that wrote one. */
  lemma {:induction false} LastTokenIsPassword(states: seq<Stored>, scripts: seq<Script>, username: string,
                                               i: nat, n: nat)
    requires History(states, scripts, username) && i < n <= |scripts|
    requires scripts[i].SetsPassword(states[i])
    requires forall k :: i < k < n ==> !scripts[k].SetsPassword(states[k])
    ensures states[n].user.Some? && states[n].user.value.password == scripts[i].token.value
  {
    HistoryCurrent(states, scripts, username, n - 1);
    assert states[n - 1 + 1] == AfterAttempt(states[n - 1], scripts[n - 1], username);
    AttemptPassword(states[n - 1], scripts[n - 1], username);
    if i < n - 1 {
      LastTokenIsPassword(states, scripts, username, i, n - 1);
    }
  }
}
