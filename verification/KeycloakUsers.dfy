/** The users of the Keycloak realm and their lookup by name
    (operators/pkg/tenant-controller/keycloak_utils.go). */
module KeycloakUsers {
  import opened Common
  import opened Text

  datatype KcUser = KcUser(id: string, username: string, firstName: string, lastName: string, email: string)

  /** What getUserInfo answers. */
  datatype Info = Absent | Known(id: string, email: string) | Failed

  ghost predicate Keyed(users: map<string, KcUser>) {
    forall id :: id in users ==> users[id].id == id
  }

  /** Keycloak keeps user names unique. */
  ghost predicate UniqueNames(users: map<string, KcUser>) {
    && Keyed(users)
    && (forall a, b :: a in users && b in users && users[a].username == users[b].username ==> a == b)
  }

  /** A user of exactly this name exists. */
  ghost predicate Exact(users: map<string, KcUser>, username: string) {
    exists id :: id in users && users[id].username == username
  }

  /** The users a search for the name returns: Keycloak matches any part of the user name. */
  ghost function Hits(users: map<string, KcUser>, username: string): set<string> {
    set id | id in users && Contains(users[id].username, username)
  }

  /** No user has the name, and exactly one other user's name contains it. */
  ghost predicate Mistaken(users: map<string, KcUser>, username: string) {
    !Exact(users, username) && |Hits(users, username)| == 1
  }

  /** The account that a lookup of the name yields: the one of that name, else a single other hit. */
  ghost function Looked(users: map<string, KcUser>, username: string): (r: Option<string>)
    ensures r.Some? ==> r.value in users && r.value in Hits(users, username)
    ensures r.Some? <==> Exact(users, username) || |Hits(users, username)| == 1
    ensures Exact(users, username) ==> users[r.value].username == username
  {
    if Exact(users, username) then
      var id :| id in users && users[id].username == username;
      SelfContained(username);
      Some(id)
    else if |Hits(users, username)| == 1 then
      OneElement(Hits(users, username));
      var id :| id in Hits(users, username);
      Some(id)
    else None
  }

  lemma OneElement(ids: set<string>)
    requires |ids| == 1
    ensures exists id :: ids == {id}
  {
    assert ids != {};
    var id :| id in ids;
    assert |ids - {id}| == 0;
    assert ids == {id};
  }

  lemma SelfContained(s: string)
    ensures Contains(s, s)
  {
    assert s[0..] == s;
  }

  lemma OneExact(users: map<string, KcUser>, found: seq<KcUser>, i: nat, username: string)
    requires UniqueNames(users) && i < |found| && found[i].username == username
    requires forall k :: 0 <= k < |found| ==> found[k].id in users && users[found[k].id] == found[k]
    requires forall j, k :: 0 <= j < k < |found| ==> found[j].id != found[k].id
    ensures forall k :: 0 <= k < i ==> found[k].username != username
  {
  }

  /** The list holds the users with the given ids, each once. */
  ghost predicate Lists(users: seq<KcUser>, stored: map<string, KcUser>, ids: set<string>) {
    && (forall i, j :: 0 <= i < j < |users| ==> users[i].id != users[j].id)
    && (forall i :: 0 <= i < |users| ==> users[i].id in ids && users[i].id in stored && stored[users[i].id] == users[i])
    && (forall id :: id in ids ==> id in stored && stored[id] in users)
    && |users| == |ids|
  }

  lemma ListsOneMore(users: seq<KcUser>, stored: map<string, KcUser>, ids: set<string>, id: string)
    requires Keyed(stored) && Lists(users, stored, ids) && id in stored && id !in ids
    ensures Lists(users + [stored[id]], stored, ids + {id})
  {
  }

  /** GetUsers: the matching users, in some order. */
  method Search(stored: map<string, KcUser>, username: string) returns (users: seq<KcUser>)
    requires UniqueNames(stored)
    ensures Lists(users, stored, Hits(stored, username))
  {
    var hits := set id | id in stored && Contains(stored[id].username, username);
    users := ListUsers(stored, hits);
  }

  method ListUsers(stored: map<string, KcUser>, ids: set<string>) returns (users: seq<KcUser>)
    requires Keyed(stored) && ids <= stored.Keys
    ensures Lists(users, stored, ids)
    decreases ids
  {
    if ids == {} {
      return [];
    }
    var id :| id in ids;
    var rest := ListUsers(stored, ids - {id});
    ListsOneMore(rest, stored, ids - {id}, id);
    assert ids == (ids - {id}) + {id};
    users := rest + [stored[id]];
  }

  /** getUserInfo: no hit, a single hit taken as it is, or the one exact match among several. */
  method GetUserInfo(stored: map<string, KcUser>, username: string, search: Outcome) returns (info: Info)
    requires UniqueNames(stored)
    ensures !search.Done? ==> info == Failed
    ensures search.Done? && Exact(stored, username) ==>
      info.Known? && info.id in stored && stored[info.id].username == username
    ensures search.Done? && !Exact(stored, username) ==>
      var n := |Hits(stored, username)|;
      && (n == 0 ==> info == Absent)
      && (n == 1 ==> info.Known? && Hits(stored, username) == {info.id})
      && (n >= 2 ==> info == Failed)
    ensures info.Known? ==> info.id in Hits(stored, username) && info.email == stored[info.id].email
    ensures search.Done? ==> (info.Known? <==> Looked(stored, username).Some?)
    ensures info.Known? ==> Looked(stored, username) == Some(info.id)
  {
    if !search.Done? {
      return Failed;
    }
    var usersFound := Search(stored, username);
    ghost var hits := Hits(stored, username);
    SelfContained(username);
    assert forall id :: id in stored && stored[id].username == username ==> id in hits;
    if |usersFound| == 0 {
      return Absent;
    }
    if |usersFound| == 1 {
      SingleHit(usersFound, stored, hits);
      return Known(usersFound[0].id, usersFound[0].email);
    }
    var exactMatches := 0;
    var exact := usersFound[0];
    for i := 0 to |usersFound|
      invariant 0 <= exactMatches <= 1
      invariant exactMatches == 0 <==> forall k :: 0 <= k < i ==> usersFound[k].username != username
      invariant exact in usersFound && (exactMatches == 1 ==> exact.username == username)
    {
      if usersFound[i].username == username {
        assert exactMatches == 0 by {
          OneExact(stored, usersFound, i, username);
        }
        exactMatches := exactMatches + 1;
        exact := usersFound[i];
      }
    }
    if exactMatches == 1 {
      return Known(exact.id, exact.email);
    }
    info := Failed;
  }

  lemma SingleHit(users: seq<KcUser>, stored: map<string, KcUser>, ids: set<string>)
    requires UniqueNames(stored) && Lists(users, stored, ids) && |users| == 1
    ensures ids == {users[0].id}
  {
  }
}
