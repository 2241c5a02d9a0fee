/** The time-limited cache of granted watch permissions in qlkube
    (qlkube/src/decorateSubscription.js). `checkPermission` is split at its `await`: `Begin` is the
    synchronous part, `Finish` the part that runs when the upstream access review is answered. */
module PermissionCache {
  import opened Common

  /** Ten minutes, in milliseconds. */
  const TEN_MINUTES := 10 * 60 * 1000

  datatype Request = Request(token: string, group: string, resource: string, namespace: string, name: string) {
    function Key(): string {
      token + "_" + group + "_" + resource + "_" + namespace + "_" + name
    }

    predicate Complete() {
      token != "" && resource != "" && namespace != ""
    }

    /** No underscore in the parts after the token; the token is arbitrary. */
    predicate Plain() {
      '_' !in group && '_' !in resource && '_' !in namespace && '_' !in name
    }
  }

  /** The answer to an upstream access review. */
  datatype Review = Allowed | Denied | Broken

  /** What the caller observes: the outcome, or that an upstream check was sent. */
  datatype Answer = Granted | Forbidden | Error | Checking | Nothing

  datatype Event =
    | Begin(now: nat, req: Request)
    | Finish(now: nat, id: nat, review: Review)
    | Clear(now: nat)

  /** The cache, the checks that await their review, and the number of checks sent so far. */
  datatype State = State(cache: map<string, nat>, pending: map<nat, Request>, next: nat)

  const INITIAL := State(map[], map[], 0)

  /** A cached timestamp counts when it is truthy and at most ten minutes old. */
  predicate Live(cache: map<string, nat>, key: string, now: nat) {
    key in cache && cache[key] != 0 && now - cache[key] <= TEN_MINUTES
  }

  function Purged(cache: map<string, nat>, now: nat): map<string, nat> {
    map key | key in cache && now - cache[key] <= TEN_MINUTES :: cache[key]
  }

  function Step(s: State, e: Event): (State, Answer) {
    match e
    case Begin(now, req) =>
      if !req.Complete() then (s, Error)
      else if Live(s.cache, req.Key(), now) then (s, Granted)
      else
        var cache := if req.Key() in s.cache && s.cache[req.Key()] != 0 then s.cache - {req.Key()} else s.cache;
        (State(cache, s.pending[s.next := req], s.next + 1), Checking)
    case Finish(now, id, review) =>
      if id !in s.pending then (s, Nothing)
      else
        var rest := s.(pending := s.pending - {id});
        (match review
         case Allowed => (rest.(cache := s.cache[s.pending[id].Key() := now]), Granted)
         case Denied => (rest, Forbidden)
         case Broken => (rest, Error))
    case Clear(now) => (s.(cache := Purged(s.cache, now)), Nothing)
  }

  /** The module-level object `cacheSubscriptions` and the checks in flight. */
  class SubscriptionCache {
    var cache: map<string, nat>
    var pending: map<nat, Request>
    var next: nat

    function St(): State
      reads this
    {
      State(cache, pending, next)
    }

    constructor ()
      ensures St() == INITIAL
    {
      cache, pending, next := map[], map[], 0;
    }

    /** checkPermission up to the `await`. */
    method CheckPermission(now: nat, req: Request) returns (answer: Answer)
      modifies this
      ensures (St(), answer) == Step(old(St()), Begin(now, req))
    {
      if req.token == "" || req.resource == "" || req.namespace == "" {
        return Error;
      }
      var key := req.Key();
      if key in cache && cache[key] != 0 {
        if now - cache[key] > TEN_MINUTES {
          cache := cache - {key};
        } else {
          return Granted;
        }
      }
      pending := pending[next := req];
      next := next + 1;
      answer := Checking;
    }

    /** checkPermission after the `await`. */
    method Reviewed(now: nat, id: nat, review: Review) returns (answer: Answer)
      modifies this
      ensures (St(), answer) == Step(old(St()), Finish(now, id, review))
    {
      if id !in pending {
        return Nothing;
      }
      var req := pending[id];
      pending := pending - {id};
      match review
      case Broken => answer := Error;
      case Denied => answer := Forbidden;
      case Allowed =>
        cache := cache[req.Key() := now];
        answer := Granted;
    }

    /** clearCache: visit the keys one by one and delete the expired ones. */
    method ClearCache(now: nat)
      modifies this
      ensures St() == Step(old(St()), Clear(now)).0
    {
      var todo := cache.Keys;
      ghost var before := cache;
      while todo != {}
        invariant todo <= before.Keys && cache.Keys <= before.Keys
        invariant pending == old(pending) && next == old(next)
        invariant forall key :: key in before ==>
          (key in cache <==> key in todo || now - before[key] <= TEN_MINUTES)
        invariant forall key :: key in cache ==> cache[key] == before[key]
        decreases todo
      {
        var key :| key in todo;
        todo := todo - {key};
        if now - cache[key] > TEN_MINUTES {
          cache := cache - {key};
        }
      }
      assert cache == Purged(before, now);
    }
  }

  // ----- Purging is invisible -----

  /** The answers of a run, in order; a purge answers nothing. */
  function Trace(s: State, events: seq<Event>): seq<Answer>
    decreases |events|
  {
    if |events| == 0 then []
    else
      var (s', answer) := Step(s, events[0]);
      (if events[0].Clear? then [] else [answer]) + Trace(s', events[1..])
  }

  function WithoutClears(events: seq<Event>): seq<Event> {
    if |events| == 0 then []
    else (if events[0].Clear? then [] else [events[0]]) + WithoutClears(events[1..])
  }

  ghost predicate TimesFrom(events: seq<Event>, now: nat) {
    |events| == 0 || (now <= events[0].now && TimesFrom(events[1..], events[0].now))
  }

  /** Two states that differ at most in entries already expired at `now`. */
  ghost predicate Similar(s: State, t: State, now: nat) {
    && s.pending == t.pending && s.next == t.next
    && forall key :: (Live(s.cache, key, now) <==> Live(t.cache, key, now))
                     && (Live(s.cache, key, now) ==> s.cache[key] == t.cache[key])
  }

  /** Expired entries stay expired: similarity survives the passing of time. */
  lemma SimilarLater(s: State, t: State, now: nat, later: nat)
    requires Similar(s, t, now) && now <= later
    ensures Similar(s, t, later)
  {
  }

  lemma SimilarStep(s: State, t: State, e: Event)
    requires Similar(s, t, e.now) && !e.Clear?
    ensures Step(s, e).1 == Step(t, e).1
    ensures Similar(Step(s, e).0, Step(t, e).0, e.now)
  {
  }

  lemma ClearSimilar(s: State, t: State, now: nat)
    requires Similar(s, t, now)
    ensures Similar(Step(s, Clear(now)).0, t, now)
  {
  }

  lemma {:induction false} SimilarTraces(s: State, t: State, events: seq<Event>, now: nat)
    requires Similar(s, t, now) && TimesFrom(events, now)
    ensures Trace(s, events) == Trace(t, WithoutClears(events))
    decreases |events|
  {
    if |events| > 0 {
      var e, rest := events[0], events[1..];
      SimilarLater(s, t, now, e.now);
      if e.Clear? {
        ClearSimilar(s, t, e.now);
        SimilarTraces(Step(s, e).0, t, rest, e.now);
        assert WithoutClears(events) == WithoutClears(rest);
      } else {
        SimilarStep(s, t, e);
        SimilarTraces(Step(s, e).0, Step(t, e).0, rest, e.now);
        assert WithoutClears(events)[0] == e && WithoutClears(events)[1..] == WithoutClears(rest);
      }
    }
  }

  /** For a clock that never goes back, a run with purges inserted anywhere gives the same answers
      and sends the same upstream checks as the run without them. */
  lemma PurgeInvisible(s: State, events: seq<Event>)
    requires TimesFrom(events, 0)
    ensures Trace(s, events) == Trace(s, WithoutClears(events))
  {
    SimilarTraces(s, s, events, 0);
  }

  /** With a clock that goes back, a purge can be seen. */
  lemma PurgeVisibleWhenTimeGoesBack()
    ensures
      var req := Request("t", "", "r", "n", "");
      var s := State(map[req.Key() := 1], map[], 0);
      var events := [Clear(1000000), Begin(2, req)];
      Trace(s, events) == [Checking] && Trace(s, WithoutClears(events)) == [Granted]
  {
    var req := Request("t", "", "r", "n", "");
    var s := State(map[req.Key() := 1], map[], 0);
    var events := [Clear(1000000), Begin(2, req)];
    var begin := [Begin(2, req)];
    assert events[1..] == begin && begin[1..] == [];
    assert WithoutClears(begin) == begin && WithoutClears(events) == begin;
    var s' := Step(s, events[0]).0;
    assert !Live(s'.cache, req.Key(), 2) && Live(s.cache, req.Key(), 2);
    assert Trace(s', begin) == [Checking] + Trace(Step(s', begin[0]).0, []);
    assert Trace(s, begin) == [Granted] + Trace(Step(s, begin[0]).0, []);
  }

  // ----- Which requests share their cache key -----

  /** The positions of the four separators of a key. */
  function Sep1(r: Request): nat { |r.token| }
  function Sep2(r: Request): nat { Sep1(r) + 1 + |r.group| }
  function Sep3(r: Request): nat { Sep2(r) + 1 + |r.resource| }
  function Sep4(r: Request): nat { Sep3(r) + 1 + |r.namespace| }

  lemma Layout(r: Request)
    ensures |r.Key()| == Sep4(r) + 1 + |r.name|
    ensures r.Key()[..Sep1(r)] == r.token && r.Key()[Sep1(r)] == '_'
    ensures r.Key()[Sep1(r) + 1..Sep2(r)] == r.group && r.Key()[Sep2(r)] == '_'
    ensures r.Key()[Sep2(r) + 1..Sep3(r)] == r.resource && r.Key()[Sep3(r)] == '_'
    ensures r.Key()[Sep3(r) + 1..Sep4(r)] == r.namespace && r.Key()[Sep4(r)] == '_'
    ensures r.Key()[Sep4(r) + 1..] == r.name
  {
  }

  /** Where the underscores of a key are: at a separator or inside a part. */
  lemma UnderscoreAt(r: Request, j: nat)
    requires j < |r.Key()| && r.Key()[j] == '_'
    ensures
      || j == Sep1(r) || j == Sep2(r) || j == Sep3(r) || j == Sep4(r)
      || (j < Sep1(r) && r.token[j] == '_')
      || (Sep1(r) < j < Sep2(r) && '_' in r.group)
      || (Sep2(r) < j < Sep3(r) && r.resource[j - Sep2(r) - 1] == '_')
      || (Sep3(r) < j < Sep4(r) && r.namespace[j - Sep3(r) - 1] == '_')
      || (Sep4(r) < j && '_' in r.name)
  {
    Layout(r);
    if Sep1(r) < j < Sep2(r) {
      assert r.group[j - Sep1(r) - 1] == '_';
    } else if Sep4(r) < j {
      assert r.name[j - Sep4(r) - 1] == '_';
    }
  }

  lemma SameSeparators(r: Request, q: Request)
    requires r.Key() == q.Key()
    requires Sep1(r) == Sep1(q) && Sep2(r) == Sep2(q) && Sep3(r) == Sep3(q) && Sep4(r) == Sep4(q)
    ensures r == q
  {
    Layout(r);
    Layout(q);
  }

  /** A key that no other request has: no underscore but the four separators. */
  lemma BareKeyUnique(r: Request, q: Request)
    requires '_' !in r.token && r.Plain() && r.Key() == q.Key()
    ensures r == q
  {
    Layout(q);
    UnderscoreAt(r, Sep1(q));
    UnderscoreAt(r, Sep2(q));
    UnderscoreAt(r, Sep3(q));
    UnderscoreAt(r, Sep4(q));
    SameSeparators(r, q);
  }

  // Moving one separator onto an underscore of a neighbouring part gives another request with the key.

  lemma ShiftToken(r: Request, i: nat) returns (q: Request, a: string, b: string)
    requires i < |r.token| && r.token[i] == '_'
    ensures r.token == a + "_" + b && |a| == i
    ensures q == r.(token := a, group := b + "_" + r.group) && q != r && q.Key() == r.Key()
  {
    a, b := r.token[..i], r.token[i + 1..];
    q := r.(token := a, group := b + "_" + r.group);
  }

  lemma ShiftGroup(r: Request, i: nat) returns (q: Request, a: string, b: string)
    requires i < |r.group| && r.group[i] == '_'
    ensures r.group == a + "_" + b && |a| == i
    ensures q == r.(token := r.token + "_" + a, group := b) && q != r && q.Key() == r.Key()
  {
    a, b := r.group[..i], r.group[i + 1..];
    q := r.(token := r.token + "_" + a, group := b);
  }

  lemma ShiftResource(r: Request, i: nat) returns (q: Request, a: string, b: string)
    requires i < |r.resource| && r.resource[i] == '_'
    ensures r.resource == a + "_" + b && |a| == i
    ensures q == r.(group := r.group + "_" + a, resource := b) && q != r && q.Key() == r.Key()
  {
    a, b := r.resource[..i], r.resource[i + 1..];
    q := r.(group := r.group + "_" + a, resource := b);
  }

  lemma ShiftResourceBack(r: Request, i: nat) returns (q: Request, a: string, b: string)
    requires i < |r.resource| && r.resource[i] == '_'
    ensures r.resource == a + "_" + b && |a| == i
    ensures q == r.(resource := a, namespace := b + "_" + r.namespace) && q != r && q.Key() == r.Key()
  {
    a, b := r.resource[..i], r.resource[i + 1..];
    q := r.(resource := a, namespace := b + "_" + r.namespace);
  }

  lemma ShiftNamespace(r: Request, i: nat) returns (q: Request, a: string, b: string)
    requires i < |r.namespace| && r.namespace[i] == '_'
    ensures r.namespace == a + "_" + b && |a| == i
    ensures q == r.(resource := r.resource + "_" + a, namespace := b) && q != r && q.Key() == r.Key()
  {
    a, b := r.namespace[..i], r.namespace[i + 1..];
    q := r.(resource := r.resource + "_" + a, namespace := b);
  }

  lemma ShiftNamespaceBack(r: Request, i: nat) returns (q: Request, a: string, b: string)
    requires i < |r.namespace| && r.namespace[i] == '_'
    ensures r.namespace == a + "_" + b && |a| == i
    ensures q == r.(namespace := a, name := b + "_" + r.name) && q != r && q.Key() == r.Key()
  {
    a, b := r.namespace[..i], r.namespace[i + 1..];
    q := r.(namespace := a, name := b + "_" + r.name);
  }

  lemma ShiftName(r: Request, i: nat) returns (q: Request, a: string, b: string)
    requires i < |r.name| && r.name[i] == '_'
    ensures r.name == a + "_" + b && |a| == i
    ensures q == r.(namespace := r.namespace + "_" + a, name := b) && q != r && q.Key() == r.Key()
  {
    a, b := r.name[..i], r.name[i + 1..];
    q := r.(namespace := r.namespace + "_" + a, name := b);
  }

  /** The requests whose key another complete request has too. An underscore counts unless it is the
      first character of the token, or all of the resource or of the namespace: moving a separator
      there would leave a mandatory part empty. */
  predicate Ambiguous(r: Request) {
    || (exists i :: 0 < i < |r.token| && r.token[i] == '_')
    || '_' in r.group || '_' in r.name
    || ('_' in r.resource && r.resource != "_")
    || ('_' in r.namespace && r.namespace != "_")
  }

  ghost predicate Shared(r: Request) {
    exists q: Request :: q != r && q.Complete() && q.Key() == r.Key()
  }

  /** Another request with the same key, by moving one separator onto an underscore. */
  lemma AmbiguousShares(r: Request) returns (q: Request)
    requires r.Complete() && Ambiguous(r)
    ensures q != r && q.Complete() && q.Key() == r.Key()
  {
    var a, b;
    if i :| 0 < i < |r.token| && r.token[i] == '_' {
      q, a, b := ShiftToken(r, i);
    } else if i :| 0 <= i < |r.group| && r.group[i] == '_' {
      q, a, b := ShiftGroup(r, i);
    } else if i :| 0 <= i < |r.name| && r.name[i] == '_' {
      q, a, b := ShiftName(r, i);
    } else if '_' in r.resource && r.resource != "_" {
      var i :| 0 <= i < |r.resource| && r.resource[i] == '_';
      q, a, b := ShiftResource(r, i);
      if b == "" {
        q, a, b := ShiftResourceBack(r, i);
      }
    } else {
      var i :| 0 <= i < |r.namespace| && r.namespace[i] == '_';
      q, a, b := ShiftNamespace(r, i);
      if b == "" {
        q, a, b := ShiftNamespaceBack(r, i);
      }
    }
  }

  /** Without such an underscore no other complete request has the key. */
  lemma UnambiguousUnique(r: Request, q: Request)
    requires r.Complete() && q.Complete() && !Ambiguous(r) && r.Key() == q.Key()
    ensures r == q
  {
    Layout(q);
    UnderscoreAt(r, Sep1(q));
    UnderscoreAt(r, Sep2(q));
    UnderscoreAt(r, Sep3(q));
    UnderscoreAt(r, Sep4(q));
    assert Sep4(q) <= Sep4(r);
    assert Sep3(q) <= Sep3(r);
    assert Sep2(q) <= Sep2(r);
    assert Sep1(q) == Sep1(r);
    SameSeparators(r, q);
  }

  /** Exactly which complete requests share their key with another complete request. */
  lemma SharedExact(r: Request)
    requires r.Complete()
    ensures Shared(r) <==> Ambiguous(r)
  {
    if Ambiguous(r) {
      var q := AmbiguousShares(r);
    } else if q: Request :| q != r && q.Complete() && q.Key() == r.Key() {
      UnambiguousUnique(r, q);
    }
  }

  /** Exactly which requests share their key with any other request at all, complete or not. */
  lemma KeyAmbiguity(r: Request)
    ensures (exists q: Request :: q != r && q.Key() == r.Key()) <==> '_' in r.token || !r.Plain()
  {
    if '_' in r.token || !r.Plain() {
      var q, a, b;
      if i :| 0 <= i < |r.token| && r.token[i] == '_' {
        q, a, b := ShiftToken(r, i);
      } else if i :| 0 <= i < |r.group| && r.group[i] == '_' {
        q, a, b := ShiftGroup(r, i);
      } else if i :| 0 <= i < |r.resource| && r.resource[i] == '_' {
        q, a, b := ShiftResource(r, i);
      } else if i :| 0 <= i < |r.namespace| && r.namespace[i] == '_' {
        q, a, b := ShiftNamespace(r, i);
      } else {
        var i :| 0 <= i < |r.name| && r.name[i] == '_';
        q, a, b := ShiftName(r, i);
      }
    } else if q: Request :| q != r && q.Key() == r.Key() {
      BareKeyUnique(r, q);
    }
  }

  // ----- Every grant is backed by a recent allow for the same request -----

  /** Where the last separator is, when what follows it has none. */
  lemma LastSeparator(a: string, b: string, c: string, d: string)
    requires '_' !in b && '_' !in d
    requires a + "_" + b == c + "_" + d
    ensures a == c && b == d
  {
    var s, t := a + "_" + b, c + "_" + d;
    assert s[|a|] == '_' && t[|c|] == '_';
    assert |a| == |c|;
    assert a == s[..|a|] && c == t[..|c|] && b == s[|a| + 1..] && d == t[|c| + 1..];
  }

  /** Among requests with no underscore after the token, the key determines the request, even when
      the tokens hold underscores. */
  lemma KeyInjective(r: Request, q: Request)
    requires r.Plain() && q.Plain() && r.Key() == q.Key()
    ensures r == q
  {
    var r1, q1 := r.token + "_" + r.group, q.token + "_" + q.group;
    var r2, q2 := r1 + "_" + r.resource, q1 + "_" + q.resource;
    var r3, q3 := r2 + "_" + r.namespace, q2 + "_" + q.namespace;
    LastSeparator(r3, r.name, q3, q.name);
    LastSeparator(r2, r.namespace, q2, q.namespace);
    LastSeparator(r1, r.resource, q1, q.resource);
    LastSeparator(r.token, r.group, q.token, q.group);
  }

  function After(events: seq<Event>): State {
    if |events| == 0 then INITIAL else Step(After(events[..|events| - 1]), events[|events| - 1]).0
  }

  function AnswerAt(events: seq<Event>, i: nat): Answer
    requires i < |events|
  {
    Step(After(events[..i]), events[i]).1
  }

  /** Event `j` of the run records an upstream allow for `req`. */
  ghost predicate AllowAt(events: seq<Event>, j: nat, req: Request) {
    && j < |events| && events[j].Finish? && events[j].review.Allowed?
    && events[j].id in After(events[..j]).pending
    && After(events[..j]).pending[events[j].id] == req
  }

  /** The request that event `i` answers: the one it carries, or the one whose review it brings. */
  function Subject(events: seq<Event>, i: nat): Option<Request>
    requires i < |events|
  {
    match events[i]
    case Begin(_, req) => Some(req)
    case Finish(_, id, _) =>
      var s := After(events[..i]);
      if id in s.pending then Some(s.pending[id]) else None
    case Clear(_) => None
  }

  ghost predicate AllPlain(events: seq<Event>) {
    forall i :: 0 <= i < |events| && events[i].Begin? ==> events[i].req.Plain()
  }

  lemma AllowEarlier(events: seq<Event>, n: nat, j: nat, req: Request)
    requires n <= |events| && AllowAt(events[..n], j, req)
    ensures AllowAt(events, j, req)
  {
    assert events[..n][..j] == events[..j];
  }

  /** Only complete requests are ever awaited, and only plain ones if only plain ones are made. */
  lemma {:induction false} PendingRequests(events: seq<Event>)
    ensures forall id :: id in After(events).pending ==> After(events).pending[id].Complete()
    ensures AllPlain(events) ==> forall id :: id in After(events).pending ==> After(events).pending[id].Plain()
  {
    if |events| > 0 {
      PendingRequests(events[..|events| - 1]);
      assert AllPlain(events) && events[|events| - 1].Begin? ==> events[|events| - 1].req.Plain();
    }
  }

  /** Every timestamp in the cache is the time of an allow recorded under that key. */
  lemma {:induction false} CacheBacked(events: seq<Event>, key: string) returns (j: nat, req: Request)
    requires key in After(events).cache
    ensures AllowAt(events, j, req) && req.Key() == key && req.Complete()
    ensures AllPlain(events) ==> req.Plain()
    ensures events[j].now == After(events).cache[key]
  {
    var n := |events| - 1;
    var before, e := After(events[..n]), events[n];
    if e.Finish? && e.review.Allowed? && e.id in before.pending && before.pending[e.id].Key() == key {
      PendingRequests(events[..n]);
      j, req := n, before.pending[e.id];
    } else {
      assert key in before.cache && After(events).cache[key] == before.cache[key];
      j, req := CacheBacked(events[..n], key);
      AllowEarlier(events, n, j, req);
    }
  }

  // ----- Every answer, told from the events alone -----

  /** How many upstream checks the first `n` events send. */
  ghost function Checks(events: seq<Event>, n: nat): nat
    requires n <= |events|
  {
    if n == 0 then 0 else Checks(events, n - 1) + if AnswerAt(events, n - 1) == Checking then 1 else 0
  }

  /** Event `j` sends the upstream check number `id`, for the request. */
  ghost predicate SentAt(events: seq<Event>, j: nat, id: nat, req: Request) {
    && j < |events| && events[j].Begin? && events[j].req == req
    && AnswerAt(events, j) == Checking && Checks(events, j) == id
  }

  /** Check number `id` was sent for the request before event `n`, and no review of it came since. */
  ghost predicate Awaited(events: seq<Event>, n: nat, id: nat, req: Request)
    requires n <= |events|
  {
    exists j: nat :: j < n && SentAt(events, j, id, req) &&
      forall k :: j < k < n ==> !(events[k].Finish? && events[k].id == id)
  }

  predicate SameText(r: Request, q: Request) {
    r.token + "_" + r.group + "_" + r.resource + "_" + r.namespace + "_" + r.name ==
    q.token + "_" + q.group + "_" + q.resource + "_" + q.namespace + "_" + q.name
  }

  /** Event `k` brings an allow for an awaited request with the same key text. */
  ghost predicate AllowsAt(events: seq<Event>, k: nat, req: Request) {
    && k < |events| && events[k].Finish? && events[k].review.Allowed?
    && exists q :: Awaited(events, k, events[k].id, q) && SameText(q, req)
  }

  /** Event `k` finds the stamp more than ten minutes old: a purge, or a request with the same key. */
  ghost predicate ExpiresAt(events: seq<Event>, k: nat, req: Request, stamp: nat) {
    && k < |events| && events[k].now > stamp + 600000
    && (events[k].Clear? ||
        (events[k].Begin? && SameText(events[k].req, req) &&
         events[k].req.token != "" && events[k].req.resource != "" && events[k].req.namespace != ""))
  }

  /** The allow of event `j` for the key is neither replaced nor removed before event `n`. */
  ghost predicate Stands(events: seq<Event>, j: nat, n: nat, req: Request) {
    && j < n <= |events| && AllowsAt(events, j, req) && events[j].now != 0
    && forall k :: j < k < n ==> !AllowsAt(events, k, req) && !ExpiresAt(events, k, req, events[j].now)
  }

  /** The state after a run, in these terms. */
  ghost predicate Told(events: seq<Event>, n: nat)
    requires n <= |events|
  {
    var s := After(events[..n]);
    && s.next == Checks(events, n)
    && (forall id :: id in s.pending ==> Awaited(events, n, id, s.pending[id]))
    && (forall id, req :: Awaited(events, n, id, req) ==> id in s.pending && s.pending[id] == req)
  }

  /** What is cached under the key of a request, in these terms. */
  ghost predicate CacheTold(events: seq<Event>, n: nat, req: Request)
    requires n <= |events|
  {
    var cache := After(events[..n]).cache;
    && (req.Key() in cache && cache[req.Key()] != 0 ==>
          exists j: nat :: Stands(events, j, n, req) && events[j].now == cache[req.Key()])
    && (forall j: nat :: Stands(events, j, n, req) ==> req.Key() in cache && cache[req.Key()] == events[j].now)
  }

  lemma AfterOne(events: seq<Event>, n: nat)
    requires n < |events|
    ensures After(events[..n + 1]) == Step(After(events[..n]), events[n]).0
  {
    assert events[..n + 1][..n] == events[..n];
  }

  lemma {:induction false} ChecksMonotone(events: seq<Event>, i: nat, j: nat)
    requires i < j <= |events|
    ensures Checks(events, i) <= Checks(events, j)
    ensures AnswerAt(events, i) == Checking ==> Checks(events, i) < Checks(events, j)
  {
    if i < j - 1 {
      ChecksMonotone(events, i, j - 1);
    }
  }

  /** A check that is still awaited one event later was awaited before, or has just been sent. */
  lemma AwaitedBack(events: seq<Event>, n: nat, id: nat, req: Request)
    requires n < |events|
    ensures Awaited(events, n + 1, id, req) <==>
      || SentAt(events, n, id, req)
      || (Awaited(events, n, id, req) && !(events[n].Finish? && events[n].id == id))
  {
    if SentAt(events, n, id, req) {
      assert Awaited(events, n + 1, id, req);
    }
  }

  /** What one event does to the checks in flight. */
  lemma PendingStep(events: seq<Event>, n: nat)
    requires n < |events|
    ensures
      var s, t, e := After(events[..n]), After(events[..n + 1]), events[n];
      if AnswerAt(events, n) == Checking
      then e.Begin? && t.next == s.next + 1 && t.pending == s.pending[s.next := e.req]
      else t.next == s.next && t.pending == if e.Finish? then s.pending - {e.id} else s.pending
  {
    AfterOne(events, n);
  }

  lemma {:induction false} PendingTold(events: seq<Event>, n: nat)
    requires n <= |events|
    ensures Told(events, n)
  {
    if n > 0 {
      PendingTold(events, n - 1);
      PendingStep(events, n - 1);
      AwaitedIsPending(events, n);
      PendingIsAwaited(events, n);
    }
  }

  lemma AwaitedIsPending(events: seq<Event>, n: nat)
    requires 0 < n <= |events| && Told(events, n - 1)
    ensures
      var pending := After(events[..n]).pending;
      forall id, req :: Awaited(events, n, id, req) ==> id in pending && pending[id] == req
  {
    var pending := After(events[..n]).pending;
    forall id, req | Awaited(events, n, id, req) ensures id in pending && pending[id] == req {
      AwaitedOneIsPending(events, n - 1, id, req);
    }
  }

  lemma AwaitedOneIsPending(events: seq<Event>, n: nat, id: nat, req: Request)
    requires n < |events| && Told(events, n) && Awaited(events, n + 1, id, req)
    ensures id in After(events[..n + 1]).pending && After(events[..n + 1]).pending[id] == req
  {
    PendingStep(events, n);
    AwaitedBack(events, n, id, req);
    if !SentAt(events, n, id, req) {
      AwaitedOlder(events, n, id, req);
    }
  }

  lemma PendingIsAwaited(events: seq<Event>, n: nat)
    requires 0 < n <= |events| && Told(events, n - 1)
    ensures
      var pending := After(events[..n]).pending;
      forall id :: id in pending ==> Awaited(events, n, id, pending[id])
  {
    PendingStep(events, n - 1);
    var pending := After(events[..n]).pending;
    forall id | id in pending ensures Awaited(events, n, id, pending[id]) {
      AwaitedBack(events, n - 1, id, pending[id]);
    }
  }

  lemma AwaitedOlder(events: seq<Event>, n: nat, id: nat, req: Request)
    requires n <= |events| && Awaited(events, n, id, req)
    ensures id < Checks(events, n)
  {
    var j: nat :| j < n && SentAt(events, j, id, req);
    ChecksMonotone(events, j, n);
  }

  lemma SameTextKey(r: Request, q: Request)
    ensures SameText(r, q) <==> r.Key() == q.Key()
  {
  }

  /** What the state says of an allow. */
  lemma AllowsTold(events: seq<Event>, k: nat, req: Request)
    requires k < |events|
    ensures AllowsAt(events, k, req) <==>
      && events[k].Finish? && events[k].review.Allowed?
      && events[k].id in After(events[..k]).pending
      && After(events[..k]).pending[events[k].id].Key() == req.Key()
  {
    PendingTold(events, k);
    if AllowsAt(events, k, req) {
      var q :| Awaited(events, k, events[k].id, q) && SameText(q, req);
      SameTextKey(q, req);
    } else if events[k].Finish? && events[k].id in After(events[..k]).pending {
      var q := After(events[..k]).pending[events[k].id];
      assert Awaited(events, k, events[k].id, q);
      SameTextKey(q, req);
    }
  }

  /** An allow stands one event later exactly when it has just come, or stood and was not ended. */
  lemma StandsBack(events: seq<Event>, j: nat, n: nat, req: Request)
    requires n < |events|
    ensures Stands(events, j, n + 1, req) <==>
      || (j == n && AllowsAt(events, n, req) && events[n].now != 0)
      || (Stands(events, j, n, req) && !AllowsAt(events, n, req) && !ExpiresAt(events, n, req, events[j].now))
  {
  }

  /** What one event does to the entry of a key. */
  lemma EntryStep(events: seq<Event>, n: nat, req: Request)
    requires n < |events|
    ensures
      var key, cache, cache' := req.Key(), After(events[..n]).cache, After(events[..n + 1]).cache;
      if AllowsAt(events, n, req) then key in cache' && cache'[key] == events[n].now
      else if key in cache && cache[key] != 0 && ExpiresAt(events, n, req, cache[key]) then key !in cache'
      else if key in cache && cache[key] != 0 then key in cache' && cache'[key] == cache[key]
      else key in cache' ==> cache'[key] == 0
  {
    AfterOne(events, n);
    AllowsTold(events, n, req);
    if events[n].Begin? {
      SameTextKey(events[n].req, req);
    }
  }

  lemma {:induction false} CacheIsTold(events: seq<Event>, n: nat, req: Request)
    requires n <= |events|
    ensures CacheTold(events, n, req)
  {
    if n > 0 {
      CacheIsTold(events, n - 1, req);
      CacheToldStep(events, n - 1, req);
    }
  }

  lemma CacheToldStep(events: seq<Event>, n: nat, req: Request)
    requires n < |events| && CacheTold(events, n, req)
    ensures CacheTold(events, n + 1, req)
  {
    EntryStep(events, n, req);
    var key, cache, cache' := req.Key(), After(events[..n]).cache, After(events[..n + 1]).cache;
    if AllowsAt(events, n, req) {
      StandsBack(events, n, n, req);
    } else if key in cache && cache[key] != 0 {
      var j: nat :| Stands(events, j, n, req) && events[j].now == cache[key];
      StandsBack(events, j, n, req);
    }
    forall j: nat | Stands(events, j, n + 1, req) ensures key in cache' && cache'[key] == events[j].now {
      StandsBack(events, j, n, req);
    }
  }

  /** The answer to a request, in every run: an error when a mandatory part is empty, a grant exactly
      when an allow under its key still stands and is at most ten minutes old, else a new check. */
  lemma RequestAnswered(events: seq<Event>, i: nat)
    requires i < |events| && events[i].Begin?
    ensures
      var req, answer := events[i].req, AnswerAt(events, i);
      if req.token == "" || req.resource == "" || req.namespace == "" then answer == Error
      else if exists j: nat :: Stands(events, j, i, req) && events[i].now <= events[j].now + 600000
      then answer == Granted
      else answer == Checking
  {
    CacheIsTold(events, i, events[i].req);
  }

  /** The answer to a review, in every run: an allow grants, a denial forbids, a broken review is an
      error; a review of a check that is not awaited is answered by nothing. */
  lemma ReviewAnswered(events: seq<Event>, i: nat)
    requires i < |events| && events[i].Finish?
    ensures
      var answer, review := AnswerAt(events, i), events[i].review;
      if exists req :: Awaited(events, i, events[i].id, req) then
        && (answer == Granted <==> review == Allowed)
        && (answer == Forbidden <==> review == Denied)
        && (answer == Error <==> review == Broken)
      else answer == Nothing
  {
    PendingTold(events, i);
    if events[i].id in After(events[..i]).pending {
      assert Awaited(events, i, events[i].id, After(events[..i]).pending[events[i].id]);
    }
  }

  /** The grant of event `i` is backed by an allow for its own request, at most ten minutes old. */
  ghost predicate Backed(events: seq<Event>, i: nat, req: Request)
    requires i < |events|
  {
    exists j :: 0 <= j <= i && AllowAt(events, j, req) && events[i].now - events[j].now <= TEN_MINUTES
  }

  /** Whatever the interleaving of pending checks and purges, every grant is backed by an allow
      recorded at most ten minutes earlier for the same token, group, resource, namespace and name. */
  lemma GrantsAreBacked(events: seq<Event>, i: nat)
    requires AllPlain(events) && i < |events| && AnswerAt(events, i) == Granted
    ensures Subject(events, i).Some? && Backed(events, i, Subject(events, i).value)
  {
    if events[i].Finish? {
      assert AllowAt(events, i, Subject(events, i).value);
    } else {
      var req := events[i].req;
      var j, r := CacheBacked(events[..i], req.Key());
      KeyInjective(r, req);
      AllowEarlier(events, i, j, r);
    }
  }

  /** Whatever else is asked, a grant to an unambiguous request is backed by its own recent allow. */
  lemma UnambiguousBacked(events: seq<Event>, i: nat)
    requires i < |events| && AnswerAt(events, i) == Granted
    requires Subject(events, i).Some? && !Ambiguous(Subject(events, i).value)
    ensures Backed(events, i, Subject(events, i).value)
  {
    if events[i].Finish? {
      assert AllowAt(events, i, Subject(events, i).value);
    } else {
      var req := events[i].req;
      var j, r := CacheBacked(events[..i], req.Key());
      UnambiguousUnique(req, r);
      AllowEarlier(events, i, j, r);
    }
  }

  /** Some run grants the request although nothing ever allowed it. */
  ghost predicate Exposed(req: Request) {
    exists events: seq<Event>, i: nat :: StolenGrant(events, i, req)
  }

  ghost predicate StolenGrant(events: seq<Event>, i: nat, req: Request) {
    && i < |events| && AnswerAt(events, i) == Granted && Subject(events, i) == Some(req)
    && forall j: nat :: !AllowAt(events, j, req)
  }

  /** The run that exposes a request: another one with its key is allowed first. */
  lemma SharedGrant(asked: Request, other: Request)
    requires asked.Complete() && other.Complete() && asked != other && asked.Key() == other.Key()
    ensures StolenGrant([Begin(1, asked), Finish(2, 0, Allowed), Begin(3, other)], 2, other)
  {
    var events := [Begin(1, asked), Finish(2, 0, Allowed), Begin(3, other)];
    assert events[..0] == [];
    assert events[..1][..0] == [] && events[..1][0] == events[0];
    assert After(events[..1]) == Step(INITIAL, events[0]).0 == State(map[], map[0 := asked], 1);
    assert events[..2][..1] == events[..1] && events[..2][1] == events[1];
    assert After(events[..2]) == Step(After(events[..1]), events[1]).0;
    assert After(events[..2]).cache == map[asked.Key() := 2];
    forall j: nat ensures !AllowAt(events, j, other) {
      if j == 1 {
        assert After(events[..j]).pending[events[j].id] == asked;
      }
    }
  }

  /** The complete requests that can be granted with no allow of their own are exactly the ambiguous ones. */
  lemma ExposedExact(req: Request)
    requires req.Complete()
    ensures Exposed(req) <==> Ambiguous(req)
  {
    if Ambiguous(req) {
      var q := AmbiguousShares(req);
      SharedGrant(q, req);
    } else if Exposed(req) {
      var events: seq<Event>, i: nat :| StolenGrant(events, i, req);
      UnambiguousBacked(events, i);
      assert false;
    }
  }

  /** When the upstream reviews follow a fixed policy, so do the cached answers. */
  lemma AgreesWithPolicy(events: seq<Event>, i: nat, policy: Request -> bool)
    requires AllPlain(events) && i < |events| && Subject(events, i).Some?
    requires forall j :: 0 <= j < |events| && events[j].Finish? && Subject(events, j).Some? ==>
      (events[j].review.Allowed? ==> policy(Subject(events, j).value)) &&
      (events[j].review.Denied? ==> !policy(Subject(events, j).value))
    ensures AnswerAt(events, i) == Granted ==> policy(Subject(events, i).value)
    ensures AnswerAt(events, i) == Forbidden ==> !policy(Subject(events, i).value)
  {
    if AnswerAt(events, i) == Granted {
      GrantsAreBacked(events, i);
      var j :| 0 <= j <= i && AllowAt(events, j, Subject(events, i).value);
      assert Subject(events, j) == Subject(events, i);
    }
  }

  /** An underscore in a name, and one in a token, each expose a request; a resource "_" does not. */
  lemma AmbiguityExamples()
    ensures Ambiguous(Request("t", "", "r", "n", "a_b")) && Ambiguous(Request("t_g", "", "r", "n", ""))
    ensures !Ambiguous(Request("_t", "g", "_", "_", ""))
  {
    var name, token := "a_b", "t_g";
    assert name[1] == '_' && token[1] == '_';
  }
}
