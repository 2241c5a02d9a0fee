/** The deletion of a workspace (operators/pkg/tenant-controller/workspace_controller.go and
    deleteKcRoles in keycloak_utils.go): its Keycloak roles go, and its tenants are unsubscribed. */
module WorkspaceDeletion {
  import opened Common
  import opened Text
  import opened Roles
  import opened Tenants

  /** An answer to the deletion of a role: done, or an error text, with or without the effect. */
  datatype RoleReply = RoleDone | RoleError(effective: bool, text: string)

  /** The text test by which deleteKcRoles takes an error for "already gone". */
  predicate Tolerated(reply: RoleReply) {
    reply.RoleError? ==> Contains(reply.text, "404")
  }

  /** The role is still there after an error that is taken for success. */
  predicate Swallowed(reply: RoleReply) {
    reply.RoleError? && !reply.effective && Contains(reply.text, "404")
  }

  /** The role is gone after the answer. */
  predicate Removes(reply: RoleReply) {
    reply.RoleDone? || reply.effective
  }

  /** The answer to the list of labelled tenants; NotFound is taken for "no tenant subscribed". */
  datatype ListReply = Listed | ListNotFound | ListFailed

  /** The fate of the calls of one deletion attempt, and the order in which Go visits the two roles. */
  datatype Script = Script(managerFirst: bool, roleReply: string -> RoleReply, list: ListReply,
                           update: string -> Outcome, removeFinalizer: Outcome) {
    function Order(workspace: string): seq<string> {
      if managerFirst then [RoleName(workspace, MANAGER), RoleName(workspace, USER)]
      else [RoleName(workspace, USER), RoleName(workspace, MANAGER)]
    }

    /** The roles of the workspace that the attempt removes. */
    ghost function RolesRemoved(workspace: string): set<string> {
      RemovedRoles(Order(workspace), roleReply)
    }

    /** The attempt takes an entry from the labelled tenant of the name. */
    predicate Unsubscribes(name: string) {
      list.Listed? && update(name).Effective()
    }

    /** The clean-up returns no error: every call succeeded, was tolerated, or found no list. */
    ghost predicate CleansUp(workspace: string, labelled: set<string>) {
      && (forall role :: role in RolesOfWorkspace(workspace) ==> Tolerated(roleReply(role)))
      && !list.ListFailed?
      && (list.Listed? ==> forall name :: name in labelled ==> update(name).Done?)
    }

    /** The attempt drops the finalizer: a clean-up that failed and a removal that took effect. */
    ghost predicate Loses(workspace: string, labelled: set<string>) {
      !CleansUp(workspace, labelled) && removeFinalizer.Effective()
    }
  }

  /** The roles removed in turn, up to the first error that is not tolerated. */
  ghost function RemovedRoles(order: seq<string>, reply: string -> RoleReply): set<string> {
    if |order| == 0 then {}
    else
      (if Removes(reply(order[0])) then {order[0]} else {})
      + (if Tolerated(reply(order[0])) then RemovedRoles(order[1..], reply) else {})
  }

  lemma {:induction false} RemovedWhenTolerated(order: seq<string>, reply: string -> RoleReply)
    requires forall role :: role in order ==> Tolerated(reply(role))
    ensures RemovedRoles(order, reply) == set role | role in order && !Swallowed(reply(role))
  {
    if |order| > 0 {
      RemovedWhenTolerated(order[1..], reply);
      assert order == [order[0]] + order[1..];
    }
  }

  predicate Names(e: WorkspaceEntry, workspace: string) {
    e.workspace == workspace
  }

  function Count(ws: seq<WorkspaceEntry>, workspace: string): nat {
    if |ws| == 0 then 0 else (if ws[0].workspace == workspace then 1 else 0) + Count(ws[1..], workspace)
  }

  /** The list without its last entry for the workspace. */
  function RemoveLast(ws: seq<WorkspaceEntry>, workspace: string): seq<WorkspaceEntry> {
    if |ws| == 0 then []
    else if ws[|ws| - 1].workspace == workspace then ws[..|ws| - 1]
    else RemoveLast(ws[..|ws| - 1], workspace) + [ws[|ws| - 1]]
  }

  lemma {:induction false} RemoveLastAt(ws: seq<WorkspaceEntry>, workspace: string, i: nat)
    requires i < |ws| && ws[i].workspace == workspace
    requires forall j :: i < j < |ws| ==> ws[j].workspace != workspace
    ensures RemoveLast(ws, workspace) == ws[..i] + ws[i + 1..]
  {
    var n := |ws| - 1;
    if i < n {
      RemoveLastAt(ws[..n], workspace, i);
      assert ws[i + 1..] == ws[..n][i + 1..] + [ws[n]];
    }
  }

  lemma {:induction false} RemoveLastNone(ws: seq<WorkspaceEntry>, workspace: string)
    requires forall j :: 0 <= j < |ws| ==> ws[j].workspace != workspace
    ensures RemoveLast(ws, workspace) == ws
  {
    if |ws| > 0 {
      RemoveLastNone(ws[..|ws| - 1], workspace);
    }
  }

  /** removeWsFromTn: find the last matching index, then cut it out. */
  method RemoveWsFromTn(ws: seq<WorkspaceEntry>, workspace: string) returns (r: seq<WorkspaceEntry>)
    ensures r == RemoveLast(ws, workspace)
  {
    var idx := -1;
    for i := 0 to |ws|
      invariant -1 <= idx < i
      invariant idx >= 0 ==> ws[idx].workspace == workspace
      invariant forall j :: idx < j < i ==> ws[j].workspace != workspace
    {
      if ws[i].workspace == workspace {
        idx := i;
      }
    }
    r := ws;
    if idx != -1 {
      RemoveLastAt(ws, workspace, idx);
      r := ws[..idx] + ws[idx + 1..];
    } else {
      RemoveLastNone(ws, workspace);
    }
  }

  lemma {:induction false} CountConcat(a: seq<WorkspaceEntry>, b: seq<WorkspaceEntry>, workspace: string)
    ensures Count(a + b, workspace) == Count(a, workspace) + Count(b, workspace)
  {
    if |a| == 0 {
      assert a + b == b;
    } else {
      assert (a + b)[1..] == a[1..] + b;
      CountConcat(a[1..], b, workspace);
    }
  }

  lemma {:induction false} RemoveLastCount(ws: seq<WorkspaceEntry>, workspace: string)
    ensures Count(RemoveLast(ws, workspace), workspace) ==
            if Count(ws, workspace) == 0 then 0 else Count(ws, workspace) - 1
  {
    if |ws| > 0 {
      var n := |ws| - 1;
      assert ws == ws[..n] + [ws[n]];
      CountConcat(ws[..n], [ws[n]], workspace);
      RemoveLastCount(ws[..n], workspace);
      CountConcat(RemoveLast(ws[..n], workspace), [ws[n]], workspace);
    }
  }

  lemma {:induction false} CountZero(ws: seq<WorkspaceEntry>, workspace: string)
    ensures Count(ws, workspace) == 0 <==> forall e :: e in ws ==> !Names(e, workspace)
  {
    if |ws| > 0 {
      CountZero(ws[1..], workspace);
      assert ws == [ws[0]] + ws[1..];
      assert Names(ws[0], workspace) <==> ws[0].workspace == workspace;
    }
  }

  /** With at most one entry for the workspace, every other entry is kept, in order. */
  lemma {:induction false} RemoveLastKeepsOthers(ws: seq<WorkspaceEntry>, workspace: string)
    requires Count(ws, workspace) <= 1
    ensures RemoveLast(ws, workspace) == Filter(ws, (e: WorkspaceEntry) => !Names(e, workspace))
  {
    if |ws| > 0 {
      var n := |ws| - 1;
      var other := (e: WorkspaceEntry) => !Names(e, workspace);
      assert ws == ws[..n] + [ws[n]];
      CountConcat(ws[..n], [ws[n]], workspace);
      FilterConcat(ws[..n], [ws[n]], other);
      if ws[n].workspace == workspace {
        CountZero(ws[..n], workspace);
        FilterAll(ws[..n], other);
      } else {
        RemoveLastKeepsOthers(ws[..n], workspace);
      }
    }
  }

  /** Whatever is removed, the entries for other workspaces stay, in order. */
  lemma {:induction false} RemoveLastOthers(ws: seq<WorkspaceEntry>, workspace: string)
    ensures Filter(RemoveLast(ws, workspace), (e: WorkspaceEntry) => !Names(e, workspace)) ==
            Filter(ws, (e: WorkspaceEntry) => !Names(e, workspace))
  {
    if |ws| > 0 {
      var n := |ws| - 1;
      var other := (e: WorkspaceEntry) => !Names(e, workspace);
      assert ws == ws[..n] + [ws[n]];
      FilterConcat(ws[..n], [ws[n]], other);
      if ws[n].workspace != workspace {
        RemoveLastOthers(ws[..n], workspace);
        FilterConcat(RemoveLast(ws[..n], workspace), [ws[n]], other);
      }
    }
  }

  /** A tenant after its unsubscription, which reaches it only through its label. */
  function Unsubscribed(tn: Tenant, workspace: string): Tenant {
    if LabelKey(workspace) in tn.labels then tn.(workspaces := RemoveLast(tn.workspaces, workspace)) else tn
  }

  function AllUnsubscribed(tenants: map<string, Tenant>, workspace: string): map<string, Tenant> {
    map name | name in tenants :: Unsubscribed(tenants[name], workspace)
  }

  /** The workspace is named at most once, and by a labelled tenant. */
  predicate Reachable(tn: Tenant, workspace: string) {
    Count(tn.workspaces, workspace) == 0 ||
    (Count(tn.workspaces, workspace) == 1 && LabelKey(workspace) in tn.labels)
  }

  ghost predicate NobodyNames(tenants: map<string, Tenant>, workspace: string) {
    forall name :: name in tenants ==> Count(tenants[name].workspaces, workspace) == 0
  }

  /** Unsubscribing all labelled tenants leaves no tenant naming the workspace exactly when every
      tenant that names it carries its label and names it once; then all other entries stay, in order. */
  lemma UnsubscribedExact(tenants: map<string, Tenant>, workspace: string)
    ensures NobodyNames(AllUnsubscribed(tenants, workspace), workspace) <==>
            forall name :: name in tenants ==> Reachable(tenants[name], workspace)
    ensures forall name :: name in tenants && Reachable(tenants[name], workspace) ==>
            AllUnsubscribed(tenants, workspace)[name].workspaces ==
            Filter(tenants[name].workspaces, (e: WorkspaceEntry) => !Names(e, workspace))
  {
    var after := AllUnsubscribed(tenants, workspace);
    forall name | name in tenants
      ensures Count(after[name].workspaces, workspace) == 0 <==> Reachable(tenants[name], workspace)
      ensures Reachable(tenants[name], workspace) ==>
        after[name].workspaces == Filter(tenants[name].workspaces, (e: WorkspaceEntry) => !Names(e, workspace))
    {
      var ws := tenants[name].workspaces;
      RemoveLastCount(ws, workspace);
      if Count(ws, workspace) <= 1 {
        RemoveLastKeepsOthers(ws, workspace);
      }
      if Count(ws, workspace) == 0 {
        CountZero(ws, workspace);
        FilterAll(ws, (e: WorkspaceEntry) => !Names(e, workspace));
      }
    }
    assert after.Keys == tenants.Keys;
  }

  lemma {:induction false} LastRoleFound(ws: seq<WorkspaceEntry>, workspace: string)
    ensures LastRole(ws, workspace).Some? <==> Count(ws, workspace) > 0
  {
    if |ws| > 0 {
      var n := |ws| - 1;
      assert ws == ws[..n] + [ws[n]];
      CountConcat(ws[..n], [ws[n]], workspace);
      LastRoleFound(ws[..n], workspace);
    }
  }

  /** The labels that reconciles of all tenants write make a later deletion of the workspace reach
      every tenant that names it once. */
  lemma RelabelledReachable(before: map<string, Tenant>, after: map<string, Tenant>, present: set<string>,
                            workspace: string)
    requires AllRelabelled(before, after, present) && workspace in present
    requires forall name :: name in before ==> Count(before[name].workspaces, workspace) <= 1
    ensures NobodyNames(AllUnsubscribed(after, workspace), workspace)
  {
    forall name | name in after ensures Reachable(after[name], workspace) {
      var tn := before[name];
      LastRoleExisting(tn.workspaces, present, workspace);
      RelabelledWorkspace(tn, Existing(tn.workspaces, present), workspace);
      LastRoleFound(tn.workspaces, workspace);
    }
    UnsubscribedExact(after, workspace);
  }

  function RolesOfWorkspace(workspace: string): set<string> {
    {RoleName(workspace, MANAGER), RoleName(workspace, USER)}
  }

  ghost function Labelled(tenants: map<string, Tenant>, workspace: string): set<string> {
    set name | name in tenants && LabelKey(workspace) in tenants[name].labels
  }

  /** The tenants after one attempt, whatever fails in it. */
  ghost function TenantsAfter(tenants: map<string, Tenant>, workspace: string, s: Script): map<string, Tenant> {
    map name | name in tenants ::
      if s.Unsubscribes(name) then Unsubscribed(tenants[name], workspace) else tenants[name]
  }

  /** The tenants when the loop has visited some of the labelled ones. */
  ghost function Visited(tenants: map<string, Tenant>, visited: set<string>, workspace: string, s: Script)
    : map<string, Tenant>
  {
    map name | name in tenants ::
      if name in visited && s.update(name).Effective() then Unsubscribed(tenants[name], workspace) else tenants[name]
  }

  lemma VisitOne(tenants: map<string, Tenant>, visited: set<string>, workspace: string, s: Script, name: string)
    requires name in tenants && name !in visited && LabelKey(workspace) in tenants[name].labels
    ensures
      var now := Visited(tenants, visited, workspace, s);
      && now[name] == tenants[name]
      && Visited(tenants, visited + {name}, workspace, s) ==
         if s.update(name).Effective()
         then now[name := tenants[name].(workspaces := RemoveLast(tenants[name].workspaces, workspace))] else now
  {
  }

  lemma VisitAll(tenants: map<string, Tenant>, workspace: string, s: Script)
    requires s.list.Listed?
    ensures Visited(tenants, Labelled(tenants, workspace), workspace, s) == TenantsAfter(tenants, workspace, s)
  {
  }

  /** What may happen while a workspace is being deleted: an attempt of its operator, or a reconcile of a
      tenant, which writes its labels after the workspaces that it finds. */
  datatype Event = Attempt(script: Script) | Relabel(name: string, present: set<string>)

  datatype Held = Held(finalizer: bool, tenants: map<string, Tenant>, roles: set<string>)

  ghost function Next(h: Held, workspace: string, e: Event): Held {
    match e
    case Attempt(s) =>
      if !h.finalizer then h
      else Held(!s.Loses(workspace, Labelled(h.tenants, workspace)), TenantsAfter(h.tenants, workspace, s),
                h.roles - s.RolesRemoved(workspace))
    case Relabel(name, present) =>
      if name !in h.tenants then h
      else h.(tenants := h.tenants[name := FoundLabels(h.tenants[name], present)])
  }

  /** The tenant with the labels of the workspaces that were found. */
  function FoundLabels(tn: Tenant, present: set<string>): Tenant {
    WithLabels(tn, Existing(tn.workspaces, present))
  }

  /** Any number of such events. */
  ghost function After(h: Held, workspace: string, events: seq<Event>): Held {
    if |events| == 0 then h
    else Next(After(h, workspace, events[..|events| - 1]), workspace, events[|events| - 1])
  }

  class Cluster {
    /** The client roles of Keycloak. */
    var roles: set<string>
    var tenants: map<string, Tenant>
    /** The finalizer of the workspace being deleted. */
    var finalizer: bool

    ghost function State(): Held
      reads this
    {
      Held(finalizer, tenants, roles)
    }

    /** deleteKcRoles, in the order in which the map is visited; it stops at the first error that it
        does not tolerate. */
    method DeleteKcRoles(order: seq<string>, reply: string -> RoleReply) returns (ok: bool)
      modifies this`roles
      ensures ok <==> forall role :: role in order ==> Tolerated(reply(role))
      ensures ok <==> forall role :: role in order ==> reply(role).RoleDone? || Contains(reply(role).text, "404")
      ensures roles == old(roles) - RemovedRoles(order, reply)
      ensures ok ==> roles == old(roles) - (set role | role in order && !Swallowed(reply(role)))
    {
      assert order[0..] == order;
      for i := 0 to |order|
        invariant forall j :: 0 <= j < i ==> Tolerated(reply(order[j]))
        invariant roles - RemovedRoles(order[i..], reply) == old(roles) - RemovedRoles(order, reply)
      {
        assert order[i..][0] == order[i] && order[i..][1..] == order[i + 1..];
        var answer := reply(order[i]);
        if answer.RoleDone? || answer.effective {
          roles := roles - {order[i]};
        }
        if answer.RoleError? && !Contains(answer.text, "404") {
          return false;
        }
      }
      RemovedWhenTolerated(order, reply);
      ok := true;
    }

    /** handleDeletion: nothing stops at the first failure but the deletion of the roles. */
    method HandleDeletion(workspace: string, s: Script) returns (ok: bool)
      modifies this`roles, this`tenants
      ensures ok <==> s.CleansUp(workspace, Labelled(old(tenants), workspace))
      ensures tenants == TenantsAfter(old(tenants), workspace, s)
      ensures roles == old(roles) - s.RolesRemoved(workspace)
    {
      ok := DeleteKcRoles(s.Order(workspace), s.roleReply);
      assert forall role :: role in s.Order(workspace) <==> role in RolesOfWorkspace(workspace);
      match s.list
      case ListFailed => ok := false;
      case ListNotFound =>
      case Listed =>
        var updated := UnsubscribeAll(workspace, s);
        ok := ok && updated;
    }

    /** The loop of handleDeletion over the labelled tenants, in the order of the list. */
    method UnsubscribeAll(workspace: string, s: Script) returns (ok: bool)
      requires s.list.Listed?
      modifies this`tenants
      ensures tenants == TenantsAfter(old(tenants), workspace, s)
      ensures ok <==> forall name :: name in Labelled(old(tenants), workspace) ==> s.update(name).Done?
    {
      var items := set name | name in tenants && LabelKey(workspace) in tenants[name].labels;
      ghost var before := tenants;
      var todo := items;
      ok := true;
      while todo != {}
        invariant todo <= items
        invariant ok <==> forall name :: name in items - todo ==> s.update(name).Done?
        invariant tenants == Visited(before, items - todo, workspace, s)
        decreases todo
      {
        var name :| name in todo;
        VisitOne(before, items - todo, workspace, s, name);
        assert items - (todo - {name}) == (items - todo) + {name};
        todo := todo - {name};
        var tn := tenants[name];
        var ws := RemoveWsFromTn(tn.workspaces, workspace);
        if s.update(name).Effective() {
          tenants := tenants[name := tn.(workspaces := ws)];
        }
        if !s.update(name).Succeeded() {
          ok := false;
        }
      }
      assert items - todo == items;
      VisitAll(before, workspace, s);
    }

    /** The deletion branch of Reconcile as it is written: its guard tests for an error where its
        comment asks for success. */
    method ReconcileDeletion(workspace: string, s: Script) returns (ok: bool)
      modifies this
      ensures State() == Next(old(State()), workspace, Attempt(s))
      ensures !old(finalizer) ==> ok && !finalizer && roles == old(roles) && tenants == old(tenants)
      ensures old(finalizer) ==>
        var clean := s.CleansUp(workspace, Labelled(old(tenants), workspace));
        && (ok <==> clean)
        && tenants == TenantsAfter(old(tenants), workspace, s)
        && roles == old(roles) - s.RolesRemoved(workspace)
        // a clean-up that succeeds keeps the finalizer; it is dropped only after one that failed
        && (!finalizer <==> !clean && s.removeFinalizer.Effective())
        // so "dropped exactly when the clean-up succeeded" holds only when the clean-up fails and so
        // does the removal
        && ((!finalizer <==> clean) <==> !clean && s.removeFinalizer.FailedBefore?)
    {
      ok := true;
      if finalizer {
        ok := HandleDeletion(workspace, s);
        if !ok {
          if s.removeFinalizer.Effective() {
            finalizer := false;
          }
        }
      }
    }

    /** The end of a tenant's reconcile, as far as this workspace is concerned. */
    method RelabelTenant(name: string, present: set<string>, ghost workspace: string)
      modifies this`tenants
      ensures State() == Next(old(State()), workspace, Relabel(name, present))
    {
      if name in tenants {
        var updated := UpdateTnLabels(tenants[name], Existing(tenants[name].workspaces, present));
        tenants := tenants[name := updated];
      }
    }

    /** Any run of reconciles of a workspace being deleted, with reconciles of its tenants between them. */
    method Run(workspace: string, events: seq<Event>)
      modifies this
      ensures State() == After(old(State()), workspace, events)
    {
      for i := 0 to |events|
        invariant State() == After(old(State()), workspace, events[..i])
      {
        AfterOne(old(State()), workspace, events, i);
        match events[i]
        case Attempt(s) =>
          var _ := ReconcileDeletion(workspace, s);
        case Relabel(name, present) =>
          RelabelTenant(name, present, workspace);
      }
      assert events[..|events|] == events;
    }
  }

  lemma AfterOne(h: Held, workspace: string, events: seq<Event>, i: nat)
    requires i < |events|
    ensures After(h, workspace, events[..i + 1]) == Next(After(h, workspace, events[..i]), workspace, events[i])
  {
    assert events[..i + 1][..i] == events[..i];
  }

  /** Event `i` is an attempt that fails and whose removal of the finalizer takes effect. */
  ghost predicate LosesAt(h: Held, workspace: string, events: seq<Event>, i: nat)
    requires i < |events|
  {
    events[i].Attempt? &&
    events[i].script.Loses(workspace, Labelled(After(h, workspace, events[..i]).tenants, workspace))
  }

  /** The finalizer survives a run exactly when no attempt fails with an effective removal: clean-ups
      that succeed never lose it. */
  lemma {:induction false} FinalizerExact(h: Held, workspace: string, events: seq<Event>)
    requires h.finalizer
    ensures After(h, workspace, events).finalizer <==>
            forall i :: 0 <= i < |events| ==> !LosesAt(h, workspace, events, i)
  {
    if |events| > 0 {
      var n := |events| - 1;
      FinalizerExact(h, workspace, events[..n]);
      forall i | 0 <= i < n ensures LosesAt(h, workspace, events[..n], i) <==> LosesAt(h, workspace, events, i) {
        assert events[..n][..i] == events[..i];
      }
      if After(h, workspace, events[..n]).finalizer {
        assert LosesAt(h, workspace, events, n) <==> !After(h, workspace, events).finalizer;
      } else {
        var i :| 0 <= i < n && LosesAt(h, workspace, events[..n], i);
        assert LosesAt(h, workspace, events, i);
      }
    }
  }

  /** Once the finalizer is lost, no attempt changes anything any more. */
  lemma {:induction false} LostForGood(h: Held, workspace: string, events: seq<Event>, name: string)
    requires !h.finalizer && name in h.tenants
    ensures
      var after := After(h, workspace, events);
      && !after.finalizer && after.roles == h.roles
      && name in after.tenants && after.tenants[name].workspaces == h.tenants[name].workspaces
  {
    if |events| > 0 {
      LostForGood(h, workspace, events[..|events| - 1], name);
    }
  }

  /** Event `i` is an attempt made with the finalizer still there. */
  ghost predicate MadeAt(h: Held, workspace: string, events: seq<Event>, i: nat)
    requires i < |events|
  {
    events[i].Attempt? && After(h, workspace, events[..i]).finalizer
  }

  /** The attempts that take an entry from the tenant: made with the finalizer still there, on a tenant
      that is labelled then. */
  ghost function Reached(h: Held, workspace: string, events: seq<Event>, name: string): nat {
    if |events| == 0 then 0
    else
      var n := |events| - 1;
      var now := After(h, workspace, events[..n]);
      Reached(h, workspace, events[..n], name) +
      if MadeAt(h, workspace, events, n) && events[n].script.Unsubscribes(name) &&
         name in Labelled(now.tenants, workspace) then 1 else 0
  }

  /** Exactly who still names the workspace after any run: the tenants with more entries for it than
      attempts that reached them. All other entries stay, in order. */
  lemma {:induction false} AttemptsExact(h: Held, workspace: string, events: seq<Event>, name: string)
    requires name in h.tenants
    ensures
      var before, after := h.tenants[name].workspaces, After(h, workspace, events).tenants;
      var reached := Reached(h, workspace, events, name);
      && name in after
      && Count(after[name].workspaces, workspace) == Minus(Count(before, workspace), reached)
      && Filter(after[name].workspaces, (e: WorkspaceEntry) => !Names(e, workspace)) ==
         Filter(before, (e: WorkspaceEntry) => !Names(e, workspace))
  {
    if |events| > 0 {
      var n := |events| - 1;
      AttemptsExact(h, workspace, events[..n], name);
      var ws := After(h, workspace, events[..n]).tenants[name].workspaces;
      RemoveLastCount(ws, workspace);
      RemoveLastOthers(ws, workspace);
    }
  }

  function Minus(a: nat, b: nat): nat {
    if a <= b then 0 else a - b
  }

  /** Event `i` is such an attempt and removes the role. */
  ghost predicate RemovesAt(h: Held, workspace: string, events: seq<Event>, i: nat, role: string)
    requires i < |events|
  {
    MadeAt(h, workspace, events, i) && role in events[i].script.RolesRemoved(workspace)
  }

  /** Exactly which roles a run leaves: those that no attempt made with the finalizer removes. */
  lemma {:induction false} RolesExact(h: Held, workspace: string, events: seq<Event>, role: string)
    ensures role in After(h, workspace, events).roles <==>
            role in h.roles && forall i :: 0 <= i < |events| ==> !RemovesAt(h, workspace, events, i, role)
  {
    if |events| > 0 {
      var n := |events| - 1;
      RolesExact(h, workspace, events[..n], role);
      forall i | 0 <= i < n
        ensures RemovesAt(h, workspace, events[..n], i, role) <==> RemovesAt(h, workspace, events, i, role)
      {
        assert events[..n][..i] == events[..i];
      }
      if role in After(h, workspace, events[..n]).roles {
        assert RemovesAt(h, workspace, events, n, role) <==> role !in After(h, workspace, events).roles;
      } else if role in h.roles {
        var i :| 0 <= i < n && RemovesAt(h, workspace, events[..n], i, role);
        assert RemovesAt(h, workspace, events, i, role);
      }
    }
  }

  /** The attempts made with the finalizer whose update of the tenant takes effect, labelled or not. */
  ghost function Hits(h: Held, workspace: string, events: seq<Event>, name: string): nat {
    if |events| == 0 then 0
    else
      var n := |events| - 1;
      Hits(h, workspace, events[..n], name) +
      if MadeAt(h, workspace, events, n) && events[n].script.Unsubscribes(name) then 1 else 0
  }

  /** A tenant that names the workspace carries its label. */
  predicate Honest(tn: Tenant, workspace: string) {
    Count(tn.workspaces, workspace) > 0 ==> LabelKey(workspace) in tn.labels
  }

  /** The label after a reconcile of a tenant: there exactly when the tenant names the workspace and the
      workspace is found. */
  lemma FoundExact(tn: Tenant, present: set<string>, workspace: string)
    ensures
      var after := FoundLabels(tn, present);
      && after.workspaces == tn.workspaces
      && ("crownlabs.polito.it/workspace-" + workspace in after.labels <==>
            workspace in present && Count(tn.workspaces, workspace) > 0)
  {
    var existing := Existing(tn.workspaces, present);
    RelabelledWorkspace(tn, existing, workspace);
    assert LabelKey(workspace) == "crownlabs.polito.it/workspace-" + workspace;
    if workspace in present {
      LastRoleExisting(tn.workspaces, present, workspace);
      LastRoleFound(tn.workspaces, workspace);
    } else {
      FilterIn(tn.workspaces, (e: WorkspaceEntry) => e.workspace in present);
      assert forall i :: 0 <= i < |existing| ==> existing[i] in existing && existing[i].workspace in present;
      if LastRole(existing, workspace).Some? {
        LastRoleIn(existing, workspace);
        assert false;
      }
    }
  }

  /** When the tenant is labelled at the start and its reconciles find the workspace, they drop its label
      only once it names the workspace no more: it still names it exactly when it had more entries than
      attempts with an effective update. */
  lemma {:induction false} HonestExact(h: Held, workspace: string, events: seq<Event>, name: string)
    requires name in h.tenants && Honest(h.tenants[name], workspace)
    requires forall i :: 0 <= i < |events| && events[i].Relabel? && events[i].name == name ==>
      workspace in events[i].present
    ensures
      var after := After(h, workspace, events).tenants;
      && name in after && Honest(after[name], workspace)
      && Count(after[name].workspaces, workspace) ==
         Minus(Count(h.tenants[name].workspaces, workspace), Hits(h, workspace, events, name))
  {
    if |events| > 0 {
      var n := |events| - 1;
      HonestExact(h, workspace, events[..n], name);
      var tn := After(h, workspace, events[..n]).tenants[name];
      RemoveLastCount(tn.workspaces, workspace);
      if events[n].Relabel? && events[n].name == name {
        FoundExact(tn, events[n].present, workspace);
        assert LabelKey(workspace) == "crownlabs.polito.it/workspace-" + workspace;
      }
    }
  }

  /** What a clean-up without an error leaves: nobody names the workspace exactly when the labels
      reached everyone who did, a list that was not found leaves every tenant as it is, and neither
      role is left exactly when no error was swallowed. */
  lemma CleanUpExact(tenants: map<string, Tenant>, roles: set<string>, workspace: string, s: Script)
    requires s.CleansUp(workspace, Labelled(tenants, workspace))
    ensures s.list.Listed? ==>
      && TenantsAfter(tenants, workspace, s) == AllUnsubscribed(tenants, workspace)
      && (NobodyNames(TenantsAfter(tenants, workspace, s), workspace) <==>
          forall name :: name in tenants ==> Reachable(tenants[name], workspace))
    ensures s.list.ListNotFound? ==> TenantsAfter(tenants, workspace, s) == tenants
    ensures roles - s.RolesRemoved(workspace) !! RolesOfWorkspace(workspace) <==>
            forall r :: r in RolesOfWorkspace(workspace) * roles ==> !Swallowed(s.roleReply(r))
  {
    assert forall role :: role in s.Order(workspace) <==> role in RolesOfWorkspace(workspace);
    RemovedWhenTolerated(s.Order(workspace), s.roleReply);
    if s.list.Listed? {
      assert TenantsAfter(tenants, workspace, s) == AllUnsubscribed(tenants, workspace);
      UnsubscribedExact(tenants, workspace);
    }
  }

  /** One attempt in words: whom it reaches, and how. */
  lemma ReachInWords(tenants: map<string, Tenant>, workspace: string, s: Script)
    ensures
      var after, key := TenantsAfter(tenants, workspace, s), "crownlabs.polito.it/workspace-" + workspace;
      && after.Keys == tenants.Keys
      && (forall name :: name in tenants ==>
            after[name] ==
              if s.list == Listed && key in tenants[name].labels && s.update(name) != FailedBefore
              then tenants[name].(workspaces := RemoveLast(tenants[name].workspaces, workspace)) else tenants[name])
  {
  }

  lemma TheTwoRoles(workspace: string, s: Script)
    ensures
      var manager, user := "workspace-" + workspace + ":manager", "workspace-" + workspace + ":user";
      && RolesOfWorkspace(workspace) == {manager, user}
      && forall r :: r in s.Order(workspace) <==> r == manager || r == user
  {
    assert ":" + MANAGER == ":manager" && ":" + USER == ":user";
    var head := "workspace-" + workspace;
    assert head + ":" + MANAGER == head + (":" + MANAGER) && head + ":" + USER == head + (":" + USER);
  }

  /** Which roles an attempt can remove, and when it returns no error. */
  lemma ErrorInWords(tenants: map<string, Tenant>, workspace: string, s: Script)
    ensures
      var manager, user := "workspace-" + workspace + ":manager", "workspace-" + workspace + ":user";
      var key := "crownlabs.polito.it/workspace-" + workspace;
      && s.RolesRemoved(workspace) <= {manager, user}
      && (s.roleReply(manager) == RoleDone && s.roleReply(user) == RoleDone ==>
            s.RolesRemoved(workspace) == {manager, user})
      && (s.CleansUp(workspace, Labelled(tenants, workspace)) <==>
            && (s.roleReply(manager).RoleDone? || Contains(s.roleReply(manager).text, "404"))
            && (s.roleReply(user).RoleDone? || Contains(s.roleReply(user).text, "404"))
            && s.list != ListFailed
            && (s.list == Listed ==>
                  forall name :: name in tenants && key in tenants[name].labels ==> s.update(name) == Done))
  {
    TheTwoRoles(workspace, s);
    RemovedAmong(s.Order(workspace), s.roleReply);
    var manager, user := "workspace-" + workspace + ":manager", "workspace-" + workspace + ":user";
    if s.roleReply(manager) == RoleDone && s.roleReply(user) == RoleDone {
      RemovedWhenTolerated(s.Order(workspace), s.roleReply);
    }
    assert forall name :: name in Labelled(tenants, workspace) <==>
      name in tenants && "crownlabs.polito.it/workspace-" + workspace in tenants[name].labels;
  }

  lemma {:induction false} RemovedAmong(order: seq<string>, reply: string -> RoleReply)
    ensures forall r :: r in RemovedRoles(order, reply) ==> r in order
  {
    if |order| > 0 {
      RemovedAmong(order[1..], reply);
    }
  }

  /** Any error text that quotes a role of a workspace with "404" in its name, as a connection error
      quotes the address of its request, is taken for a missing role. */
  lemma QuotedNameSwallowed(before: string, workspace: string, role: string, after: string)
    requires Contains(workspace, "404")
    ensures Swallowed(RoleError(false, before + RoleName(workspace, role) + after))
  {
    var i :| 0 <= i <= |workspace| && "404" <= workspace[i..];
    var head := before + ROLE_PREFIX + workspace[..i];
    var text := before + RoleName(workspace, role) + after;
    var tail := workspace[i..] + (":" + role + after);
    assert workspace == workspace[..i] + workspace[i..];
    assert text == head + tail;
    assert text[|head|..] == tail;
    assert "404" <= text[|head|..];
  }
}
