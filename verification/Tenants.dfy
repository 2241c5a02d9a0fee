/** Tenant objects: their workspace labels, which index the tenants of a workspace, and the readers
    and writers of that index (operators/pkg/tenant-controller/tenant_controller.go,
    operators/pkg/instance-creation/ssh.go). */
module Tenants {
  import opened Common
  import opened Text
  import opened Roles

  const LABEL_PREFIX := "crownlabs.polito.it/workspace-"
  const FIRST_NAME := "crownlabs.polito.it/first-name"
  const LAST_NAME := "crownlabs.polito.it/last-name"

  type Labels = map<string, string>

  datatype Tenant = Tenant(firstName: string, lastName: string, email: string, workspaces: seq<WorkspaceEntry>,
                           publicKeys: seq<string>, labels: Labels)

  // ----- cleanName -----

  /** A character that the expression ^[a-zA-Z0-9_]+$ admits. */
  predicate Allowed(c: char) {
    'a' <= c <= 'z' || 'A' <= c <= 'Z' || '0' <= c <= '9' || c == '_'
  }

  /** strings.ReplaceAll(name, " ", "_"). */
  function Underscored(name: string): (r: string)
    ensures |r| == |name|
    ensures forall i :: 0 <= i < |r| ==> r[i] == if name[i] == ' ' then '_' else name[i]
  {
    if |name| == 0 then "" else [if name[0] == ' ' then '_' else name[0]] + Underscored(name[1..])
  }

  /** strings.Replace(name, c, "", 1). */
  function RemoveFirst(name: string, c: char): string {
    if |name| == 0 then ""
    else if name[0] == c then name[1..]
    else [name[0]] + RemoveFirst(name[1..], c)
  }

  function RemoveEach(name: string, chars: string): string
    decreases |chars|
  {
    if |chars| == 0 then name else RemoveEach(RemoveFirst(name, chars[0]), chars[1..])
  }

  lemma {:induction false} RemoveFirstAfter(clean: string, c: char, rest: string)
    requires c !in clean
    ensures RemoveFirst(clean + [c] + rest, c) == clean + rest
  {
    var name := clean + [c] + rest;
    if |clean| == 0 {
      assert name[1..] == rest;
    } else {
      assert name[1..] == clean[1..] + [c] + rest;
      RemoveFirstAfter(clean[1..], c, rest);
      assert clean == [clean[0]] + clean[1..];
    }
  }

  function Problems(name: string): string {
    Filter(name, c => !Allowed(c))
  }

  function AllowedOf(name: string): string {
    Filter(name, c => Allowed(c))
  }

  lemma FilterHead(c: char, rest: string)
    ensures Problems([c] + rest) == if Allowed(c) then Problems(rest) else [c] + Problems(rest)
    ensures AllowedOf([c] + rest) == if Allowed(c) then [c] + AllowedOf(rest) else AllowedOf(rest)
  {
  }

  /** Removing the first occurrence of each problem character in turn leaves the allowed ones:
      when its turn comes, a problem character is preceded by allowed characters only. */
  lemma {:induction false} RemoveProblems(clean: string, rest: string)
    requires forall c :: c in clean ==> Allowed(c)
    ensures RemoveEach(clean + rest, Problems(rest)) == clean + AllowedOf(rest)
    decreases |rest|
  {
    if |rest| == 0 {
      assert clean + rest == clean + AllowedOf(rest);
    } else {
      var c, tail := rest[0], rest[1..];
      assert rest == [c] + tail;
      FilterHead(c, tail);
      if Allowed(c) {
        RemoveProblems(clean + [c], tail);
        assert (clean + [c]) + tail == clean + rest;
        assert (clean + [c]) + AllowedOf(tail) == clean + AllowedOf(rest);
      } else {
        assert clean + rest == clean + [c] + tail;
        RemoveFirstAfter(clean, c, tail);
        assert ([c] + Problems(tail))[1..] == Problems(tail);
        RemoveProblems(clean, tail);
      }
    }
  }

  /** The allowed characters of a name, in order, with spaces turned into underscores. */
  function Cleaned(name: string): string {
    AllowedOf(Underscored(name))
  }

  /** The first loop of cleanName. */
  method CollectProblems(name: string) returns (problemChars: string)
    ensures problemChars == Problems(name)
  {
    problemChars := "";
    for i := 0 to |name|
      invariant problemChars == Problems(name[..i])
    {
      assert name[..i + 1] == name[..i] + [name[i]];
      FilterConcat(name[..i], [name[i]], c => !Allowed(c));
      if !Allowed(name[i]) {
        problemChars := problemChars + [name[i]];
      }
    }
    assert name[..|name|] == name;
  }

  /** The second loop of cleanName. */
  method RemoveCharacters(all: string, problemChars: string) returns (name: string)
    ensures name == RemoveEach(all, problemChars)
  {
    name := all;
    assert problemChars[0..] == problemChars;
    for i := 0 to |problemChars|
      invariant RemoveEach(name, problemChars[i..]) == RemoveEach(all, problemChars)
    {
      assert problemChars[i..][1..] == problemChars[i + 1..];
      name := RemoveFirst(name, problemChars[i]);
    }
  }

  /** cleanName. The list of problem characters starts with two empty strings, whose removal
      changes nothing, so it is modelled from its first character on. */
  method CleanName(firstOrLast: string) returns (name: string)
    ensures name == Cleaned(firstOrLast)
    // the letters, digits and underscores in order, with each space as an underscore
    ensures name == Filter(seq(|firstOrLast|, i requires 0 <= i < |firstOrLast| =>
                                 if firstOrLast[i] == ' ' then '_' else firstOrLast[i]),
                           c => 'a' <= c <= 'z' || 'A' <= c <= 'Z' || '0' <= c <= '9' || c == '_')
  {
    name := Underscored(firstOrLast);
    FilterSame(name, c => Allowed(c), c => 'a' <= c <= 'z' || 'A' <= c <= 'Z' || '0' <= c <= '9' || c == '_');
    assert name == seq(|firstOrLast|, i requires 0 <= i < |firstOrLast| =>
                         if firstOrLast[i] == ' ' then '_' else firstOrLast[i]);
    var ok := name != "" && forall c :: c in name ==> Allowed(c);
    if !ok {
      assert "" + name == name && "" + AllowedOf(name) == AllowedOf(name);
      RemoveProblems("", name);
      var problemChars := CollectProblems(name);
      name := RemoveCharacters(name, problemChars);
    } else {
      FilterAll(name, c => Allowed(c));
    }
  }

  lemma {:induction false} UnderscoredFixed(name: string)
    requires ' ' !in name
    ensures Underscored(name) == name
  {
    if |name| > 0 {
      UnderscoredFixed(name[1..]);
    }
  }

  /** Cleaning twice is cleaning once, and a name is fixed exactly when it is already clean. */
  lemma CleanedFixed(name: string)
    ensures Cleaned(Cleaned(name)) == Cleaned(name)
    ensures Cleaned(name) == name <==> forall c :: c in name ==> Allowed(c)
  {
    var once := Cleaned(name);
    FilterIn(Underscored(name), c => Allowed(c));
    UnderscoredFixed(once);
    FilterAll(once, c => Allowed(c));
    if forall c :: c in name ==> Allowed(c) {
      UnderscoredFixed(name);
      FilterAll(name, c => Allowed(c));
    }
  }

  // ----- Labels -----

  function LabelKey(workspace: string): string {
    LABEL_PREFIX + workspace
  }

  /** The role of the last entry for the workspace. */
  function LastRole(workspaces: seq<WorkspaceEntry>, workspace: string): Option<string> {
    if |workspaces| == 0 then None
    else if workspaces[|workspaces| - 1].workspace == workspace then Some(workspaces[|workspaces| - 1].role)
    else LastRole(workspaces[..|workspaces| - 1], workspace)
  }

  /** The labels of workspaces after the loop over the existing ones. */
  function WithWorkspaces(labels: Labels, existing: seq<WorkspaceEntry>): Labels {
    if |existing| == 0 then labels
    else
      var last := existing[|existing| - 1];
      WithWorkspaces(labels, existing[..|existing| - 1])[LabelKey(last.workspace) := last.role]
  }

  function WithoutWorkspaces(labels: Labels): Labels {
    map key | key in labels && !HasPrefix(key, LABEL_PREFIX) :: labels[key]
  }

  function Relabelled(labels: Labels, existing: seq<WorkspaceEntry>, firstName: string, lastName: string): Labels {
    WithWorkspaces(WithoutWorkspaces(labels), existing)
      [FIRST_NAME := Cleaned(firstName)][LAST_NAME := Cleaned(lastName)]
  }

  function WithLabels(tn: Tenant, existing: seq<WorkspaceEntry>): Tenant {
    tn.(labels := Relabelled(tn.labels, existing, tn.firstName, tn.lastName))
  }

  /** cleanWorkspaceLabels: visit the keys and delete those of workspaces. */
  method CleanWorkspaceLabels(labels: Labels) returns (cleaned: Labels)
    ensures cleaned == WithoutWorkspaces(labels)
    ensures forall key :: key in cleaned <==> key in labels && !HasPrefix(key, "crownlabs.polito.it/workspace-")
    ensures forall key :: key in cleaned ==> cleaned[key] == labels[key]
  {
    cleaned := labels;
    var todo := labels.Keys;
    while todo != {}
      invariant todo <= labels.Keys && cleaned.Keys <= labels.Keys
      invariant forall key :: key in labels ==> (key in cleaned <==> key in todo || !HasPrefix(key, LABEL_PREFIX))
      invariant forall key :: key in cleaned ==> cleaned[key] == labels[key]
      decreases todo
    {
      var key :| key in todo;
      todo := todo - {key};
      if HasPrefix(key, LABEL_PREFIX) {
        cleaned := cleaned - {key};
      }
    }
  }

  /** updateTnLabels; absent labels are the empty map. */
  method UpdateTnLabels(tn: Tenant, existing: seq<WorkspaceEntry>) returns (r: Tenant)
    ensures r == WithLabels(tn, existing)
  {
    var labels := CleanWorkspaceLabels(tn.labels);
    ghost var cleaned := labels;
    for i := 0 to |existing|
      invariant labels == WithWorkspaces(cleaned, existing[..i])
    {
      assert existing[..i + 1][..i] == existing[..i];
      labels := labels[LABEL_PREFIX + existing[i].workspace := existing[i].role];
    }
    assert existing[..|existing|] == existing;
    var first := CleanName(tn.firstName);
    var last := CleanName(tn.lastName);
    labels := labels[FIRST_NAME := first];
    labels := labels[LAST_NAME := last];
    r := tn.(labels := labels);
  }

  lemma NamesAreNotWorkspaces(workspace: string)
    ensures LabelKey(workspace) != FIRST_NAME && LabelKey(workspace) != LAST_NAME
    ensures !HasPrefix(FIRST_NAME, LABEL_PREFIX) && !HasPrefix(LAST_NAME, LABEL_PREFIX)
  {
    var key := LabelKey(workspace);
    assert LABEL_PREFIX[20] == 'w' && FIRST_NAME[20] == 'f' && LAST_NAME[20] == 'l';
    assert key[20] == 'w';
  }

  lemma LabelKeyInjective(a: string, b: string)
    ensures LabelKey(a) == LabelKey(b) <==> a == b
  {
    assert a == LabelKey(a)[|LABEL_PREFIX|..] && b == LabelKey(b)[|LABEL_PREFIX|..];
  }

  lemma {:induction false} WorkspaceLabel(labels: Labels, existing: seq<WorkspaceEntry>, workspace: string)
    requires LabelKey(workspace) !in labels
    ensures
      var r := WithWorkspaces(labels, existing);
      (if LabelKey(workspace) in r then Some(r[LabelKey(workspace)]) else None) == LastRole(existing, workspace)
  {
    if |existing| > 0 {
      WorkspaceLabel(labels, existing[..|existing| - 1], workspace);
      LabelKeyInjective(workspace, existing[|existing| - 1].workspace);
    }
  }

  /** After an update the label of a workspace is the role of its last entry, and absent without one. */
  lemma RelabelledWorkspace(tn: Tenant, existing: seq<WorkspaceEntry>, workspace: string)
    ensures
      var r := WithLabels(tn, existing).labels;
      (if LabelKey(workspace) in r then Some(r[LabelKey(workspace)]) else None) == LastRole(existing, workspace)
  {
    WorkspaceLabel(WithoutWorkspaces(tn.labels), existing, workspace);
    NamesAreNotWorkspaces(workspace);
  }

  /** No later entry is for the same workspace. */
  predicate LastFor(existing: seq<WorkspaceEntry>, i: nat)
    requires i < |existing|
  {
    forall j :: i < j < |existing| ==> existing[j].workspace != existing[i].workspace
  }

  lemma {:induction false} LastRoleAt(existing: seq<WorkspaceEntry>, i: nat)
    requires i < |existing| && LastFor(existing, i)
    ensures LastRole(existing, existing[i].workspace) == Some(existing[i].role)
  {
    var n := |existing| - 1;
    if i < n {
      LastRoleAt(existing[..n], i);
    }
  }

  lemma {:induction false} LastRoleIn(existing: seq<WorkspaceEntry>, workspace: string)
    requires LastRole(existing, workspace).Some?
    ensures exists i :: 0 <= i < |existing| && existing[i].workspace == workspace
  {
    var n := |existing| - 1;
    if existing[n].workspace != workspace {
      LastRoleIn(existing[..n], workspace);
    }
  }

  /** The labels after an update, in words: of a workspace the role of its last entry, and of the names
      their cleaned forms. Nothing but the labels changes. */
  lemma LabelsInWords(tn: Tenant, existing: seq<WorkspaceEntry>)
    ensures
      var r := WithLabels(tn, existing);
      && r == tn.(labels := r.labels)
      && (forall i :: 0 <= i < |existing| && LastFor(existing, i) ==>
            var key := "crownlabs.polito.it/workspace-" + existing[i].workspace;
            key in r.labels && r.labels[key] == existing[i].role)
      && (forall workspace :: "crownlabs.polito.it/workspace-" + workspace in r.labels ==>
            exists i :: 0 <= i < |existing| && existing[i].workspace == workspace)
      && "crownlabs.polito.it/first-name" in r.labels && "crownlabs.polito.it/last-name" in r.labels
      && r.labels["crownlabs.polito.it/first-name"] == Cleaned(tn.firstName)
      && r.labels["crownlabs.polito.it/last-name"] == Cleaned(tn.lastName)
  {
    var labels := WithLabels(tn, existing).labels;
    forall i | 0 <= i < |existing| && LastFor(existing, i)
      ensures
        var key := LabelKey(existing[i].workspace);
        key in labels && labels[key] == existing[i].role
    {
      LastRoleAt(existing, i);
      RelabelledWorkspace(tn, existing, existing[i].workspace);
    }
    forall workspace | "crownlabs.polito.it/workspace-" + workspace in labels
      ensures exists i :: 0 <= i < |existing| && existing[i].workspace == workspace
    {
      assert LabelKey(workspace) in labels;
      RelabelledWorkspace(tn, existing, workspace);
      LastRoleIn(existing, workspace);
    }
    assert FIRST_NAME[20] == 'f' && LAST_NAME[20] == 'l';
  }

  lemma {:induction false} OtherLabel(labels: Labels, existing: seq<WorkspaceEntry>, key: string)
    requires !HasPrefix(key, LABEL_PREFIX)
    ensures key in WithWorkspaces(labels, existing) <==> key in labels
    ensures key in labels ==> WithWorkspaces(labels, existing)[key] == labels[key]
  {
    if |existing| > 0 {
      OtherLabel(labels, existing[..|existing| - 1], key);
    }
  }

  /** Labels outside the workspace prefix and the two name labels are untouched. */
  lemma RelabelledOthers(tn: Tenant, existing: seq<WorkspaceEntry>, key: string)
    requires !HasPrefix(key, LABEL_PREFIX) && key != FIRST_NAME && key != LAST_NAME
    ensures
      var r := WithLabels(tn, existing).labels;
      (key in r <==> key in tn.labels) && (key in r ==> r[key] == tn.labels[key])
  {
    OtherLabel(WithoutWorkspaces(tn.labels), existing, key);
  }

  // ----- GetPublicKeys -----

  /** The existing workspaces among the entries of a tenant, as the reconciler finds them. */
  function Existing(workspaces: seq<WorkspaceEntry>, present: set<string>): seq<WorkspaceEntry> {
    Filter(workspaces, (e: WorkspaceEntry) => e.workspace in present)
  }

  lemma ExistingSnoc(workspaces: seq<WorkspaceEntry>, e: WorkspaceEntry, present: set<string>)
    ensures Existing(workspaces + [e], present) ==
            Existing(workspaces, present) + if e.workspace in present then [e] else []
  {
    FilterConcat(workspaces, [e], (e: WorkspaceEntry) => e.workspace in present);
  }

  lemma {:induction false} LastRoleExisting(workspaces: seq<WorkspaceEntry>, present: set<string>, workspace: string)
    requires workspace in present
    ensures LastRole(Existing(workspaces, present), workspace) == LastRole(workspaces, workspace)
  {
    if |workspaces| > 0 {
      var n := |workspaces| - 1;
      var last, shorter := workspaces[n], Existing(workspaces[..n], present);
      assert workspaces == workspaces[..n] + [last];
      ExistingSnoc(workspaces[..n], last, present);
      LastRoleExisting(workspaces[..n], present, workspace);
      if last.workspace in present {
        assert (shorter + [last])[..|shorter|] == shorter;
      } else {
        assert shorter + [] == shorter;
      }
    }
  }

  /** A tenant as a list of the API server returns it. */
  datatype Item = Item(name: string, tenant: Tenant)

  /** The keys of the listed tenants but one, in order. */
  function OtherKeys(listing: seq<Item>, self: string): seq<string> {
    if |listing| == 0 then []
    else
      (if listing[0].name == self then [] else listing[0].tenant.publicKeys) + OtherKeys(listing[1..], self)
  }

  lemma {:induction false} OtherKeysConcat(a: seq<Item>, b: seq<Item>, self: string)
    ensures OtherKeys(a + b, self) == OtherKeys(a, self) + OtherKeys(b, self)
  {
    if |a| == 0 {
      assert a + b == b;
    } else {
      assert (a + b)[1..] == a[1..] + b;
      OtherKeysConcat(a[1..], b, self);
    }
  }

  predicate Matches(tn: Tenant, key: string, value: string) {
    key in tn.labels && tn.labels[key] == value
  }

  /** An answer of the API server to a list by label: every match, once, in some order. */
  ghost predicate IsListing(listing: seq<Item>, tenants: map<string, Tenant>, key: string, value: string) {
    && (forall i, j :: 0 <= i < j < |listing| ==> listing[i].name != listing[j].name)
    && (forall i :: 0 <= i < |listing| ==>
          listing[i].name in tenants && listing[i].tenant == tenants[listing[i].name] &&
          Matches(listing[i].tenant, key, value))
    && (forall name :: name in tenants && Matches(tenants[name], key, value) ==> Item(name, tenants[name]) in listing)
  }

  /** GetPublicKeys: the reads may fail, and keys appended before a failure stay appended. A list
      answered by NotFound is an empty listing. */
  method GetPublicKeys(tenants: map<string, Tenant>, self: string, readTenant: Outcome,
                       workspace: Option<string>, readTemplate: Outcome,
                       listing: seq<Item>, list: Outcome, publicKeys: seq<string>)
    returns (ok: bool, keys: seq<string>)
    requires workspace.Some? ==> IsListing(listing, tenants, LabelKey(workspace.value), MANAGER)
    ensures ok <==> readTenant.Done? && self in tenants && readTemplate.Done? && workspace.Some? && list.Done?
    ensures ok ==> keys == publicKeys + tenants[self].publicKeys + OtherKeys(listing, self)
    ensures !ok ==> keys == if readTenant.Done? && self in tenants
                            then publicKeys + tenants[self].publicKeys else publicKeys
  {
    keys := publicKeys;
    if !readTenant.Done? || self !in tenants {
      return false, keys;
    }
    keys := keys + tenants[self].publicKeys;
    if !readTemplate.Done? || workspace.None? {
      return false, keys;
    }
    if !list.Done? {
      return false, keys;
    }
    var others := CollectKeys(listing, self);
    return true, keys + others;
  }

  method CollectKeys(listing: seq<Item>, self: string) returns (keys: seq<string>)
    ensures keys == OtherKeys(listing, self)
  {
    keys := [];
    for i := 0 to |listing|
      invariant keys == OtherKeys(listing[..i], self)
    {
      assert listing[..i + 1] == listing[..i] + [listing[i]];
      OtherKeysConcat(listing[..i], [listing[i]], self);
      if listing[i].name != self {
        keys := keys + listing[i].tenant.publicKeys;
      }
    }
    assert listing[..|listing|] == listing;
  }

  /** All tenants after a reconcile of each, with the given workspaces in existence. */
  ghost predicate AllRelabelled(before: map<string, Tenant>, after: map<string, Tenant>, present: set<string>) {
    && before.Keys == after.Keys
    && forall name :: name in before ==>
         after[name] == WithLabels(before[name], Existing(before[name].workspaces, present))
  }

  /** Once all tenants are relabelled, a tenant carries the manager label of an existing workspace
      exactly when its last entry for the workspace says manager. */
  lemma ManagerIndex(before: map<string, Tenant>, after: map<string, Tenant>, present: set<string>,
                     workspace: string, name: string)
    requires AllRelabelled(before, after, present) && workspace in present && name in before
    ensures Matches(after[name], LabelKey(workspace), MANAGER) <==>
            LastRole(before[name].workspaces, workspace) == Some(MANAGER)
  {
    var tn := before[name];
    LastRoleExisting(tn.workspaces, present, workspace);
    RelabelledWorkspace(tn, Existing(tn.workspaces, present), workspace);
  }

  /** The block of keys of one listed tenant: the keys before it, its own, the keys after it. */
  ghost predicate OneBlock(listing: seq<Item>, self: string, name: string, keys: seq<string>) {
    exists i ::
      && 0 <= i < |listing| && listing[i].name == name
      && (forall j :: 0 <= j < |listing| && j != i ==> listing[j].name != name)
      && OtherKeys(listing, self) == OtherKeys(listing[..i], self) + keys + OtherKeys(listing[i + 1..], self)
  }

  /** After label updates on all tenants, each other tenant whose last entry for the workspace says
      manager is visited once by GetPublicKeys and contributes exactly its keys. */
  lemma ManagerKeys(before: map<string, Tenant>, after: map<string, Tenant>, present: set<string>,
                    workspace: string, listing: seq<Item>, self: string, name: string)
    requires AllRelabelled(before, after, present) && workspace in present
    requires IsListing(listing, after, LabelKey(workspace), MANAGER)
    requires name in before && LastRole(before[name].workspaces, workspace) == Some(MANAGER) && name != self
    ensures OneBlock(listing, self, name, before[name].publicKeys)
  {
    ManagerIndex(before, after, present, workspace, name);
    var i :| 0 <= i < |listing| && listing[i] == Item(name, after[name]);
    ListedBlock(listing, self, i);
  }

  lemma ListedBlock(listing: seq<Item>, self: string, i: nat)
    requires i < |listing| && listing[i].name != self
    requires forall j, k :: 0 <= j < k < |listing| ==> listing[j].name != listing[k].name
    ensures OneBlock(listing, self, listing[i].name, listing[i].tenant.publicKeys)
  {
    var head, item, tail := listing[..i], listing[i], listing[i + 1..];
    assert listing == head + ([item] + tail);
    OtherKeysConcat(head, [item] + tail, self);
    assert ([item] + tail)[1..] == tail;
    assert OtherKeys([item] + tail, self) == item.tenant.publicKeys + OtherKeys(tail, self);
  }

  /** No key comes from anyone but the tenant and the other managers of the workspace. */
  lemma OnlyManagerKeys(before: map<string, Tenant>, after: map<string, Tenant>, present: set<string>,
                        workspace: string, listing: seq<Item>, self: string, key: string)
    requires AllRelabelled(before, after, present) && workspace in present
    requires IsListing(listing, after, LabelKey(workspace), MANAGER) && key in OtherKeys(listing, self)
    ensures exists name :: name in before && name != self && key in before[name].publicKeys &&
                           LastRole(before[name].workspaces, workspace) == Some(MANAGER)
  {
    var i := KeyOrigin(listing, self, key);
    var name := listing[i].name;
    ManagerIndex(before, after, present, workspace, name);
  }

  lemma {:induction false} KeyOrigin(listing: seq<Item>, self: string, key: string) returns (i: nat)
    requires key in OtherKeys(listing, self)
    ensures i < |listing| && listing[i].name != self && key in listing[i].tenant.publicKeys
  {
    if listing[0].name != self && key in listing[0].tenant.publicKeys {
      i := 0;
    } else {
      i := KeyOrigin(listing[1..], self, key);
      i := i + 1;
    }
  }
}
