/** The creation and polling of a virtual machine and the status they leave on the instance
    (operators/pkg/instance-controller: logic.go, common_logic.go, status_inspection.go, and
    setInstanceStatus in controller.go). */
module VmiStatus {
  import opened Common

  const READY := "VmiReady"
  const OFF := "VmiOff"
  const RUNNING := "Running"
  const FAILED := "Failed"
  const MAX_RETRIES := 120

  /** One poll: the read failed, or it showed a phase and the addresses of the interfaces. */
  datatype Observation = GetFailed | Seen(phase: string, ips: seq<string>)

  /** One call of setInstanceStatus; a warning is any event type but "Normal". */
  datatype Report = Report(warning: bool, reason: string, ip: string, url: string)

  datatype Status = Status(ip: string, phase: string, url: string)

  // ----- setInstanceStatus -----

  /** The gate: a ready instance ignores other phases unless something failed or it is turned off. */
  predicate Ignored(base: Status, r: Report) {
    base.phase == READY && r.reason != READY && !r.warning && r.reason != OFF
  }

  /** The effect of a merge patch that was computed against `base`: only the fields in which the
      wanted status differs from `base` are written. */
  function Patched(stored: Status, base: Status, wanted: Status): Status {
    Status(if wanted.ip != base.ip then wanted.ip else stored.ip,
           if wanted.phase != base.phase then wanted.phase else stored.phase,
           if wanted.url != base.url then wanted.url else stored.url)
  }

  function AfterReport(stored: Status, base: Status, r: Report, patch: Outcome): Status {
    if Ignored(base, r) || !patch.Effective() then stored
    else Patched(stored, base, Status(r.ip, r.reason, r.url))
  }

  /** One report in words: a ready instance ignores all but VmiReady, warnings and VmiOff; else each field
      that differs from the status first read is written. */
  lemma ReportInWords(stored: Status, base: Status, r: Report, patch: Outcome)
    ensures AfterReport(stored, base, r, patch) ==
      if (base.phase == "VmiReady" && r.reason != "VmiReady" && !r.warning && r.reason != "VmiOff") ||
         patch == FailedBefore
      then stored
      else Status(if r.ip == base.ip then stored.ip else r.ip,
                  if r.reason == base.phase then stored.phase else r.reason,
                  if r.url == base.url then stored.url else r.url)
  {
  }

  function AfterReports(stored: Status, base: Status, reports: seq<Report>, patch: nat -> Outcome): Status {
    if |reports| == 0 then stored
    else
      var n := |reports| - 1;
      AfterReport(AfterReports(stored, base, reports[..n], patch), base, reports[n], patch(n))
  }

  /** The last reason that differs from the phase at the start. */
  function LastDiffering(reports: seq<Report>, phase: string): string {
    if |reports| == 0 then phase
    else if reports[|reports| - 1].reason != phase then reports[|reports| - 1].reason
    else LastDiffering(reports[..|reports| - 1], phase)
  }

  /** The phase a run leaves, when it starts from what is stored and no report is ignored or lost. */
  lemma {:induction false} StoredPhase(base: Status, reports: seq<Report>, patch: nat -> Outcome)
    requires base.phase == "VmiReady" ==> forall i :: 0 <= i < |reports| ==>
      reports[i].reason == "VmiReady" || reports[i].warning || reports[i].reason == "VmiOff"
    requires forall i: nat :: i < |reports| ==> patch(i).Done?
    ensures AfterReports(base, base, reports, patch).phase == LastDiffering(reports, base.phase)
  {
    if |reports| > 0 {
      StoredPhase(base, reports[..|reports| - 1], patch);
    }
  }

  lemma {:induction false} LastDifferingIs(reports: seq<Report>, phase: string)
    ensures LastDiffering(reports, phase) == phase <==>
            forall i :: 0 <= i < |reports| ==> reports[i].reason == phase
  {
    if |reports| > 0 {
      var n := |reports| - 1;
      LastDifferingIs(reports[..n], phase);
      if reports[n].reason == phase && forall i :: 0 <= i < n ==> reports[..n][i].reason == phase {
        assert forall i :: 0 <= i < n ==> reports[i] == reports[..n][i];
      }
      if forall i :: 0 <= i < |reports| ==> reports[i].reason == phase {
        assert forall i :: 0 <= i < n ==> reports[..n][i] == reports[i];
      }
    }
  }

  /** The last report of such a run is the one stored, exactly when it differs from the phase at the
      start or nothing else was reported before it. */
  lemma {:induction false} LastReportStored(base: Status, reports: seq<Report>, patch: nat -> Outcome)
    requires |reports| > 0
    requires base.phase == "VmiReady" ==> forall i :: 0 <= i < |reports| ==>
      reports[i].reason == "VmiReady" || reports[i].warning || reports[i].reason == "VmiOff"
    requires forall i: nat :: i < |reports| ==> patch(i).Done?
    ensures
      var last := reports[|reports| - 1].reason;
      AfterReports(base, base, reports, patch).phase == last <==>
      last != base.phase || forall i :: 0 <= i < |reports| ==> reports[i].reason == base.phase
  {
    StoredPhase(base, reports, patch);
    LastDifferingIs(reports, base.phase);
  }

  /** A run begun in VmiReady ends with VmiReady stored, exactly when no report that passes the
      gate with another reason is written: a failure, or a machine turned off. */
  lemma {:induction false} ReadyKept(base: Status, reports: seq<Report>, patch: nat -> Outcome)
    requires base.phase == READY
    ensures AfterReports(base, base, reports, patch).phase == READY <==>
            forall i: nat :: i < |reports| && patch(i).Effective() ==>
              reports[i].reason == READY || (!reports[i].warning && reports[i].reason != OFF)
  {
    if |reports| > 0 {
      var n := |reports| - 1;
      ReadyKept(base, reports[..n], patch);
      assert forall i: nat :: i < n ==> reports[..n][i] == reports[i];
    }
  }

  // ----- getVmiStatus -----

  /** The phases that successful reads showed. */
  function Phases(obs: seq<Observation>): seq<string> {
    if |obs| == 0 then []
    else (if obs[0].Seen? then [obs[0].phase] else []) + Phases(obs[1..])
  }

  /** The list without the elements that repeat the one before. */
  function Changes(prev: string, phases: seq<string>): seq<string>
    decreases |phases|
  {
    if |phases| == 0 then []
    else (if phases[0] == prev then [] else [phases[0]]) + Changes(phases[0], phases[1..])
  }

  /** The list up to and with its first Running or Failed. */
  function UpToEnd(phases: seq<string>): seq<string> {
    if |phases| == 0 then []
    else if phases[0] == RUNNING || phases[0] == FAILED then [phases[0]]
    else [phases[0]] + UpToEnd(phases[1..])
  }

  /** The address known after the observations: the first one of the latest reported change that had any. */
  function Address(prev: string, ip: string, obs: seq<Observation>): string
    decreases |obs|
  {
    if |obs| == 0 then ip
    else if obs[0].GetFailed? || obs[0].phase == prev then Address(prev, ip, obs[1..])
    else
      var ip' := if |obs[0].ips| > 0 then obs[0].ips[0] else ip;
      if obs[0].phase == RUNNING || obs[0].phase == FAILED then ip' else Address(obs[0].phase, ip', obs[1..])
  }

  /** The calls of setInstanceStatus that the loop makes from a phase and an address on. */
  function LoopReports(prev: string, ip: string, obs: seq<Observation>, url: string): seq<Report>
    decreases |obs|
  {
    if |obs| == 0 then []
    else if obs[0].GetFailed? || obs[0].phase == prev then LoopReports(prev, ip, obs[1..], url)
    else
      var ip' := if |obs[0].ips| > 0 then obs[0].ips[0] else ip;
      if obs[0].phase == FAILED then [Report(true, "Vmi" + FAILED, "", "")]
      else if obs[0].phase == RUNNING then [Report(false, "Vmi" + RUNNING, ip', url)]
      else [Report(false, "Vmi" + obs[0].phase, ip', url)] + LoopReports(obs[0].phase, ip', obs[1..], url)
  }

  function Reasons(reports: seq<Report>): seq<string> {
    seq(|reports|, i requires 0 <= i < |reports| => reports[i].reason)
  }

  function Prefixed(phases: seq<string>): seq<string> {
    seq(|phases|, i requires 0 <= i < |phases| => "Vmi" + phases[i])
  }

  /** The loop reports exactly the phases seen, without repeats of the previous one, up to the first
      Running or Failed; only Failed is a warning. */
  lemma {:induction false} LoopReportsChanges(prev: string, ip: string, obs: seq<Observation>, url: string)
    ensures Reasons(LoopReports(prev, ip, obs, url)) == Prefixed(UpToEnd(Changes(prev, Phases(obs))))
    ensures forall r :: r in LoopReports(prev, ip, obs, url) ==> (r.warning <==> r.reason == "Vmi" + FAILED)
    decreases |obs|
  {
    if |obs| > 0 {
      var rest := obs[1..];
      if obs[0].GetFailed? {
        LoopReportsChanges(prev, ip, rest, url);
        assert Phases(obs) == Phases(rest);
      } else {
        var phase := obs[0].phase;
        var phases := Phases(obs);
        assert phases[0] == phase && phases[1..] == Phases(rest);
        if phase == prev {
          LoopReportsChanges(prev, ip, rest, url);
          assert Changes(prev, phases) == Changes(prev, Phases(rest));
        } else {
          var ip' := if |obs[0].ips| > 0 then obs[0].ips[0] else ip;
          LoopReportsChanges(phase, ip', rest, url);
          var later := Changes(phase, Phases(rest));
          assert Changes(prev, phases) == [phase] + later;
          assert ([phase] + later)[1..] == later;
          PrefixedReasons(phase, later);
        }
      }
    }
  }

  lemma PrefixedReasons(phase: string, later: seq<string>)
    ensures Prefixed([phase]) == ["Vmi" + phase]
    ensures Prefixed([phase] + UpToEnd(later)) == ["Vmi" + phase] + Prefixed(UpToEnd(later))
    ensures phase != FAILED ==> "Vmi" + phase != "Vmi" + FAILED
  {
    assert ("Vmi" + phase)[3..] == phase && ("Vmi" + FAILED)[3..] == FAILED;
  }

  /** The observations that are reported: the changes, up to the first Running or Failed. */
  function Reported(prev: string, obs: seq<Observation>): (seen: seq<Observation>)
    ensures forall o :: o in seen ==> o in obs && o.Seen?
    decreases |obs|
  {
    if |obs| == 0 then []
    else if obs[0].GetFailed? || obs[0].phase == prev then Reported(prev, obs[1..])
    else if obs[0].phase == "Running" || obs[0].phase == "Failed" then [obs[0]]
    else [obs[0]] + Reported(obs[0].phase, obs[1..])
  }

  /** The address known with observation `i`: its own first one, else the one known before. */
  function Known(ip: string, seen: seq<Observation>, i: nat): string
    requires i < |seen| && forall o :: o in seen ==> o.Seen?
  {
    if |seen[i].ips| > 0 then seen[i].ips[0] else if i == 0 then ip else Known(ip, seen, i - 1)
  }

  lemma {:induction false} KnownShift(ip: string, o: Observation, rest: seq<Observation>, i: nat)
    requires o.Seen? && i < |rest| && forall p :: p in rest ==> p.Seen?
    ensures Known(ip, [o] + rest, i + 1) == Known(if |o.ips| > 0 then o.ips[0] else ip, rest, i)
  {
    var all := [o] + rest;
    assert all[i + 1] == rest[i];
    if i > 0 {
      KnownShift(ip, o, rest, i - 1);
    }
  }

  /** Every report in full: its reason, the address known with it, and the address of the web page; a
      failure carries neither. */
  lemma {:induction false} ReportsInWords(prev: string, ip: string, obs: seq<Observation>, url: string, i: nat)
    requires i < |Reported(prev, obs)|
    ensures |LoopReports(prev, ip, obs, url)| == |Reported(prev, obs)|
    ensures LoopReports(prev, ip, obs, url)[i] ==
      var o := Reported(prev, obs)[i];
      if o.phase == "Failed" then Report(true, "VmiFailed", "", "")
      else Report(false, "Vmi" + o.phase, Known(ip, Reported(prev, obs), i), url)
    decreases |obs|
  {
    var rest := obs[1..];
    if obs[0].GetFailed? || obs[0].phase == prev {
      ReportsInWords(prev, ip, rest, url, i);
    } else {
      var o, ip' := obs[0], if |obs[0].ips| > 0 then obs[0].ips[0] else ip;
      assert "Vmi" + FAILED == "VmiFailed";
      if o.phase != RUNNING && o.phase != FAILED {
        var later := Reported(o.phase, rest);
        ReportsCount(o.phase, ip', rest, url);
        if i > 0 {
          ReportsInWords(o.phase, ip', rest, url, i - 1);
          KnownShift(ip, o, later, i - 1);
        }
      }
    }
  }

  lemma {:induction false} ReportsCount(prev: string, ip: string, obs: seq<Observation>, url: string)
    ensures |LoopReports(prev, ip, obs, url)| == |Reported(prev, obs)|
    decreases |obs|
  {
    if |obs| > 0 {
      var rest := obs[1..];
      if obs[0].GetFailed? || obs[0].phase == prev {
        ReportsCount(prev, ip, rest, url);
      } else {
        ReportsCount(obs[0].phase, if |obs[0].ips| > 0 then obs[0].ips[0] else ip, rest, url);
      }
    }
  }

  /** The address that the final VmiReady carries is the one known with the last report. */
  lemma {:induction false} AddressInWords(prev: string, ip: string, obs: seq<Observation>)
    ensures
      var seen := Reported(prev, obs);
      Address(prev, ip, obs) == if |seen| == 0 then ip else Known(ip, seen, |seen| - 1)
    decreases |obs|
  {
    if |obs| > 0 {
      var rest := obs[1..];
      if obs[0].GetFailed? || obs[0].phase == prev {
        AddressInWords(prev, ip, rest);
      } else if obs[0].phase != RUNNING && obs[0].phase != FAILED {
        var o, ip' := obs[0], if |obs[0].ips| > 0 then obs[0].ips[0] else ip;
        AddressInWords(o.phase, ip', rest);
        var later := Reported(o.phase, rest);
        if |later| > 0 {
          KnownShift(ip, o, later, |later| - 1);
        }
      }
    }
  }

  /** The first Running or Failed among the phases is the given one, at position `i`. */
  predicate EndsAt(phases: seq<string>, i: nat, end: string) {
    i < |phases| && phases[i] == end && forall j :: 0 <= j < i ==> phases[j] != "Running" && phases[j] != "Failed"
  }

  /** The first Running or Failed among the phases is the given one. */
  ghost predicate Ends(phases: seq<string>, end: string) {
    exists i: nat :: EndsAt(phases, i, end)
  }

  lemma {:induction false} EndInWords(prev: string, phases: seq<string>, end: string)
    requires prev != "Running" && prev != "Failed" && (end == "Running" || end == "Failed")
    ensures end in UpToEnd(Changes(prev, phases)) <==> Ends(phases, end)
    decreases |phases|
  {
    if |phases| > 0 {
      var rest := phases[1..];
      var later := Changes(phases[0], rest);
      assert phases[0] != prev ==> ([phases[0]] + later)[1..] == later && Changes(prev, phases) == [phases[0]] + later;
      assert phases[0] == prev ==> Changes(prev, phases) == later;
      if phases[0] == "Running" || phases[0] == "Failed" {
        assert EndsAt(phases, 0, phases[0]);
      } else {
        EndInWords(phases[0], rest, end);
        if i: nat :| EndsAt(phases, i, end) {
          assert rest[i - 1] == phases[i] && forall j :: 0 <= j < i - 1 ==> rest[j] == phases[j + 1];
          assert EndsAt(rest, i - 1, end);
        }
        if i: nat :| EndsAt(rest, i, end) {
          assert forall j :: 0 < j < i + 1 ==> phases[j] == rest[j - 1];
          assert EndsAt(phases, i + 1, end);
        }
      }
    }
  }

  /** How the polling loop ends on the observations: with Running, with Failed, or not yet. */
  function LoopEnd(prev: string, obs: seq<Observation>): Option<string>
    decreases |obs|
  {
    if |obs| == 0 then None
    else if obs[0].GetFailed? || obs[0].phase == prev then LoopEnd(prev, obs[1..])
    else if obs[0].phase == RUNNING || obs[0].phase == FAILED then Some(obs[0].phase)
    else LoopEnd(obs[0].phase, obs[1..])
  }

  lemma {:induction false} LoopEndPhases(prev: string, obs: seq<Observation>)
    ensures
      var phases := UpToEnd(Changes(prev, Phases(obs)));
      && (LoopEnd(prev, obs) == Some(RUNNING) <==> RUNNING in phases)
      && (LoopEnd(prev, obs) == Some(FAILED) <==> FAILED in phases)
      && (LoopEnd(prev, obs) == None <==> RUNNING !in phases && FAILED !in phases)
    decreases |obs|
  {
    if |obs| > 0 {
      var rest := obs[1..];
      if obs[0].GetFailed? {
        LoopEndPhases(prev, rest);
        assert Phases(obs) == Phases(rest);
      } else {
        var phase, phases := obs[0].phase, Phases(obs);
        assert phases[0] == phase && phases[1..] == Phases(rest);
        LoopEndPhases(phase, rest);
        var later := Changes(phase, Phases(rest));
        assert phase == prev ==> Changes(prev, phases) == later;
        assert phase != prev ==> Changes(prev, phases) == [phase] + later;
        assert ([phase] + later)[1..] == later;
      }
    }
  }

  /** One of the tries connects. */
  ghost predicate Connects(dial: nat -> bool) {
    exists i: nat :: i < MAX_RETRIES && dial(i)
  }

  /** waitForConnection: at most 120 tries. */
  method WaitForConnection(dial: nat -> bool) returns (ok: bool)
    ensures ok <==> exists i: nat :: i < 120 && dial(i)
  {
    for retries := 0 to MAX_RETRIES
      invariant forall i: nat :: i < retries ==> !dial(i)
    {
      if dial(retries) {
        return true;
      }
    }
    ok := false;
  }

  /** What one more poll adds. */
  lemma LoopUnfold(prev: string, ip: string, obs: seq<Observation>, i: nat, url: string)
    requires i < |obs|
    ensures
      var o, rest := obs[i], obs[i + 1..];
      if o.GetFailed? || o.phase == prev then
        && LoopReports(prev, ip, obs[i..], url) == LoopReports(prev, ip, rest, url)
        && Address(prev, ip, obs[i..]) == Address(prev, ip, rest)
        && LoopEnd(prev, obs[i..]) == LoopEnd(prev, rest)
      else
        var ip' := if |o.ips| > 0 then o.ips[0] else ip;
        if o.phase == FAILED || o.phase == RUNNING then
          && LoopReports(prev, ip, obs[i..], url) ==
             [if o.phase == FAILED then Report(true, "Vmi" + FAILED, "", "")
              else Report(false, "Vmi" + RUNNING, ip', url)]
          && Address(prev, ip, obs[i..]) == ip'
          && LoopEnd(prev, obs[i..]) == Some(o.phase)
        else
          && LoopReports(prev, ip, obs[i..], url) ==
             [Report(false, "Vmi" + o.phase, ip', url)] + LoopReports(o.phase, ip', rest, url)
          && Address(prev, ip, obs[i..]) == Address(o.phase, ip', rest)
          && LoopEnd(prev, obs[i..]) == LoopEnd(o.phase, rest)
  {
  }

  /** The reports made so far and those still to come are the reports of the whole loop. */
  ghost predicate OnTrack(made: seq<Report>, prev: string, ip: string, obs: seq<Observation>, i: nat, url: string)
    requires i <= |obs|
  {
    && made + LoopReports(prev, ip, obs[i..], url) == LoopReports("", "", obs, url)
    && Address(prev, ip, obs[i..]) == Address("", "", obs)
    && LoopEnd(prev, obs[i..]) == LoopEnd("", obs)
  }

  lemma PollSkip(made: seq<Report>, prev: string, ip: string, obs: seq<Observation>, i: nat, url: string)
    requires i < |obs| && OnTrack(made, prev, ip, obs, i, url)
    requires obs[i].GetFailed? || obs[i].phase == prev
    ensures OnTrack(made, prev, ip, obs, i + 1, url)
  {
    LoopUnfold(prev, ip, obs, i, url);
  }

  lemma PollReport(made: seq<Report>, prev: string, ip: string, obs: seq<Observation>, i: nat, url: string)
    requires i < |obs| && OnTrack(made, prev, ip, obs, i, url)
    requires obs[i].Seen? && obs[i].phase != prev
    ensures
      var o := obs[i];
      var ip' := if |o.ips| > 0 then o.ips[0] else ip;
      var r := if o.phase == FAILED then Report(true, "Vmi" + FAILED, "", "")
               else Report(false, "Vmi" + o.phase, ip', url);
      if o.phase == FAILED || o.phase == RUNNING then
        && LoopReports("", "", obs, url) == made + [r]
        && Address("", "", obs) == ip' && LoopEnd("", obs) == Some(o.phase)
      else OnTrack(made + [r], o.phase, ip', obs, i + 1, url)
  {
    LoopUnfold(prev, ip, obs, i, url);
    var o := obs[i];
    var ip' := if |o.ips| > 0 then o.ips[0] else ip;
    Assoc(made, [Report(false, "Vmi" + o.phase, ip', url)], LoopReports(o.phase, ip', obs[i + 1..], url));
  }

  /** How the poller stands after the observations it was given. */
  datatype End = StillPolling | VmFailed | Unreachable | VmReady

  class Instance {
    /** The status as it was when the reconcile read the instance; never refreshed. */
    const base: Status
    var stored: Status
    /** The calls of setInstanceStatus so far, and the fate of the patch of each. */
    ghost var reports: seq<Report>

    constructor (read: Status)
      ensures base == read && stored == read && reports == []
    {
      base, stored, reports := read, read, [];
    }

    ghost predicate Valid(patch: nat -> Outcome)
      reads this
    {
      stored == AfterReports(base, base, reports, patch)
    }

    method SetInstanceStatus(r: Report, outcome: Outcome, ghost patch: nat -> Outcome)
      requires Valid(patch) && outcome == patch(|reports|)
      modifies this
      ensures Valid(patch) && reports == old(reports) + [r]
    {
      reports := reports + [r];
      assert reports[..|reports| - 1] == old(reports);
      if base.phase == READY && r.reason != READY && !r.warning && r.reason != OFF {
        return;
      }
      if outcome.Effective() {
        stored := Status(if r.ip != base.ip then r.ip else stored.ip,
                         if r.reason != base.phase then r.reason else stored.phase,
                         if r.url != base.url then r.url else stored.url);
      }
    }

    /** The polling loop of getVmiStatus, after any reports made before it. */
    method Poll(obs: seq<Observation>, url: string, patch: nat -> Outcome, start: nat)
      returns (end: Option<string>, ip: string, calls: nat)
      requires Valid(patch) && start == |reports|
      modifies this
      ensures Valid(patch) && calls == |reports|
      ensures reports == old(reports) + LoopReports("", "", obs, url)
      ensures end == LoopEnd("", obs) && ip == Address("", "", obs)
    {
      var vmStatus, i := "", 0;
      ip, calls := "", start;
      ghost var before, made := reports, [];
      assert obs[0..] == obs;
      while i < |obs|
        invariant 0 <= i <= |obs| && calls == |reports|
        invariant Valid(patch)
        invariant reports == before + made
        invariant OnTrack(made, vmStatus, ip, obs, i, url)
      {
        var o := obs[i];
        if o.Seen? && vmStatus != o.phase {
          PollReport(made, vmStatus, ip, obs, i, url);
          vmStatus := o.phase;
          if |o.ips| > 0 {
            ip := o.ips[0];
          }
          if vmStatus == FAILED {
            AddReport(before, made, Report(true, "Vmi" + vmStatus, "", ""), patch(calls), patch);
            return Some(FAILED), ip, calls + 1;
          }
          var r := Report(false, "Vmi" + vmStatus, ip, url);
          AddReport(before, made, r, patch(calls), patch);
          made := made + [r];
          calls := calls + 1;
          if vmStatus == RUNNING {
            return Some(RUNNING), ip, calls;
          }
        } else {
          PollSkip(made, vmStatus, ip, obs, i, url);
        }
        i := i + 1;
      }
      assert obs[i..] == [] && made + [] == made;
      end := None;
    }

    /** One report of the loop, after those made before it. */
    method AddReport(ghost before: seq<Report>, ghost made: seq<Report>, r: Report, outcome: Outcome,
                     ghost patch: nat -> Outcome)
      requires Valid(patch) && outcome == patch(|reports|) && reports == before + made
      modifies this
      ensures Valid(patch) && reports == before + (made + [r]) && |reports| == |old(reports)| + 1
    {
      SetInstanceStatus(r, outcome, patch);
      Assoc(before, made, [r]);
    }

    /** getVmiStatus on the observations that its polls make, after any reports made before it. */
    method GetVmiStatus(obs: seq<Observation>, url: string, dial: nat -> bool, patch: nat -> Outcome, start: nat)
      returns (end: End)
      requires Valid(patch) && start == |reports|
      modifies this
      ensures Valid(patch)
      ensures end == PollEnd(obs, dial)
      ensures end == VmReady ==>
        |reports| > 0 && reports[|reports| - 1] == Report(false, "VmiReady", Address("", "", obs), url)
      ensures reports == old(reports) + PollReports(obs, url, dial)
    {
      var phase, ip, calls := Poll(obs, url, patch, start);
      LoopEndPhases("", obs);
      if phase == None {
        return StillPolling;
      }
      if phase == Some(FAILED) {
        return VmFailed;
      }
      var ok := WaitForConnection(dial);
      if !ok {
        return Unreachable;
      }
      SetInstanceStatus(Report(false, READY, ip, url), patch(calls), patch);
      end := VmReady;
    }

    /** CreateVMEnvironment up to the machine, as far as it reports. */
    method SetUp(u: Setup, patch: nat -> Outcome, start: nat) returns (calls: nat)
      requires Valid(patch) && start == |reports|
      modifies this
      ensures Valid(patch) && calls == |reports|
      ensures reports == old(reports) + SetupReports(u)
    {
      calls := start;
      if u.volumeFails {
        return;
      }
      if u.importing {
        SetInstanceStatus(Report(false, "Importing", "", ""), patch(calls), patch);
        return calls + 1;
      }
      if u.secretFails {
        SetInstanceStatus(Report(true, "SecretNotCreated", "", ""), patch(calls), patch);
        calls := calls + 1;
      }
      var warning, reason := true, "";
      if u.serviceFails {
        reason := "ServiceNotCreated";
      } else if u.ingressFails {
        reason := "IngressNotCreated";
      } else if u.vmFails {
        reason := "VmiNotCreated";
      } else {
        warning, reason := false, if u.off then OFF else "VmiCreated";
      }
      SetInstanceStatus(Report(warning, reason, "", ""), patch(calls), patch);
      calls := calls + 1;
    }

    /** CreateVMEnvironment and the poller it starts, on the same instance object. */
    method CreateVmEnvironment(u: Setup, obs: seq<Observation>, url: string, dial: nat -> bool,
                               patch: nat -> Outcome, start: nat)
      requires Valid(patch) && start == |reports|
      modifies this
      ensures Valid(patch)
      ensures reports == old(reports) + RunReports(u, obs, url, dial)
    {
      var calls := SetUp(u, patch, start);
      ghost var poll: seq<Report> := [];
      if u.ReachesMachine() && !u.off {
        poll := PollReports(obs, url, dial);
        var _ := GetVmiStatus(obs, url, dial, patch, calls);
      }
      Assoc(old(reports), SetupReports(u), poll);
    }
  }

  lemma Assoc(a: seq<Report>, b: seq<Report>, c: seq<Report>)
    ensures (a + b) + c == a + (b + c) && (c == [] ==> (a + b) + c == a + b)
  {
  }

  /** The fate of the steps of CreateVMEnvironment, and whether the machine is to be off. */
  datatype Setup = Setup(volumeFails: bool, importing: bool, secretFails: bool, serviceFails: bool,
                         ingressFails: bool, vmFails: bool, off: bool) {
    /** The machine was created or updated. */
    predicate ReachesMachine() {
      !volumeFails && !importing && !serviceFails && !ingressFails && !vmFails
    }
  }

  /** The reports made before the poller starts. */
  function SetupReports(u: Setup): seq<Report> {
    if u.volumeFails then []
    else if u.importing then [Report(false, "Importing", "", "")]
    else
      (if u.secretFails then [Report(true, "SecretNotCreated", "", "")] else [])
      + [if u.serviceFails then Report(true, "ServiceNotCreated", "", "")
         else if u.ingressFails then Report(true, "IngressNotCreated", "", "")
         else if u.vmFails then Report(true, "VmiNotCreated", "", "")
         else Report(false, if u.off then OFF else "VmiCreated", "", "")]
  }

  /** How the poller ends: ready exactly after Running, when one of 120 tries connects. */
  ghost function PollEnd(obs: seq<Observation>, dial: nat -> bool): End {
    var phases := UpToEnd(Changes("", Phases(obs)));
    if FAILED in phases then VmFailed
    else if RUNNING !in phases then StillPolling
    else if Connects(dial) then VmReady
    else Unreachable
  }

  ghost function PollReports(obs: seq<Observation>, url: string, dial: nat -> bool): seq<Report> {
    LoopReports("", "", obs, url) +
    if PollEnd(obs, dial) == VmReady then [Report(false, READY, Address("", "", obs), url)] else []
  }

  /** All reports of one run of CreateVMEnvironment and its poller. */
  ghost function RunReports(u: Setup, obs: seq<Observation>, url: string, dial: nat -> bool): seq<Report> {
    SetupReports(u) + if u.ReachesMachine() && !u.off then PollReports(obs, url, dial) else []
  }

  /** How the poller ends, from the phases seen and the tries to connect. */
  lemma PollEndInWords(obs: seq<Observation>, dial: nat -> bool)
    ensures PollEnd(obs, dial) == VmReady <==>
      Ends(Phases(obs), "Running") && Connects(dial)
    ensures PollEnd(obs, dial) == VmFailed <==> Ends(Phases(obs), "Failed")
    ensures PollEnd(obs, dial) == StillPolling <==> "Running" !in Phases(obs) && "Failed" !in Phases(obs)
  {
    var phases := Phases(obs);
    EndInWords("", phases, "Running");
    EndInWords("", phases, "Failed");
    OneEnd(phases);
    SomeEnd(phases);
    var seen := UpToEnd(Changes("", phases));
    assert (RUNNING in seen <==> "Running" in seen) && (FAILED in seen <==> "Failed" in seen);
    assert "Failed" in seen ==> "Running" !in seen;
  }

  lemma OneEnd(phases: seq<string>)
    ensures !(Ends(phases, "Running") && Ends(phases, "Failed"))
  {
    if i: nat, j: nat :| EndsAt(phases, i, "Running") && EndsAt(phases, j, "Failed") {
      assert false;
    }
  }

  lemma {:induction false} SomeEnd(phases: seq<string>)
    ensures "Running" in phases || "Failed" in phases <==> Ends(phases, "Running") || Ends(phases, "Failed")
  {
    if |phases| > 0 && ("Running" in phases || "Failed" in phases) {
      if phases[0] == "Running" || phases[0] == "Failed" {
        assert EndsAt(phases, 0, phases[0]);
      } else {
        var rest := phases[1..];
        assert phases == [phases[0]] + rest;
        SomeEnd(rest);
        var end := if Ends(rest, "Running") then "Running" else "Failed";
        var i: nat :| EndsAt(rest, i, end);
        assert forall j :: 0 < j < i + 1 ==> phases[j] == rest[j - 1];
        assert EndsAt(phases, i + 1, end);
      }
    }
  }

  /** The reports of a whole run: the steps, then the poller's if every step led to a machine that is to
      run, and at its end VmiReady if the machine answered. */
  lemma RunInWords(u: Setup, obs: seq<Observation>, url: string, dial: nat -> bool)
    ensures RunReports(u, obs, url, dial) ==
      if u.volumeFails || u.importing || u.serviceFails || u.ingressFails || u.vmFails || u.off then SetupReports(u)
      else if PollEnd(obs, dial) == VmReady then
        SetupReports(u) + (LoopReports("", "", obs, url) + [Report(false, "VmiReady", Address("", "", obs), url)])
      else SetupReports(u) + LoopReports("", "", obs, url)
  {
    assert LoopReports("", "", obs, url) + [] == LoopReports("", "", obs, url);
    assert SetupReports(u) + [] == SetupReports(u);
  }

  /** The reports before the poller, step by step. */
  lemma SetupInWords(u: Setup)
    ensures
      var reports := SetupReports(u);
      if u.volumeFails then reports == []
      else if u.importing then reports == [Report(false, "Importing", "", "")]
      else
        && |reports| == (if u.secretFails then 2 else 1)
        && (u.secretFails ==> reports[0] == Report(true, "SecretNotCreated", "", ""))
        && var last := reports[|reports| - 1];
           && last.ip == "" && last.url == "" && (last.warning <==> u.serviceFails || u.ingressFails || u.vmFails)
           && (last.reason == "ServiceNotCreated" <==> u.serviceFails)
           && (last.reason == "IngressNotCreated" <==> !u.serviceFails && u.ingressFails)
           && (last.reason == "VmiNotCreated" <==> !u.serviceFails && !u.ingressFails && u.vmFails)
           && (last.reason == "VmiOff" <==> !last.warning && u.off)
           && (last.reason == "VmiCreated" <==> !last.warning && !u.off)
  {
    assert "ServiceNotCreated"[0] == 'S' && "IngressNotCreated"[0] == 'I';
    assert "VmiNotCreated"[3] == 'N' && OFF[3] == 'O' && "VmiCreated"[3] == 'C';
    assert OFF[0] == 'V' && "VmiCreated"[0] == 'V';
    assert "VmiNotCreated"[0] == 'V';
  }

  /** The reports that pass the gate of a ready instance and change its phase. */
  predicate Passes(r: Report) {
    r.reason != READY && (r.warning || r.reason == OFF)
  }

  /** A step before the poller reports a failure, or the machine is turned off. */
  predicate Disturbs(u: Setup) {
    !u.volumeFails && !u.importing && (u.secretFails || u.serviceFails || u.ingressFails || u.vmFails || u.off)
  }

  lemma SetupPasses(u: Setup)
    ensures (exists r :: r in SetupReports(u) && Passes(r)) <==> Disturbs(u)
  {
    var reports := SetupReports(u);
    if Disturbs(u) {
      assert reports[0] in reports && Passes(reports[0]);
    }
  }

  /** With no phase called Off, the poller disturbs a ready instance exactly when the machine failed. */
  lemma PollPasses(obs: seq<Observation>, url: string, dial: nat -> bool)
    requires "Off" !in Phases(obs)
    ensures (exists r :: r in PollReports(obs, url, dial) && Passes(r)) <==> PollEnd(obs, dial) == VmFailed
  {
    var loop, all := LoopReports("", "", obs, url), PollReports(obs, url, dial);
    var phases := UpToEnd(Changes("", Phases(obs)));
    LoopReportsChanges("", "", obs, url);
    UpToEndIn(Changes("", Phases(obs)));
    ChangesIn("", Phases(obs));
    forall i | 0 <= i < |loop| ensures Passes(loop[i]) <==> phases[i] == FAILED {
      assert loop[i] in loop;
      assert loop[i].reason == Reasons(loop)[i] == Prefixed(phases)[i] == "Vmi" + phases[i];
      assert phases[i] in phases;
      VmiReason(phases[i]);
    }
    forall r | r in all && Passes(r) ensures FAILED in phases {
      var i :| 0 <= i < |all| && all[i] == r;
      assert phases[i] in phases;
    }
    if FAILED in phases {
      var i :| 0 <= i < |phases| && phases[i] == FAILED;
      assert |Reasons(loop)| == |Prefixed(phases)|;
      assert all[i] == loop[i] && loop[i] in all;
    }
  }

  lemma VmiReason(phase: string)
    requires phase != "Off"
    ensures "Vmi" + phase != OFF && ("Vmi" + phase == "Vmi" + FAILED <==> phase == FAILED)
    ensures "Vmi" + FAILED != READY
  {
    assert ("Vmi" + phase)[3..] == phase && OFF[3..] == "Off" && ("Vmi" + FAILED)[3..] == FAILED;
    assert ("Vmi" + FAILED)[3] == 'F' && READY[3] == 'R';
  }

  /** A whole run begun in VmiReady, with no phase called Off and every patch written, leaves VmiReady
      stored if and only if no step before the poller disturbed it and the machine was not seen to fail. */
  lemma ReadySurvivesRun(base: Status, u: Setup, obs: seq<Observation>, url: string, dial: nat -> bool,
                         patch: nat -> Outcome)
    requires base.phase == READY && "Off" !in Phases(obs)
    requires forall i: nat :: patch(i).Effective()
    ensures AfterReports(base, base, RunReports(u, obs, url, dial), patch).phase == READY <==>
            !Disturbs(u) && !(u.ReachesMachine() && PollEnd(obs, dial) == VmFailed)
  {
    var setup, run := SetupReports(u), RunReports(u, obs, url, dial);
    ReadyKept(base, run, patch);
    SetupPasses(u);
    PollPasses(obs, url, dial);
    var rest := if u.ReachesMachine() && !u.off then PollReports(obs, url, dial) else [];
    assert run == setup + rest;
    PassesEither(setup, rest);
    assert (forall i: nat :: i < |run| && patch(i).Effective() ==>
              run[i].reason == READY || (!run[i].warning && run[i].reason != OFF)) <==>
           !exists r :: r in run && Passes(r) by {
      NonePasses(run);
      assert forall i: nat :: i < |run| ==> patch(i).Effective();
    }
  }

  lemma PassesEither(a: seq<Report>, b: seq<Report>)
    ensures (exists r :: r in a + b && Passes(r)) <==>
            (exists r :: r in a && Passes(r)) || (exists r :: r in b && Passes(r))
  {
    assert forall r :: r in a + b <==> r in a || r in b;
  }

  lemma NonePasses(run: seq<Report>)
    ensures (forall i: nat :: i < |run| ==> run[i].reason == READY || (!run[i].warning && run[i].reason != OFF)) <==>
            !exists r :: r in run && Passes(r)
  {
    if !exists r :: r in run && Passes(r) {
      forall i: nat | i < |run| ensures !Passes(run[i]) {
        assert run[i] in run;
      }
    }
  }

  /** A whole run that ends by reporting VmiReady, with every patch done, leaves it stored if and only
      if the instance was not ready when it was read or its secret was created. */
  lemma ReadyStored(base: Status, u: Setup, obs: seq<Observation>, url: string, dial: nat -> bool,
                    patch: nat -> Outcome)
    requires "Off" !in Phases(obs) && u.ReachesMachine() && !u.off && PollEnd(obs, dial) == VmReady
    requires forall i: nat :: patch(i).Done?
    ensures AfterReports(base, base, RunReports(u, obs, url, dial), patch).phase == READY <==>
            base.phase != READY || !u.secretFails
  {
    var run := RunReports(u, obs, url, dial);
    if base.phase == READY {
      ReadySurvivesRun(base, u, obs, url, dial, patch);
    } else {
      assert run[|run| - 1].reason == READY;
      LastReportStored(base, run, patch);
    }
  }

  const PLAIN_SETUP := Setup(false, false, false, false, false, false, false)
  const RUNNING_ONCE := [Seen(RUNNING, [])]

  lemma RunningOnce(dial: nat -> bool)
    requires forall i: nat :: !dial(i)
    ensures RunReports(PLAIN_SETUP, RUNNING_ONCE, "", dial) ==
            [Report(false, "VmiCreated", "", ""), Report(false, "Vmi" + RUNNING, "", "")]
  {
    assert LoopReports("", "", RUNNING_ONCE, "") == [Report(false, "Vmi" + RUNNING, "", "")];
  }

  /** A run on an instance first read as running, whose machine runs but does not answer yet, leaves
      the phase "created": its last report is lost. */
  lemma StaleBaseExample(dial: nat -> bool, patch: nat -> Outcome)
    requires (forall i: nat :: !dial(i)) && (forall i: nat :: patch(i).Done?)
    ensures
      var base := Status("", "Vmi" + RUNNING, "");
      var run := RunReports(PLAIN_SETUP, RUNNING_ONCE, "", dial);
      |run| == 2 && run[1].reason == "Vmi" + RUNNING && AfterReports(base, base, run, patch).phase == "VmiCreated"
  {
    var base := Status("", "Vmi" + RUNNING, "");
    var run := RunReports(PLAIN_SETUP, RUNNING_ONCE, "", dial);
    RunningOnce(dial);
    assert ("Vmi" + RUNNING)[3] == 'R' && READY[4] == 'e' && ("Vmi" + RUNNING)[4] == 'u';
    StoredPhase(base, run, patch);
    assert run[..1] == [run[0]] && "VmiCreated"[3] == 'C';
  }

  // ----- Pollers that outlive their reconcile -----

  /** One call of setInstanceStatus among those of several runs, each with the status it first read. */
  datatype Write = Write(base: Status, report: Report, patch: Outcome) {
    /** The call passes the gate and is written. */
    predicate Passes() {
      patch != FailedBefore &&
      (base.phase != "VmiReady" || report.reason == "VmiReady" || report.warning || report.reason == "VmiOff")
    }

    /** The call changes the stored phase, whatever is stored. */
    predicate SetsPhase() {
      Passes() && report.reason != base.phase
    }
  }

  function AfterWrites(stored: Status, writes: seq<Write>): Status {
    if |writes| == 0 then stored
    else
      var w := writes[|writes| - 1];
      AfterReport(AfterWrites(stored, writes[..|writes| - 1]), w.base, w.report, w.patch)
  }

  /** Call `i` is the last that sets the phase. */
  predicate LastSetter(writes: seq<Write>, i: nat) {
    i < |writes| && writes[i].SetsPhase() && forall j :: i < j < |writes| ==> !writes[j].SetsPhase()
  }

  lemma OneWrite(stored: Status, w: Write)
    ensures
      var after := AfterReport(stored, w.base, w.report, w.patch);
      && after.phase == (if w.SetsPhase() then w.report.reason else stored.phase)
      && after.ip == (if w.Passes() && w.report.ip != w.base.ip then w.report.ip else stored.ip)
      && after.url == (if w.Passes() && w.report.url != w.base.url then w.report.url else stored.url)
  {
  }

  /** However the calls of any number of runs interleave, the stored phase is the reason of the last
      call that sets one, and the phase at the start without such a call. */
  lemma {:induction false} InterleavedPhase(stored: Status, writes: seq<Write>)
    ensures (forall i :: 0 <= i < |writes| ==> !writes[i].SetsPhase()) ==>
      AfterWrites(stored, writes).phase == stored.phase
    ensures forall i: nat :: LastSetter(writes, i) ==>
      AfterWrites(stored, writes).phase == writes[i].report.reason
  {
    if |writes| > 0 {
      var n := |writes| - 1;
      InterleavedPhase(stored, writes[..n]);
      OneWrite(AfterWrites(stored, writes[..n]), writes[n]);
      forall i: nat | LastSetter(writes, i) ensures AfterWrites(stored, writes).phase == writes[i].report.reason {
        if i < n {
          assert LastSetter(writes[..n], i);
        }
      }
    }
  }

  /** The same for the address and the web page: each is the one of the last call that passes its gate, is
      written and differs from what was first read. */
  lemma {:induction false} InterleavedFields(stored: Status, writes: seq<Write>, i: nat)
    requires i < |writes| && writes[i].Passes()
    ensures writes[i].report.ip != writes[i].base.ip &&
            (forall j :: i < j < |writes| ==> !writes[j].Passes() || writes[j].report.ip == writes[j].base.ip) ==>
      AfterWrites(stored, writes).ip == writes[i].report.ip
    ensures writes[i].report.url != writes[i].base.url &&
            (forall j :: i < j < |writes| ==> !writes[j].Passes() || writes[j].report.url == writes[j].base.url) ==>
      AfterWrites(stored, writes).url == writes[i].report.url
  {
    var n := |writes| - 1;
    if i < n {
      InterleavedFields(stored, writes[..n], i);
      assert forall j :: i < j < n ==> writes[..n][j] == writes[j];
    }
  }

  lemma {:induction false} SomeLastSetter(writes: seq<Write>, i: nat) returns (k: nat)
    requires i < |writes| && writes[i].SetsPhase()
    ensures i <= k && LastSetter(writes, k)
    decreases |writes| - i
  {
    k := i;
    if j :| i < j < |writes| && writes[j].SetsPhase() {
      k := SomeLastSetter(writes, j);
    }
  }

  /** A phase that was set is still stored at the end exactly when every later call that sets another
      one is followed by a call that sets it again. */
  lemma PhaseKept(stored: Status, writes: seq<Write>, i: nat)
    requires i < |writes| && writes[i].SetsPhase()
    ensures
      var phase := writes[i].report.reason;
      AfterWrites(stored, writes).phase == phase <==>
      forall j :: i < j < |writes| && writes[j].SetsPhase() && writes[j].report.reason != phase ==>
        exists k :: j < k < |writes| && writes[k].SetsPhase() && writes[k].report.reason == phase
  {
    InterleavedPhase(stored, writes);
    var last := SomeLastSetter(writes, i);
    var phase := writes[i].report.reason;
    if writes[last].report.reason == phase {
      forall j | i < j < |writes| && writes[j].SetsPhase() && writes[j].report.reason != phase
        ensures exists k :: j < k < |writes| && writes[k].SetsPhase() && writes[k].report.reason == phase
      {
        assert j < last;
      }
    }
  }

  /** The calls of one run. */
  function Calls(base: Status, reports: seq<Report>, patch: nat -> Outcome): seq<Write> {
    seq(|reports|, i requires 0 <= i < |reports| => Write(base, reports[i], patch(i)))
  }

  /** A run alone is the special case of one status first read. */
  lemma {:induction false} RunAlone(stored: Status, base: Status, reports: seq<Report>, patch: nat -> Outcome)
    ensures AfterReports(stored, base, reports, patch) == AfterWrites(stored, Calls(base, reports, patch))
  {
    if |reports| > 0 {
      var n := |reports| - 1;
      RunAlone(stored, base, reports[..n], patch);
      assert Calls(base, reports, patch)[..n] == Calls(base, reports[..n], patch);
    }
  }

  const OFF_SETUP := PLAIN_SETUP.(off := true)

  /** Two runs, the first of which is still polling when the second reads the instance as running and
      turns it off: the late VmiReady of the first stays stored. */
  lemma LateReadyExample(dial: nat -> bool)
    requires dial(0)
    ensures
      var unread, running := Status("", "", ""), Status("", "Vmi" + RUNNING, "");
      var first, second := RunReports(PLAIN_SETUP, RUNNING_ONCE, "", dial), RunReports(OFF_SETUP, [], "", dial);
      && |first| == 3 && |second| == 1 && second[0].reason == OFF
      && var calls := [Write(unread, first[0], Done), Write(unread, first[1], Done)];
         && AfterWrites(unread, calls) == running
         && AfterWrites(unread, calls + [Write(running, second[0], Done), Write(unread, first[2], Done)]).phase == READY
  {
    var unread, running := Status("", "", ""), Status("", "Vmi" + RUNNING, "");
    var first, second := RunReports(PLAIN_SETUP, RUNNING_ONCE, "", dial), RunReports(OFF_SETUP, [], "", dial);
    assert LoopReports("", "", RUNNING_ONCE, "") == [Report(false, "Vmi" + RUNNING, "", "")];
    assert first == [Report(false, "VmiCreated", "", ""), Report(false, "Vmi" + RUNNING, "", ""),
                     Report(false, READY, "", "")];
    var calls := [Write(unread, first[0], Done), Write(unread, first[1], Done)];
    assert calls[..1] == [calls[0]];
    assert AfterWrites(unread, calls[..1]) == Status("", "VmiCreated", "");
    var all := calls + [Write(running, second[0], Done), Write(unread, first[2], Done)];
    InterleavedPhase(unread, all);
    assert LastSetter(all, 3);
  }

  lemma {:induction false} UpToEndIn(phases: seq<string>)
    ensures forall p :: p in UpToEnd(phases) ==> p in phases
  {
    if |phases| > 0 {
      UpToEndIn(phases[1..]);
    }
  }

  lemma {:induction false} ChangesIn(prev: string, phases: seq<string>)
    ensures forall p :: p in Changes(prev, phases) ==> p in phases
    decreases |phases|
  {
    if |phases| > 0 {
      ChangesIn(phases[0], phases[1..]);
    }
  }
}
