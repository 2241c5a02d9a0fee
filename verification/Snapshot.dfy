/** The snapshot controller (operators/pkg/instancesnapshot-controller): the phase of an
    InstanceSnapshot and the Job that makes the image, written by separate calls that may fail. */
module Snapshot {
  import opened Common

  datatype Phase = Unset | Pending | Processing | Completed | Failed

  datatype ConditionType = JobComplete | JobFailed | OtherCondition(name: string)
  datatype Condition = Condition(kind: ConditionType, isTrue: bool)
  datatype Job = Job(conditions: seq<Condition>)

  datatype Environment = Environment(name: string, isVM: bool, persistent: bool)
  datatype Instance = Instance(running: bool)
  datatype Template = Template(environments: seq<Environment>)

  predicate Terminal(c: Condition) {
    c.isTrue && (c.kind.JobFailed? || c.kind.JobComplete?)
  }

  /** The type of the first true terminal condition. */
  function FirstTerminal(conditions: seq<Condition>): Option<ConditionType> {
    if |conditions| == 0 then None
    else if Terminal(conditions[0]) then Some(conditions[0].kind)
    else FirstTerminal(conditions[1..])
  }

  /** GetJobStatus: the search stops at the first true terminal condition. */
  method GetJobStatus(job: Job) returns (status: Option<ConditionType>)
    ensures status == FirstTerminal(job.conditions)
    ensures status.None? <==>
      forall c :: c in job.conditions ==> !c.isTrue || (c.kind != JobFailed && c.kind != JobComplete)
    ensures status.Some? ==>
      && (status.value == JobComplete || status.value == JobFailed)
      && exists i :: 0 <= i < |job.conditions| && job.conditions[i].isTrue &&
                     job.conditions[i].kind == status.value &&
                     forall j :: 0 <= j < i && job.conditions[j].isTrue ==>
                       job.conditions[j].kind != JobFailed && job.conditions[j].kind != JobComplete
  {
    assert job.conditions[0..] == job.conditions;
    for i := 0 to |job.conditions|
      invariant forall j :: 0 <= j < i ==> !Terminal(job.conditions[j])
      invariant FirstTerminal(job.conditions) == FirstTerminal(job.conditions[i..])
    {
      var c := job.conditions[i];
      assert job.conditions[i..][0] == c && job.conditions[i..][1..] == job.conditions[i + 1..];
      if c.isTrue && (c.kind.JobFailed? || c.kind.JobComplete?) {
        return Some(c.kind);
      }
    }
    status := None;
  }

  /** The environment a request names: the first of that name, or the first of all. */
  function Selected(environments: seq<Environment>, name: string): Option<Environment> {
    if |environments| == 0 then None
    else if name == "" || environments[0].name == name then Some(environments[0])
    else Selected(environments[1..], name)
  }

  /** The environment is the first of the name, or the first of all without one. */
  predicate ChosenAt(environments: seq<Environment>, name: string, i: nat) {
    i < |environments| &&
    if name == "" then i == 0
    else environments[i].name == name && forall j :: 0 <= j < i ==> environments[j].name != name
  }

  lemma {:induction false} SelectedIs(environments: seq<Environment>, name: string)
    ensures forall i: nat :: ChosenAt(environments, name, i) ==> Selected(environments, name) == Some(environments[i])
    ensures Selected(environments, name).Some? ==>
      exists i: nat :: ChosenAt(environments, name, i) && environments[i] == Selected(environments, name).value
  {
    if |environments| > 0 {
      if name == "" || environments[0].name == name {
        assert ChosenAt(environments, name, 0);
      } else {
        var rest := environments[1..];
        SelectedIs(rest, name);
        forall i: nat | ChosenAt(environments, name, i)
          ensures Selected(environments, name) == Some(environments[i])
        {
          assert rest[i - 1] == environments[i];
          assert forall j :: 0 <= j < i - 1 ==> rest[j] == environments[j + 1];
          assert ChosenAt(rest, name, i - 1);
        }
        if Selected(rest, name).Some? {
          var i: nat :| ChosenAt(rest, name, i) && rest[i] == Selected(rest, name).value;
          assert forall j :: 0 < j < i + 1 ==> environments[j] == rest[j - 1];
          assert ChosenAt(environments, name, i + 1);
        }
      }
    }
  }

  /** What a snapshot may be taken of: a persistent VM that is powered off. */
  predicate Admissible(instance: Option<Instance>, template: Option<Template>, name: string) {
    && instance.Some? && !instance.value.running
    && template.Some?
    && var env := Selected(template.value.environments, name);
       env.Some? && env.value.isVM && env.value.persistent
  }

  /** Accepted, to be retried, refused for good, or the process dies on an empty environment list. */
  datatype Verdict = Accepted | Retry | Refused | Panic

  /** The verdict on what the two reads return. */
  function VerdictOf(readInstance: Outcome, instance: Option<Instance>,
                     readTemplate: Outcome, template: Option<Template>, name: string): Verdict {
    if !readInstance.Done? || (instance.Some? && !readTemplate.Done?) then Retry
    else if Admissible(instance, template, name) then Accepted
    else if instance.Some? && template.Some? && name == "" && template.value.environments == [] then Panic
    else Refused
  }

  /** ValidateRequest, on what its two reads return. */
  method ValidateRequest(readInstance: Outcome, instance: Option<Instance>,
                         readTemplate: Outcome, template: Option<Template>, name: string)
    returns (v: Verdict)
    ensures v == VerdictOf(readInstance, instance, readTemplate, template, name)
    ensures v == Accepted <==>
      readInstance.Done? && readTemplate.Done? && Admissible(instance, template, name)
    // accepted exactly for a powered-off instance whose selected environment is a persistent VM: the
    // first of the requested name, or the first of all without a name
    ensures v == Accepted <==>
      && readInstance.Done? && instance.Some? && !instance.value.running
      && readTemplate.Done? && template.Some?
      && exists i :: 0 <= i < |template.value.environments| &&
                     template.value.environments[i].isVM && template.value.environments[i].persistent &&
                     (if name == "" then i == 0
                      else template.value.environments[i].name == name &&
                           forall j :: 0 <= j < i ==> template.value.environments[j].name != name)
    ensures v == Retry <==> !readInstance.Done? || (instance.Some? && !readTemplate.Done?)
    ensures v == Panic <==>
      && readInstance.Done? && instance.Some? && readTemplate.Done? && template.Some?
      && name == "" && template.value.environments == []
  {
    if template.Some? {
      SelectedIs(template.value.environments, name);
    }
    if !readInstance.Done? {
      return Retry;
    } else if instance.None? {
      return Refused;
    }
    if !readTemplate.Done? {
      return Retry;
    } else if template.None? {
      return Refused;
    }
    var envs := template.value.environments;
    var env: Option<Environment> := None;
    if name != "" {
      var i := 0;
      assert envs[0..] == envs;
      while i < |envs| && env.None?
        invariant 0 <= i <= |envs|
        invariant env.None? ==> Selected(envs, name) == Selected(envs[i..], name)
        invariant env.Some? ==> env == Selected(envs, name)
        decreases |envs| - i, env.None?
      {
        assert envs[i..][0] == envs[i] && envs[i..][1..] == envs[i + 1..];
        if envs[i].name == name {
          env := Some(envs[i]);
        }
        i := i + 1;
      }
      if env.None? {
        return Refused;
      }
    } else if |envs| == 0 {
      return Panic;
    } else {
      env := Some(envs[0]);
    }
    if !env.value.isVM || !env.value.persistent {
      return Refused;
    }
    if instance.value.running {
      return Refused;
    }
    v := Accepted;
  }

  /** The stored state: the snapshot's phase and its Job. */
  datatype Stored = Stored(phase: Phase, job: Option<Job>)

  /** The phase never claims more than the Job shows. */
  predicate Honest(st: Stored) {
    && (st.phase == Processing ==> st.job.Some?)
    && (st.phase == Completed ==> st.job.Some? && FirstTerminal(st.job.value.conditions) == Some(JobComplete))
    && (st.phase == Failed && st.job.Some? ==> FirstTerminal(st.job.value.conditions) == Some(JobFailed))
  }

  /** The phase stored once a Job was read: it follows the terminal condition if the write takes effect. */
  function PhaseAfterJob(found: Job, phase: Phase, write: Outcome): Phase {
    var status := FirstTerminal(found.conditions);
    if status.None? || !write.Effective() then phase
    else if status.value == JobComplete then Completed
    else Failed
  }

  /** What the cluster may do before a call: the Job progresses and the instance and its template
      change at will. */
  datatype Outside = Outside(conditions: seq<Condition>, instance: Option<Instance>, template: Option<Template>)

  datatype Call = Call(outside: Outside, outcome: Outcome)

  /** The fate of each call a reconcile may make. */
  datatype Script = Script(getSnapshot: Call, present: bool, checkNamespace: Call, selected: bool, getJob: Call,
                           setPending: Call, getInstance: Call, getTemplate: Call, setFailed: Call,
                           defineJob: Call, createJob: Call, setProcessing: Call, setTerminal: Call) {
    /** The snapshot still exists and its namespace is selected; otherwise there is nothing to do. */
    predicate Concerned() {
      present && selected
    }

    /** The reads that lead to the Job are done and the snapshot is the operator's concern. */
    predicate Dispatched() {
      getSnapshot.outcome.Done? && checkNamespace.outcome.Done? && Concerned() && getJob.outcome.Done?
    }

    /** What the validation of a request for the environment says on these reads. */
    function Verdict(environment: string): Verdict {
      VerdictOf(getInstance.outcome, getInstance.outside.instance,
                getTemplate.outcome, getTemplate.outside.template, environment)
    }

    /** The request is accepted and the Job can be defined. */
    predicate ReachesCreation(environment: string) {
      && setPending.outcome.Done? && Verdict(environment) == Accepted
      && defineJob.outcome.Done? && defineJob.outside.instance.Some?
    }

    /** The phase stored by an attempt to create the Job. */
    function PhaseAfterCreate(environment: string, phase: Phase): Phase {
      if !setPending.outcome.Effective() then phase
      else if setPending.outcome.Done? && Verdict(environment) == Refused && setFailed.outcome.Effective() then Failed
      else if ReachesCreation(environment) && createJob.outcome.Done? && setProcessing.outcome.Effective()
      then Processing
      else Pending
    }
  }

  /** An attempt to create the Job in words: what leads to the call that creates it, and the phase stored
      at the end. Pending remains exactly when it was stored and a later call stopped the attempt. */
  lemma CreationInWords(s: Script, environment: string, phase: Phase)
    ensures s.ReachesCreation(environment) <==>
      && s.setPending.outcome == Done && s.Verdict(environment) == Accepted
      && s.defineJob.outcome == Done && s.defineJob.outside.instance.Some?
    ensures
      var after := s.PhaseAfterCreate(environment, phase);
      if s.setPending.outcome == FailedBefore then after == phase
      else if s.setPending.outcome == FailedAfter then after == Pending
      else
        match s.Verdict(environment)
        case Refused => after == (if s.setFailed.outcome == FailedBefore then Pending else Failed)
        case Accepted =>
          after == (if s.defineJob.outcome == Done && s.defineJob.outside.instance.Some? &&
                       s.createJob.outcome == Done && s.setProcessing.outcome != FailedBefore
                    then Processing else Pending)
        case _ => after == Pending
  {
  }

  /** The record of a Job creation: the phase stored then and the validation that preceded it. */
  datatype Creation = Creation(phase: Phase, instance: Option<Instance>, template: Option<Template>)

  class Cluster {
    var phase: Phase
    var job: Option<Job>
    var instance: Option<Instance>
    var template: Option<Template>
    /** The environment the snapshot request names. */
    const environment: string
    /** Every stored state, and every Job creation. */
    ghost var log: seq<Stored>
    ghost var creations: seq<Creation>

    ghost predicate Valid()
      reads this
    {
      && Honest(Stored(phase, job))
      && (forall i :: 0 <= i < |log| ==> Honest(log[i]))
      && (forall i :: 0 <= i < |creations| ==>
            creations[i].phase == Pending && Admissible(creations[i].instance, creations[i].template, environment))
      && |creations| == (if job.Some? then 1 else 0)
    }

    constructor (environment: string)
      ensures Valid() && phase == Unset && job == None && this.environment == environment
    {
      this.environment := environment;
      phase, job, instance, template := Unset, None, None, None;
      log, creations := [], [];
    }

    /** The world moves; a terminal condition, once first, stays first. */
    method Happens(o: Outside)
      requires Valid()
      modifies this
      ensures Valid() && old(log) <= log && phase == old(phase) && creations == old(creations)
      ensures instance == o.instance && template == o.template
      ensures job.Some? == old(job).Some?
      ensures old(job).Some? && FirstTerminal(old(job).value.conditions).Some? ==>
        FirstTerminal(job.value.conditions) == FirstTerminal(old(job).value.conditions)
    {
      if job.Some? && (FirstTerminal(job.value.conditions).None? ||
                       FirstTerminal(job.value.conditions) == FirstTerminal(o.conditions)) {
        job := Some(Job(o.conditions));
      }
      instance, template := o.instance, o.template;
      log := log + [Stored(phase, job)];
    }

    /** A write of the status, with its three possible fates. */
    method UpdateStatus(call: Call, newPhase: Phase) returns (ok: bool)
      requires Valid()
      requires newPhase == Processing ==> job.Some?
      requires newPhase == Completed ==> job.Some? && FirstTerminal(job.value.conditions) == Some(JobComplete)
      requires newPhase == Failed && job.Some? ==> FirstTerminal(job.value.conditions) == Some(JobFailed)
      modifies this
      ensures Valid() && old(log) <= log && creations == old(creations)
      ensures job.Some? == old(job).Some?
      ensures old(job).Some? && FirstTerminal(old(job).value.conditions).Some? ==>
        FirstTerminal(job.value.conditions) == FirstTerminal(old(job).value.conditions)
      ensures ok == call.outcome.Succeeded()
      ensures phase == if call.outcome.Effective() then newPhase else old(phase)
    {
      Happens(call.outside);
      if call.outcome.Effective() {
        phase := newPhase;
        log := log + [Stored(phase, job)];
      }
      ok := call.outcome.Succeeded();
    }

    /** CreateSnapshottingJob: Pending, validation, Job, Processing. */
    method CreateSnapshottingJob(s: Script) returns (retry: bool, ok: bool)
      requires Valid() && job.None?
      modifies this
      ensures Valid() && old(log) <= log
      ensures phase == s.PhaseAfterCreate(environment, old(phase))
      ensures job.Some? <==> s.ReachesCreation(environment) && s.createJob.outcome.Effective()
      ensures ok <==> s.ReachesCreation(environment) && s.createJob.outcome.Done? && s.setProcessing.outcome.Done?
      // Processing with a Job after a success, Failed after a refusal that was stored, Pending when
      // Pending was stored and a later call stopped the attempt
      ensures ok ==> phase == Processing && job.Some?
      ensures !s.setPending.outcome.Effective() ==> phase == old(phase) && job.None? && !ok
      ensures s.setPending.outcome.Done? && s.Verdict(environment) == Refused ==>
        phase == (if s.setFailed.outcome.Effective() then Failed else Pending) && job.None?
      ensures s.setPending.outcome.Effective() ==>
        (phase == Processing <==> job.Some? && s.createJob.outcome.Done? && s.setProcessing.outcome.Effective())
      ensures !ok ==>
        (!retry <==> s.setPending.outcome.Done? && s.Verdict(environment) == Refused && s.setFailed.outcome.Done?)
    {
      CreationInWords(s, environment, phase);
      ok := UpdateStatus(s.setPending, Pending);
      if !ok {
        return true, false;
      }
      Happens(s.getInstance.outside);
      var readInstance := instance;
      Happens(s.getTemplate.outside);
      var readTemplate := template;
      var v := ValidateRequest(s.getInstance.outcome, readInstance, s.getTemplate.outcome, readTemplate, environment);
      if v == Retry || v == Panic {
        return true, false;
      }
      if v == Refused {
        ok := UpdateStatus(s.setFailed, Failed);
        return !ok, false;
      }
      retry, ok := StartJob(s, readInstance, readTemplate);
    }

    /** The end of CreateSnapshottingJob, once the request is accepted: define the Job, create it, and
        store Processing. */
    method StartJob(s: Script, readInstance: Option<Instance>, readTemplate: Option<Template>)
      returns (retry: bool, ok: bool)
      requires Valid() && job.None? && phase == Pending && Admissible(readInstance, readTemplate, environment)
      modifies this
      ensures Valid() && old(log) <= log
      ensures
        var reached := s.defineJob.outcome.Done? && s.defineJob.outside.instance.Some?;
        && (job.Some? <==> reached && s.createJob.outcome.Effective())
        && (ok <==> reached && s.createJob.outcome.Done? && s.setProcessing.outcome.Done?)
        && phase == (if reached && s.createJob.outcome.Done? && s.setProcessing.outcome.Effective()
                     then Processing else Pending)
      ensures retry == !ok
    {
      Happens(s.defineJob.outside);
      if !s.defineJob.outcome.Done? || instance.None? {
        return true, false;
      }
      Happens(s.createJob.outside);
      if s.createJob.outcome.Effective() {
        job := Some(Job([]));
        creations := creations + [Creation(phase, readInstance, readTemplate)];
        log := log + [Stored(phase, job)];
      }
      if !s.createJob.outcome.Succeeded() {
        return true, false;
      }
      ok := UpdateStatus(s.setProcessing, Processing);
      retry := !ok;
    }

    /** HandleExistingJob: the phase follows the terminal condition that was read. */
    method HandleExistingJob(s: Script, found: Job) returns (ok: bool)
      requires Valid() && job == Some(found)
      modifies this
      ensures Valid() && old(log) <= log && job.Some?
      ensures phase == PhaseAfterJob(found, old(phase), s.setTerminal.outcome)
      ensures FirstTerminal(found.conditions) == Some(JobComplete) ==>
        phase == if s.setTerminal.outcome.Effective() then Completed else old(phase)
      ensures FirstTerminal(found.conditions) == Some(JobFailed) ==>
        phase == if s.setTerminal.outcome.Effective() then Failed else old(phase)
      ensures FirstTerminal(found.conditions).None? ==> phase == old(phase)
      ensures ok <==> FirstTerminal(found.conditions).None? || s.setTerminal.outcome.Done?
    {
      var status := GetJobStatus(found);
      ok := true;
      if status.Some? {
        if status.value == JobComplete {
          ok := UpdateStatus(s.setTerminal, Completed);
        } else {
          ok := UpdateStatus(s.setTerminal, Failed);
        }
      }
    }

    /** Reconcile: dispatch on Job found, not found, or not readable. */
    method Reconcile(s: Script) returns (ok: bool)
      requires Valid()
      modifies this
      ensures Valid() && old(log) <= log
      ensures old(job).Some? ==> job.Some?
      // without a Job the phase follows the attempt to create one; before the dispatch nothing is written
      ensures old(job).None? ==>
        phase == if s.Dispatched() then s.PhaseAfterCreate(environment, old(phase)) else old(phase)
      ensures !s.Dispatched() ==> phase == old(phase) && job.Some? == old(job).Some?
      // a request refused by the validation ends the reconcile without an error
      ensures ok && s.Concerned() ==> job.Some? || phase == Failed
      // a first attempt with every call done ends in Processing with a Job or, refused, in Failed
      ensures ok && s.present && s.selected && old(job).None? ==>
        (phase == Processing && job.Some?) || (phase == Failed && job.None? && s.Verdict(environment) == Refused)
      ensures (old(job).None? && s.getSnapshot.outcome.Done? && s.present && s.checkNamespace.outcome.Done? &&
               s.selected && s.getJob.outcome.Done? && s.setPending.outcome.Done?) ==>
        && (s.Verdict(environment) == Refused && s.setFailed.outcome.Done? ==> ok && phase == Failed)
        && ((s.Verdict(environment) == Accepted && s.defineJob.outcome.Done? &&
             s.defineJob.outside.instance.Some? && s.createJob.outcome.Done? && s.setProcessing.outcome.Done?) ==>
              ok && phase == Processing && job.Some?)
      ensures !s.present || !s.selected ==> phase == old(phase) && job.Some? == old(job).Some?
      // once the Job has ended, a reconcile whose calls succeed stores the matching phase
      ensures ok && s.Concerned() && old(job).Some? && FirstTerminal(old(job).value.conditions) == Some(JobComplete)
        ==> phase == Completed
      ensures ok && s.Concerned() && old(job).Some? && FirstTerminal(old(job).value.conditions) == Some(JobFailed)
        ==> phase == Failed
      ensures (old(job).Some? && s.getSnapshot.outcome.Done? && s.checkNamespace.outcome.Done? &&
               s.getJob.outcome.Done? && s.setTerminal.outcome.Done?) ==> ok
    {
      Happens(s.getSnapshot.outside);
      if !s.getSnapshot.outcome.Done? {
        return false;
      }
      if !s.present {
        return true;
      }
      Happens(s.checkNamespace.outside);
      if !s.checkNamespace.outcome.Done? {
        return false;
      }
      if !s.selected {
        return true;
      }
      Happens(s.getJob.outside);
      if !s.getJob.outcome.Done? {
        return false;
      }
      if job.None? {
        var retry, created := CreateSnapshottingJob(s);
        return created || !retry;
      }
      ok := HandleExistingJob(s, job.value);
    }

    /** In every run, with any failures and any moves of the cluster between calls: every stored
        state is honest, at most one Job is ever created, and it is created with Pending stored
        after a validation that succeeded. */
    method Run(scripts: seq<Script>)
      requires Valid()
      modifies this
      ensures old(log) <= log && forall i :: 0 <= i < |log| ==> Honest(log[i])
      ensures Honest(Stored(phase, job))
      // in words: what each stored phase implies about the Job
      ensures forall i :: 0 <= i < |log| ==>
        && (log[i].phase == Processing || log[i].phase == Completed ==> log[i].job.Some?)
        && (log[i].phase == Completed ==> FirstTerminal(log[i].job.value.conditions) == Some(JobComplete))
        && (log[i].phase == Failed && log[i].job.Some? ==>
              FirstTerminal(log[i].job.value.conditions) == Some(JobFailed))
      ensures |creations| <= 1
      ensures forall i :: 0 <= i < |creations| ==>
        creations[i].phase == Pending && Admissible(creations[i].instance, creations[i].template, environment)
    {
      for i := 0 to |scripts|
        invariant Valid() && old(log) <= log
      {
        var _ := Reconcile(scripts[i]);
      }
    }
  }
}
