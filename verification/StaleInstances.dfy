/** The periodic deletion of expired instances
    (operators/cmd/delete-stale-instances/delete_stale_instances.py). */
module StaleInstances {
  import opened Common

  predicate Digit(c: char) {
    '0' <= c <= '9'
  }

  predicate Unit(c: char) {
    c == 'm' || c == 'h' || c == 'd'
  }

  /** The strings the schema of templates admits: ^[0-9]+[mhd]$. */
  predicate Admitted(s: string) {
    |s| >= 2 && Unit(s[|s| - 1]) && forall i :: 0 <= i < |s| - 1 ==> Digit(s[i])
  }

  function DigitValue(c: char): nat
    requires Digit(c)
  {
    assert '0' as int <= c as int;
    c as int - '0' as int
  }

  /** The number a string of digits denotes. */
  function Value(digits: string): nat
    requires forall i :: 0 <= i < |digits| ==> Digit(digits[i])
  {
    if |digits| == 0 then 0
    else Value(digits[..|digits| - 1]) * 10 + DigitValue(digits[|digits| - 1])
  }

  function Seconds(unit: char): nat {
    if unit == 'm' then 60 else if unit == 'h' then 60 * 60 else 60 * 60 * 24
  }

  /** How many digits a string starts with. */
  function Leading(s: string): (n: nat)
    ensures n <= |s| && forall i :: 0 <= i < n ==> Digit(s[i])
    ensures n < |s| ==> !Digit(s[n])
  {
    if |s| == 0 || !Digit(s[0]) then 0 else 1 + Leading(s[1..])
  }

  /** convert_to_time: the expression is matched at the start only, so text may follow the unit. */
  function ConvertToTime(s: string): Option<nat> {
    var n := Leading(s);
    if n == 0 || n == |s| || !Unit(s[n]) then None
    else if s[n] == 'm' then Some(Value(s[..n]) * 60)
    else if s[n] == 'h' then Some(Value(s[..n]) * (60 * 60))
    else if s[n] == 'd' then Some(Value(s[..n]) * (60 * 60 * 24))
    else None
  }

  lemma {:induction false} LeadingIs(s: string, n: nat)
    requires n < |s| && !Digit(s[n]) && forall i :: 0 <= i < n ==> Digit(s[i])
    ensures Leading(s) == n
  {
  }

  /** Every admitted string converts to its number times the seconds of its unit. */
  lemma AdmittedConverts(s: string)
    requires Admitted(s)
    ensures ConvertToTime(s) == Some(Value(s[..|s| - 1]) * Seconds(s[|s| - 1]))
  {
  }

  /** Whatever converts starts with an admitted string and converts as that string does; there is
      at most one such start. In particular the branch for a wrong unit is never taken. */
  lemma ConvertsByPrefix(s: string)
    ensures ConvertToTime(s).Some? <==> exists k :: 0 <= k <= |s| && Admitted(s[..k])
    ensures forall k :: 0 <= k <= |s| && Admitted(s[..k]) ==>
      k == Leading(s) + 1 && ConvertToTime(s) == ConvertToTime(s[..k])
  {
    forall k | 0 <= k <= |s| && Admitted(s[..k])
      ensures k == Leading(s) + 1 && ConvertToTime(s) == ConvertToTime(s[..k])
    {
      var t := s[..k];
      assert forall i :: 0 <= i < k ==> s[i] == t[i];
      LeadingIs(s, k - 1);
      LeadingIs(t, k - 1);
      assert s[..k - 1] == t[..k - 1];
    }
    if ConvertToTime(s).Some? {
      assert Admitted(s[..Leading(s) + 1]);
    }
  }

  /** The decimal notation of a number. */
  function Print(n: nat): (s: string)
    ensures |s| > 0 && forall i :: 0 <= i < |s| ==> Digit(s[i])
  {
    var last := ['0' + (n % 10) as char];
    if n < 10 then last else Print(n / 10) + last
  }

  /** The notation in digits. */
  lemma PrintedDigits(n: nat)
    ensures n < 10 ==> Print(n) == ["0123456789"[n]]
    ensures n >= 10 ==> Print(n) == Print(n / 10) + ["0123456789"[n % 10]]
  {
    assert forall d :: 0 <= d < 10 ==> "0123456789"[d] == '0' + d as char;
  }

  lemma {:induction false} ValueOfPrint(n: nat)
    ensures Value(Print(n)) == n
  {
    var s := Print(n);
    assert DigitValue(s[|s| - 1]) == n % 10;
    if n >= 10 {
      ValueOfPrint(n / 10);
      assert s[..|s| - 1] == Print(n / 10);
    } else {
      assert s[..|s| - 1] == "";
    }
  }

  /** Printing a number and a unit, then parsing, gives the number times the unit. */
  lemma ConvertOfPrint(n: nat, unit: char)
    requires Unit(unit)
    ensures Admitted(Print(n) + [unit])
    ensures ConvertToTime(Print(n) + [unit]) == Some(n * Seconds(unit))
  {
    var s := Print(n) + [unit];
    AdmittedConverts(s);
    assert s[..|s| - 1] == Print(n);
    ValueOfPrint(n);
  }

  // ----- The sweep -----

  datatype Ref = Ref(namespace: string, name: string)

  /** An instance, with its creation time in seconds and the reference to its template. */
  datatype Instance = Instance(ref: Ref, created: real, templateName: string, templateNamespace: Option<string>) {
    function Template(): Ref {
      Ref(if templateNamespace.Some? then templateNamespace.value else "default", templateName)
    }
  }

  /** A template's deleteAfter field; none when the field is missing. */
  type Templates = map<Ref, Option<string>>

  /** The life span of an instance, from the deleteAfter field of its template. */
  function LifeSpan(templates: Templates, inst: Instance): Option<nat> {
    if inst.Template() in templates && templates[inst.Template()].Some?
    then ConvertToTime(templates[inst.Template()].value) else None
  }

  /** Matching a missing field raises an exception that nothing catches. */
  predicate Crashes(templates: Templates, inst: Instance, f: Fate) {
    f.getTemplate.Done? && inst.Template() in templates && templates[inst.Template()].None?
  }

  /** Older than the span of its template by the given clock. The clock of instance_is_expired is the
      local time, while the creation time is in UTC. */
  predicate Older(templates: Templates, inst: Instance, now: real) {
    var span := LifeSpan(templates, inst);
    span.Some? && now - inst.created > span.value as real
  }

  /** When an instance is too old, in words: its age exceeds the number and the unit in the template of the
      referenced name, in the referenced namespace or in "default". */
  lemma OlderInWords(templates: Templates, inst: Instance, now: real, n: nat)
    ensures
      var ref := Ref(if inst.templateNamespace.Some? then inst.templateNamespace.value else "default",
                     inst.templateName);
      && (ref !in templates || templates[ref].None? ==> !Older(templates, inst, now))
      && (ref in templates && templates[ref] == Some(Print(n) + "m") ==>
            (Older(templates, inst, now) <==> now - inst.created > (n * 60) as real))
      && (ref in templates && templates[ref] == Some(Print(n) + "h") ==>
            (Older(templates, inst, now) <==> now - inst.created > (n * 3600) as real))
      && (ref in templates && templates[ref] == Some(Print(n) + "d") ==>
            (Older(templates, inst, now) <==> now - inst.created > (n * 86400) as real))
  {
    ConvertOfPrint(n, 'm');
    ConvertOfPrint(n, 'h');
    ConvertOfPrint(n, 'd');
  }

  /** The age lies between the span and the span shifted by the offset of the local clock. */
  predicate Misjudged(templates: Templates, inst: Instance, utc: real, offset: real) {
    var span := LifeSpan(templates, inst);
    span.Some? &&
    var age := utc - inst.created;
    span.value as real - offset < age <= span.value as real || span.value as real < age <= span.value as real - offset
  }

  /** The local clock misjudges an instance exactly there. */
  lemma MisjudgedExact(templates: Templates, inst: Instance, utc: real, offset: real)
    ensures Misjudged(templates, inst, utc, offset) <==>
            (Older(templates, inst, utc + offset) != Older(templates, inst, utc))
  {
  }

  /** The local clock and the fate of the two calls for each listed instance. */
  datatype Fate = Fate(local: real, getTemplate: Outcome, delete: Outcome)

  class Cluster {
    var instances: map<Ref, Instance>
    const templates: Templates
    const dryRun: bool

    ghost predicate Deleted(inst: Instance, f: Fate) {
      !dryRun && f.getTemplate.Done? && Older(templates, inst, f.local) && f.delete.Effective()
    }

    /** One round in words: whom it deletes, and when it ends the sweep. */
    lemma RoundInWords(inst: Instance, f: Fate)
      ensures Deleted(inst, f) <==>
        !dryRun && f.getTemplate == Done && Older(templates, inst, f.local) && f.delete != FailedBefore
      ensures
        var ref := Ref(if inst.templateNamespace.Some? then inst.templateNamespace.value else "default",
                       inst.templateName);
        Crashes(templates, inst, f) <==> f.getTemplate == Done && ref in templates && templates[ref] == None
    {
    }

    /** The instances that the first `n` rounds of a sweep delete. */
    ghost function Gone(items: seq<Instance>, fate: nat -> Fate, n: nat): set<Ref>
      requires n <= |items|
    {
      if n == 0 then {}
      else Gone(items, fate, n - 1) + if Deleted(items[n - 1], fate(n - 1)) then {items[n - 1].ref} else {}
    }

    lemma {:induction false} GoneIn(items: seq<Instance>, fate: nat -> Fate, n: nat, ref: Ref)
      requires n <= |items|
      ensures ref in Gone(items, fate, n) <==>
              exists i: nat :: i < n && items[i].ref == ref && Deleted(items[i], fate(i))
    {
      if n > 0 {
        GoneIn(items, fate, n - 1, ref);
      }
    }

    /** One round of the sweep: find the life span, compare, delete. */
    method DeleteOne(inst: Instance, f: Fate) returns (crashed: bool)
      modifies this`instances
      ensures crashed == Crashes(templates, inst, f)
      ensures instances == if Deleted(inst, f) then old(instances) - {inst.ref} else old(instances)
    {
      var time: Option<nat> := None;
      if f.getTemplate.Done? && inst.Template() in templates {
        if templates[inst.Template()].None? {
          return true;
        }
        time := ConvertToTime(templates[inst.Template()].value);
      }
      if time.Some? && f.local - inst.created > time.value as real {
        if f.delete.Effective() && !dryRun {
          instances := instances - {inst.ref};
        }
      }
      crashed := false;
    }

    /** delete_instance_expired: a template that cannot be read or converted, and a deletion that
        fails, are logged and the sweep goes on; a missing deleteAfter field ends it. Exactly the
        instances whose own round deletes go, up to the first crash. */
    method DeleteInstanceExpired(items: seq<Instance>, fate: nat -> Fate) returns (rounds: nat)
      modifies this`instances
      ensures rounds <= |items|
      ensures forall i: nat :: i < rounds ==> !Crashes(templates, items[i], fate(i))
      ensures rounds < |items| ==> Crashes(templates, items[rounds], fate(rounds))
      ensures instances == old(instances) - Gone(items, fate, rounds)
    {
      for i := 0 to |items|
        invariant forall k: nat :: k < i ==> !Crashes(templates, items[k], fate(k))
        invariant instances == old(instances) - Gone(items, fate, i)
      {
        var crashed := DeleteOne(items[i], fate(i));
        if crashed {
          return i;
        }
      }
      rounds := |items|;
    }

    /** With a fixed clock, no failed call and no missing field, the sweep over the listed instances
        deletes exactly those that are older than the span of their template, if and only if no age
        lies between the span and the span shifted by the offset of the local clock. */
    method Sweep(items: seq<Instance>, utc: real, offset: real)
      requires !dryRun
      requires forall i :: 0 <= i < |items| ==> items[i].ref in instances && instances[items[i].ref] == items[i]
      requires forall ref :: ref in instances ==> instances[ref] in items && instances[ref].ref == ref
      requires forall ref :: ref in templates ==> templates[ref].Some?
      modifies this`instances
      ensures instances ==
        map ref | ref in old(instances) && !Older(templates, old(instances)[ref], utc + offset) :: old(instances)[ref]
      ensures
        instances == (map ref | ref in old(instances) && !Older(templates, old(instances)[ref], utc) ::
                        old(instances)[ref]) <==>
        forall ref :: ref in old(instances) ==> !Misjudged(templates, old(instances)[ref], utc, offset)
    {
      var fate := (i: nat) => Fate(utc + offset, Done, Done);
      ghost var before := instances;
      var rounds := DeleteInstanceExpired(items, fate);
      assert rounds == |items|;
      SweptExactly(items, fate, utc + offset, before, instances);
      SweepExact(templates, before, instances, utc, offset);
    }

    lemma SweptExactly(items: seq<Instance>, fate: nat -> Fate, now: real,
                       before: map<Ref, Instance>, after: map<Ref, Instance>)
      requires !dryRun && forall i: nat :: fate(i) == Fate(now, Done, Done)
      requires forall i :: 0 <= i < |items| ==> items[i].ref in before && before[items[i].ref] == items[i]
      requires forall ref :: ref in before ==> before[ref] in items && before[ref].ref == ref
      requires after == before - Gone(items, fate, |items|)
      ensures after == map ref | ref in before && !Older(templates, before[ref], now) :: before[ref]
    {
      forall ref | ref in before ensures ref in after <==> !Older(templates, before[ref], now) {
        GoneIn(items, fate, |items|, ref);
        var i :| 0 <= i < |items| && items[i] == before[ref];
        assert Deleted(items[i], fate(i)) <==> Older(templates, items[i], now);
      }
    }
  }

  lemma SweepExact(templates: Templates, before: map<Ref, Instance>, after: map<Ref, Instance>, utc: real, offset: real)
    requires after == map ref | ref in before && !Older(templates, before[ref], utc + offset) :: before[ref]
    ensures
      after == (map ref | ref in before && !Older(templates, before[ref], utc) :: before[ref]) <==>
      forall ref :: ref in before ==> !Misjudged(templates, before[ref], utc, offset)
  {
    var promised := map ref | ref in before && !Older(templates, before[ref], utc) :: before[ref];
    forall ref | ref in before
      ensures (ref in after <==> ref in promised) <==> !Misjudged(templates, before[ref], utc, offset)
    {
      MisjudgedExact(templates, before[ref], utc, offset);
    }
    if forall ref :: ref in before ==> !Misjudged(templates, before[ref], utc, offset) {
      assert after.Keys == promised.Keys;
    }
  }
}
