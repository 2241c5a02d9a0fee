/** The bastion reconciler (operators/pkg/bastion-controller/bastion_controller.go): one text
    file that must behave as a map from tenant names to SSH keys. */
module Bastion {
  import opened Common
  import opened Text
  import opened AuthorizedKeys

  /** What the API server answers about the tenant of a reconcile request. */
  datatype Lookup = Found(keys: seq<string>) | NotFound | Error

  /** How the file was read. A stat that fails, for whatever reason, is taken for an absent file. */
  datatype FileRead = ReadOk | StatFails | ReadFails

  /** How the file was written; a failed write may leave a first part of the text. */
  datatype FileWrite = WriteOk | CreateFails | WriteFails(written: nat)

  datatype Event = Event(id: string, lookup: Lookup, read: FileRead, write: FileWrite) {
    /** The reconcile returns an error, so it is tried again. */
    predicate Fails() {
      lookup.Error? || read.ReadFails?
    }
  }

  /** A tenant name free of space and newline, as section 2.1 of RFC 1123 makes every Kubernetes name. */
  predicate NameOk(id: string) {
    ' ' !in id && '\n' !in id
  }

  /** The lines the reconciler sees: none for an absent or an empty file. */
  function Lines(file: Option<string>): seq<string> {
    if file.None? || file.value == "" then [] else Split(file.value, '\n')
  }

  function Added(ev: Event): seq<string> {
    if ev.lookup.Found? then Marked(ev.lookup.keys, ev.id) else []
  }

  /** The lines a reconcile starts from. */
  function Seen(file: Option<string>, ev: Event): seq<string> {
    if ev.read.StatFails? then [] else Lines(file)
  }

  /** What a write leaves of the text. */
  function Landed(text: string, write: FileWrite): string {
    if write.WriteFails? && write.written < |text| then text[..write.written] else text
  }

  /** One reconcile as a relation between two contents of the file; the order in which the
      other tenants' lines survive the swaps is left open. */
  ghost predicate Step(before: Option<string>, ev: Event, after: Option<string>) {
    if ev.Fails() || ev.write.CreateFails? then after == before
    else exists kept: seq<string> ::
      && multiset(kept) == multiset(Unowned(Seen(before, ev), ev.id))
      && after == Some(Landed(Join(kept + Added(ev), '\n'), ev.write))
  }

  /** The lines the file should hold after a reconcile without an error, in some order. */
  function Wanted(before: Option<string>, ev: Event): seq<string> {
    Unowned(Lines(before), ev.id) + Added(ev)
  }

  /** What keeps the file right: an error that is returned, an update that had nothing to do when the
      file cannot be created, and otherwise keys without a newline, a stat that hides nobody else's
      lines, and a write that is not cut short. */
  predicate Harmless(before: Option<string>, ev: Event) {
    || ev.Fails()
    || (if ev.write.CreateFails? then
          multiset(Filter(Lines(before), line => Owned(line, ev.id))) == multiset(Added(ev))
        else
          && (ev.lookup.Found? ==> KeysSafe(ev.lookup.keys))
          && (ev.read.StatFails? ==> Unowned(Lines(before), ev.id) == [])
          && (ev.write.WriteFails? ==> |Join(Wanted(before, ev), '\n')| <= ev.write.written))
  }

  /** The tenants and their keys after an event: what the text file stands for. */
  function Applied(m: map<string, seq<string>>, ev: Event): map<string, seq<string>> {
    if ev.Fails() then m
    else if ev.lookup.Found? then m[ev.id := ev.lookup.keys]
    else m - {ev.id}
  }

  /** How many copies of a line the map asks for. */
  function Expected(m: map<string, seq<string>>, line: string): nat {
    var e := Decompose(line);
    if e.Some? && e.value.id in m then multiset(Marked(m[e.value.id], e.value.id))[line] else 0
  }

  /** The file's lines are, as a multiset, exactly the composed valid keys of the map. */
  ghost predicate Refines(file: Option<string>, m: map<string, seq<string>>) {
    forall line :: multiset(Lines(file))[line] == Expected(m, line)
  }

  class BastionReconciler {
    var file: Option<string>

    constructor (initial: Option<string>)
      ensures file == initial
    {
      file := initial;
    }

    /** The lines that are left of the file once the tenant's are purged. */
    method ReadAndPurge(ev: Event) returns (keys: seq<string>)
      ensures multiset(keys) == multiset(Unowned(Seen(file, ev), ev.id))
    {
      keys := [];
      if !ev.read.StatFails? && file.Some? && |file.value| > 0 {
        var lines := Split(file.value, '\n');
        var data := new string[|lines|](i requires 0 <= i < |lines| => lines[i]);
        assert data[..] == lines;
        var n := DecomposeAndPurgeEntries(data, ev.id);
        keys := data[..n];
      }
    }

    /** Reconcile, for every fate of the calls on the file. */
    method Reconcile(ev: Event) returns (ok: bool)
      modifies this
      ensures ok == !ev.Fails()
      ensures Step(old(file), ev, file)
      // an error exactly when the tenant or the file cannot be read; then, and when the file cannot be
      // created, the file is as it was
      ensures ok <==> !ev.lookup.Error? && !ev.read.ReadFails?
      ensures !ok || ev.write.CreateFails? ==> file == old(file)
    {
      if ev.lookup.Error? || ev.read.ReadFails? {
        return false;
      }
      var kept := ReadAndPurge(ev);
      var keys := kept;
      if ev.lookup.Found? {
        keys := ComposeAndMarkEntries(keys, ev.lookup.keys, ev.id);
      }
      assert keys == kept + Added(ev);
      ok := true;
      if ev.write.CreateFails? {
        return;
      }
      file := Some("");
      if |keys| > 0 {
        file := Some(Landed(Join(keys, '\n'), ev.write));
      }
    }
  }

  /** Reading back a written file gives the written lines. */
  lemma LinesOfJoin(lines: seq<string>)
    requires "" !in lines
    requires forall line :: line in lines ==> '\n' !in line
    ensures Lines(Some(Join(lines, '\n'))) == lines
  {
    JoinEmpty(lines, '\n');
    if lines != [] {
      SplitOfJoin(lines, '\n');
    }
  }

  /** The lines of a text are its pieces between newlines; an absent and an empty file have none. */
  lemma LinesExact(text: string)
    ensures Lines(None) == [] && Lines(Some("")) == []
    ensures Join(Lines(Some(text)), '\n') == text && forall line :: line in Lines(Some(text)) ==> '\n' !in line
    ensures text != "" ==> Lines(Some(text)) != []
  {
    JoinOfSplit(text, '\n');
  }

  /** How often a file that stands for a map holds the line of two words and a tenant: as often as the
      tenant's keys have these two words, with any comment or none. */
  lemma RefinedWords(file: Option<string>, m: map<string, seq<string>>, a: string, k: string, id: string)
    requires Refines(file, m) && ' ' !in a && ' ' !in k && ' ' !in id
    ensures multiset(Lines(file))[a + " " + k + " " + id] ==
            if id in m then |Filter(m[id], key => WordsOf(key, a, k))| else 0
  {
    var line := a + " " + k + " " + id;
    SplitThree(a, k, id);
    assert Decompose(line) == Some(Entry(a, k, id));
    assert multiset(Lines(file))[line] == Expected(m, line);
    if id in m {
      MarkedCount(m[id], a, k, id);
    }
  }

  lemma {:induction false} MarkedCount(keys: seq<string>, a: string, k: string, id: string)
    requires ' ' !in a && ' ' !in k && ' ' !in id
    ensures multiset(Marked(keys, id))[a + " " + k + " " + id] == |Filter(keys, key => WordsOf(key, a, k))|
  {
    if |keys| > 0 {
      MarkedCount(keys[1..], a, k, id);
      var line := a + " " + k + " " + id;
      assert Marked(keys, id) == Marked([keys[0]], id) + Marked(keys[1..], id);
      OneMarked(keys[0], a, k, id);
    }
  }

  /** The key is the two words, followed by a comment without a space or by nothing. */
  predicate WordsOf(key: string, a: string, k: string) {
    var words := a + " " + k;
    key == words || (words + " " <= key && ' ' !in key[|words| + 1..])
  }

  lemma OneMarked(key: string, a: string, k: string, id: string)
    requires ' ' !in a && ' ' !in k && ' ' !in id
    ensures multiset(Marked([key], id))[a + " " + k + " " + id] == if WordsOf(key, a, k) then 1 else 0
  {
    if WordsOf(key, a, k) {
      MarkedAs(key, a, k, id);
    } else if a + " " + k + " " + id in Marked([key], id) {
      MarkedFrom(key, a, k, id);
      assert false;
    }
  }

  lemma MarkedAs(key: string, a: string, k: string, id: string)
    requires ' ' !in a && ' ' !in k && WordsOf(key, a, k)
    ensures Marked([key], id) == [a + " " + k + " " + id]
  {
    var words := a + " " + k;
    if key == words {
      MarkedWords(a, k, "", id);
    } else {
      var c := key[|words| + 1..];
      assert key == words + " " + c;
      MarkedWords(a, k, c, id);
    }
  }

  lemma MarkedFrom(key: string, a: string, k: string, id: string)
    requires ' ' !in a && ' ' !in k && ' ' !in id && a + " " + k + " " + id in Marked([key], id)
    ensures WordsOf(key, a, k)
  {
    var parts := Split(key, ' ');
    assert |parts| == 2 || |parts| == 3;
    assert Marked([key], id) == [Entry(parts[0], parts[1], id).Compose()];
    SplitThree(a, k, id);
    SplitThree(parts[0], parts[1], id);
    assert parts[0] == [a, k, id][0] && parts[1] == [a, k, id][1];
    KeyOfParts(key, parts);
  }

  lemma KeyOfParts(key: string, parts: seq<string>)
    requires parts == Split(key, ' ') && (|parts| == 2 || |parts| == 3)
    ensures WordsOf(key, parts[0], parts[1])
  {
    JoinOfSplit(key, ' ');
    var words := parts[0] + " " + parts[1];
    assert Join(parts[1..], ' ') == if |parts| == 2 then parts[1] else parts[1] + [' '] + parts[2];
    if |parts| == 3 {
      assert key == words + " " + parts[2];
    }
  }

  /** Lines that belong to nobody are absent from a file that refines a map. */
  lemma RefinedLine(file: Option<string>, m: map<string, seq<string>>, line: string)
    requires Refines(file, m) && line in Lines(file)
    ensures Decompose(line).Some? && '\n' !in line && line != ""
  {
    assert multiset(Lines(file))[line] == Expected(m, line);
    SplitPlain("", ' ');
  }

  lemma AddedLine(ev: Event, line: string)
    requires NameOk(ev.id) && line in Added(ev)
    ensures Owned(line, ev.id) && line != ""
  {
    MarkedOwned(ev.lookup.keys, ev.id);
    SplitPlain("", ' ');
  }

  /** The lines of any file determine its length. */
  lemma LinesLength(text: string, lines: seq<string>)
    requires multiset(Lines(Some(text))) == multiset(lines)
    ensures |text| == |Join(lines, '\n')|
  {
    JoinOfSplit(text, '\n');
    JoinPermuted(Lines(Some(text)), lines, '\n');
  }

  /** The updated map is refined exactly by the files with the wanted lines. */
  lemma RefinesWanted(before: Option<string>, ev: Event, after: Option<string>, m: map<string, seq<string>>)
    requires NameOk(ev.id) && Refines(before, m) && !ev.Fails()
    ensures Refines(after, Applied(m, ev)) <==> multiset(Lines(after)) == multiset(Wanted(before, ev))
  {
    forall line ensures multiset(Wanted(before, ev))[line] == Expected(Applied(m, ev), line) {
      LineCount(before, ev, m, Unowned(Lines(before), ev.id), line);
    }
  }

  /** A reconcile turns a file that refines a map into one that refines the updated map,
      exactly when it is harmless. */
  lemma StepRefines(before: Option<string>, ev: Event, after: Option<string>, m: map<string, seq<string>>)
    requires NameOk(ev.id) && Refines(before, m) && Step(before, ev, after)
    ensures Refines(after, Applied(m, ev)) <==> Harmless(before, ev)
  {
    if !ev.Fails() {
      if ev.write.CreateFails? {
        RefinesWanted(before, ev, after, m);
        UnwrittenStep(before, ev);
      } else {
        var kept: seq<string> :|
          && multiset(kept) == multiset(Unowned(Seen(before, ev), ev.id))
          && after == Some(Landed(Join(kept + Added(ev), '\n'), ev.write));
        if Harmless(before, ev) {
          WrittenIf(before, ev, after, m, kept);
        } else if Refines(after, Applied(m, ev)) {
          WrittenOnlyIf(before, ev, after, m, kept);
        }
      }
    }
  }

  lemma OwnedAndUnowned(lines: seq<string>, id: string)
    ensures multiset(lines) ==
            multiset(Filter(lines, line => Owned(line, id))) + multiset(Unowned(lines, id))
  {
    forall line
      ensures multiset(lines)[line] ==
              multiset(Filter(lines, line => Owned(line, id)))[line] + multiset(Unowned(lines, id))[line]
    {
      FilterCount(lines, line => Owned(line, id), line);
      FilterCount(lines, line => !Owned(line, id), line);
    }
  }

  /** An unchanged file already holds the wanted lines exactly when it holds the tenant's. */
  lemma UnwrittenStep(before: Option<string>, ev: Event)
    ensures multiset(Lines(before)) == multiset(Wanted(before, ev)) <==>
            multiset(Filter(Lines(before), line => Owned(line, ev.id))) == multiset(Added(ev))
  {
    OwnedAndUnowned(Lines(before), ev.id);
    SameRest(Filter(Lines(before), line => Owned(line, ev.id)), Added(ev), Unowned(Lines(before), ev.id));
  }

  lemma SameRest(a: seq<string>, b: seq<string>, rest: seq<string>)
    ensures multiset(a) + multiset(rest) == multiset(rest + b) <==> multiset(a) == multiset(b)
  {
    assert multiset(a) + multiset(rest) - multiset(rest) == multiset(a);
    assert multiset(rest + b) - multiset(rest) == multiset(b);
  }

  /** A written file with the wanted lines was written harmlessly. */
  lemma WrittenOnlyIf(before: Option<string>, ev: Event, after: Option<string>, m: map<string, seq<string>>,
                      kept: seq<string>)
    requires NameOk(ev.id) && Refines(before, m) && !ev.Fails() && !ev.write.CreateFails?
    requires multiset(kept) == multiset(Unowned(Seen(before, ev), ev.id))
    requires after == Some(Landed(Join(kept + Added(ev), '\n'), ev.write))
    requires Refines(after, Applied(m, ev))
    ensures Harmless(before, ev)
  {
    RefinesWanted(before, ev, after, m);
    if ev.lookup.Found? && !KeysSafe(ev.lookup.keys) {
      UnsafeStep(ev, after, m);
    }
    if "" in Lines(before) {
      RefinedLine(before, m, "");
    }
    LinesLength(after.value, Wanted(before, ev));
    WrittenLength(before, ev, kept);
  }

  lemma WrittenIf(before: Option<string>, ev: Event, after: Option<string>, m: map<string, seq<string>>,
                  kept: seq<string>)
    requires NameOk(ev.id) && Refines(before, m) && !ev.Fails() && !ev.write.CreateFails?
    requires multiset(kept) == multiset(Unowned(Seen(before, ev), ev.id))
    requires after == Some(Landed(Join(kept + Added(ev), '\n'), ev.write))
    requires Harmless(before, ev)
    ensures Refines(after, Applied(m, ev))
  {
    WrittenLength(before, ev, kept);
    SafeStep(before, ev, after, m, kept);
  }

  /** The text a reconcile writes is as long as the wanted one, and shorter when the stat hid a line. */
  lemma WrittenLength(before: Option<string>, ev: Event, kept: seq<string>)
    requires multiset(kept) == multiset(Unowned(Seen(before, ev), ev.id))
    ensures |Join(kept + Added(ev), '\n')| <= |Join(Wanted(before, ev), '\n')|
    ensures ev.read.StatFails? && Unowned(Lines(before), ev.id) != [] && "" !in Lines(before) ==>
      |Join(kept + Added(ev), '\n')| < |Join(Wanted(before, ev), '\n')|
    ensures !ev.read.StatFails? || Unowned(Lines(before), ev.id) == [] ==>
      |Join(kept + Added(ev), '\n')| == |Join(Wanted(before, ev), '\n')|
  {
    var others := Unowned(Lines(before), ev.id);
    if ev.read.StatFails? {
      assert |multiset(kept)| == |kept|;
      assert kept + Added(ev) == Added(ev);
      FilterIn(Lines(before), line => !Owned(line, ev.id));
      LongerJoin(others, Added(ev));
    } else {
      JoinPermuted(kept + Added(ev), others + Added(ev), '\n');
    }
  }

  lemma LongerJoin(a: seq<string>, b: seq<string>)
    ensures |Join(b, '\n')| <= |Join(a + b, '\n')|
    ensures a != [] && "" !in a ==> |Join(b, '\n')| < |Join(a + b, '\n')|
    ensures a == [] ==> Join(b, '\n') == Join(a + b, '\n')
  {
    if a == [] {
      assert a + b == b;
    } else {
      CharsConcat(a, b);
      JoinChars(a + b, '\n');
      if b != [] {
        JoinChars(b, '\n');
      }
    }
  }

  lemma UnsafeStep(ev: Event, after: Option<string>, m: map<string, seq<string>>)
    requires NameOk(ev.id) && !ev.Fails() && ev.lookup.Found? && !KeysSafe(ev.lookup.keys)
    ensures !Refines(after, Applied(m, ev))
  {
    MarkedPlain(ev.lookup.keys, ev.id);
    var line :| line in Added(ev) && '\n' in line;
    AddedLine(ev, line);
    assert Expected(Applied(m, ev), line) > 0;
    assert multiset(Lines(after))[line] == 0;
  }

  lemma SafeStep(before: Option<string>, ev: Event, after: Option<string>, m: map<string, seq<string>>,
                 kept: seq<string>)
    requires NameOk(ev.id) && Refines(before, m) && !ev.Fails()
    requires ev.lookup.Found? ==> KeysSafe(ev.lookup.keys)
    requires multiset(kept) == multiset(Unowned(Lines(before), ev.id))
    requires after == Some(Join(kept + Added(ev), '\n'))
    ensures Refines(after, Applied(m, ev))
  {
    var lines := kept + Added(ev);
    forall line | line in lines ensures line != "" && '\n' !in line {
      if line in kept {
        assert line in multiset(kept);
        FilterIn(Lines(before), line => !Owned(line, ev.id));
        RefinedLine(before, m, line);
      } else {
        AddedLine(ev, line);
        MarkedPlain(ev.lookup.keys, ev.id);
      }
    }
    LinesOfJoin(lines);
    forall line ensures multiset(Lines(after))[line] == Expected(Applied(m, ev), line) {
      LineCount(before, ev, m, kept, line);
    }
  }

  /** The copies of one line among the kept and the added ones. */
  lemma LineCount(before: Option<string>, ev: Event, m: map<string, seq<string>>, kept: seq<string>,
                  line: string)
    requires NameOk(ev.id) && Refines(before, m) && !ev.Fails()
    requires multiset(kept) == multiset(Unowned(Lines(before), ev.id))
    ensures multiset(kept + Added(ev))[line] == Expected(Applied(m, ev), line)
  {
    FilterCount(Lines(before), line => !Owned(line, ev.id), line);
    assert multiset(Lines(before))[line] == Expected(m, line);
    if line in Added(ev) {
      AddedLine(ev, line);
    } else {
      assert multiset(Added(ev))[line] == 0;
    }
  }

  /** The map a sequence of events leaves, from no tenant at all. */
  function Replay(events: seq<Event>): map<string, seq<string>> {
    if |events| == 0 then map[]
    else Applied(Replay(events[..|events| - 1]), events[|events| - 1])
  }

  /** The entry of a tenant in the replayed map is the one of its latest successful reconcile. */
  lemma {:induction false} ReplayIsLatest(events: seq<Event>, i: nat)
    requires i < |events| && !events[i].Fails()
    requires forall j :: i < j < |events| && events[j].id == events[i].id ==> events[j].Fails()
    ensures events[i].lookup.Found? ==>
      events[i].id in Replay(events) && Replay(events)[events[i].id] == events[i].lookup.keys
    ensures events[i].lookup.NotFound? ==> events[i].id !in Replay(events)
  {
    if i < |events| - 1 {
      ReplayIsLatest(events[..|events| - 1], i);
    }
  }

  /** A tenant never reconciled with success has no entry. */
  lemma {:induction false} ReplayOnlySeen(events: seq<Event>, id: string)
    requires id in Replay(events)
    ensures exists i :: 0 <= i < |events| && events[i].id == id && events[i].lookup.Found? && !events[i].Fails()
  {
    var last := events[|events| - 1];
    if last.id == id && last.lookup.Found? && !last.Fails() {
      assert events[|events| - 1].id == id;
    } else {
      ReplayOnlySeen(events[..|events| - 1], id);
    }
  }

  /** From an absent or empty file, over any finite run of reconciles of any tenants: in every file
      along the run the lines are exactly the composed valid keys of every tenant's latest reconcile
      without an error, if and only if every reconcile was harmless. */
  lemma RunRefines(files: seq<Option<string>>, events: seq<Event>)
    requires |files| == |events| + 1 && Lines(files[0]) == []
    requires forall i :: 0 <= i < |events| ==> Step(files[i], events[i], files[i + 1])
    requires forall i :: 0 <= i < |events| ==> NameOk(events[i].id)
    ensures (forall i :: 0 <= i <= |events| ==> Refines(files[i], Replay(events[..i]))) <==>
            (forall i :: 0 <= i < |events| ==> Harmless(files[i], events[i]))
  {
    var right := (i: nat) => i <= |events| && Refines(files[i], Replay(events[..i]));
    var kept := (i: nat) => i < |events| && Harmless(files[i], events[i]);
    forall i: nat | i < |events| && right(i) ensures right(i + 1) <==> kept(i) {
      RunStep(files, events, i);
    }
    Chain(right, kept, |events|);
    assert forall i: nat :: i <= |events| ==> (right(i) <==> Refines(files[i], Replay(events[..i])));
    assert forall i: nat :: i < |events| ==> (kept(i) <==> Harmless(files[i], events[i]));
  }

  /** One property that starts right and passes on exactly under another. */
  lemma {:induction false} Chain(right: nat -> bool, kept: nat -> bool, n: nat)
    requires right(0) && forall i: nat :: i < n && right(i) ==> (right(i + 1) <==> kept(i))
    ensures (forall i: nat :: i <= n ==> right(i)) <==> (forall i: nat :: i < n ==> kept(i))
  {
    if n > 0 {
      Chain(right, kept, n - 1);
      if right(n - 1) {
        assert right(n - 1 + 1) <==> kept(n - 1);
      }
    }
  }

  lemma RunStep(files: seq<Option<string>>, events: seq<Event>, i: nat)
    requires |files| == |events| + 1 && i < |events|
    requires Step(files[i], events[i], files[i + 1]) && NameOk(events[i].id)
    requires Refines(files[i], Replay(events[..i]))
    ensures Refines(files[i + 1], Replay(events[..i + 1])) <==> Harmless(files[i], events[i])
  {
    ReplayStep(events, i);
    StepRefines(files[i], events[i], files[i + 1], Replay(events[..i]));
  }

  lemma ReplayStep(events: seq<Event>, i: nat)
    requires i < |events|
    ensures Replay(events[..i + 1]) == Applied(Replay(events[..i]), events[i])
  {
    assert events[..i + 1][..i] == events[..i];
  }

  const LEAKY_KEY := "a b\nc"
  const LEAKY_UPDATE := Event("t", Found([LEAKY_KEY]), ReadOk, WriteOk)

  lemma LeakyUpdate()
    ensures Added(LEAKY_UPDATE) == ["a b\nc t"]
    ensures !KeysSafe([LEAKY_KEY])
  {
    TwoWords("a", "b\nc", ' ');
    assert LEAKY_KEY == "a" + [' '] + "b\nc";
    assert Marked([LEAKY_KEY], "t") == [Entry("a", "b\nc", "t").Compose()];
    assert Entry("a", "b\nc", "t").Compose() == "a b\nc t";
    var part := "b\nc";
    assert part[1] == '\n';
    assert LEAKY_KEY in [LEAKY_KEY];
  }

  /** A key with a newline breaks the refinement even on the first reconcile. */
  lemma NewlineKeyBreaks()
    ensures
      var after := Some("a b\nc t");
      && Step(None, LEAKY_UPDATE, after)
      && !Refines(after, Applied(map[], LEAKY_UPDATE))
  {
    LeakyUpdate();
    var kept: seq<string> := [];
    assert kept + Added(LEAKY_UPDATE) == ["a b\nc t"];
    assert multiset(kept) == multiset(Unowned(Lines(None), "t"));
    UnsafeStep(LEAKY_UPDATE, Some("a b\nc t"), map[]);
  }

  const KEPT_LINE := "a b t"
  const KEPT_FILE := Some(KEPT_LINE)
  const KEPT_MAP := map["t" := ["a b"]]
  const FIRST_UPDATE := Event("t", Found(["a b"]), ReadOk, WriteOk)

  lemma KeptLine()
    ensures Marked(["a b"], "t") == [KEPT_LINE] && KeysSafe(["a b"])
    ensures Owned(KEPT_LINE, "t") && !Owned(KEPT_LINE, "u")
  {
    TwoWords("a", "b", ' ');
    assert "a" + [' '] + "b" == "a b";
    assert Entry("a", "b", "t").Compose() == KEPT_LINE;
    MarkedOwned(["a b"], "t");
    MarkedPlain(["a b"], "t");
  }

  /** The file with one key of one tenant, as the first reconcile leaves it. */
  lemma KeptFile()
    ensures Lines(KEPT_FILE) == [KEPT_LINE] && Owned(KEPT_LINE, "t") && !Owned(KEPT_LINE, "u")
    ensures Refines(KEPT_FILE, KEPT_MAP)
  {
    KeptLine();
    SplitPlain(KEPT_LINE, '\n');
    var kept: seq<string> := [];
    assert kept + Added(FIRST_UPDATE) == [KEPT_LINE];
    assert multiset(kept) == multiset(Unowned(Lines(None), "t"));
    SafeStep(None, FIRST_UPDATE, KEPT_FILE, map[], kept);
    assert Applied(map[], FIRST_UPDATE) == KEPT_MAP;
  }

  /** A stat that fails while another tenant is reconciled empties the file. */
  lemma FailedStatBreaks()
    ensures
      var ev := Event("u", NotFound, StatFails, WriteOk);
      Step(KEPT_FILE, ev, Some("")) && Refines(KEPT_FILE, KEPT_MAP) && !Refines(Some(""), Applied(KEPT_MAP, ev))
  {
    KeptFile();
    var ev, kept: seq<string> := Event("u", NotFound, StatFails, WriteOk), [];
    assert multiset(kept) == multiset(Unowned(Seen(KEPT_FILE, ev), "u"));
    assert Some("") == Some(Landed(Join(kept + Added(ev), '\n'), ev.write));
    StepRefines(KEPT_FILE, ev, Some(""), KEPT_MAP);
  }

  /** A file that cannot be created keeps the keys of a deleted tenant. */
  lemma FailedCreateBreaks()
    ensures
      var ev := Event("t", NotFound, ReadOk, CreateFails);
      Step(KEPT_FILE, ev, KEPT_FILE) && Refines(KEPT_FILE, KEPT_MAP) && !Refines(KEPT_FILE, Applied(KEPT_MAP, ev))
  {
    KeptFile();
    var ev := Event("t", NotFound, ReadOk, CreateFails);
    assert Filter([KEPT_LINE], line => Owned(line, "t")) == [KEPT_LINE];
    assert |multiset([KEPT_LINE])| == 1;
    StepRefines(KEPT_FILE, ev, KEPT_FILE, KEPT_MAP);
  }

  /** A write cut short while another tenant is reconciled loses a key. */
  lemma ShortWriteBreaks()
    ensures
      var ev := Event("u", NotFound, ReadOk, WriteFails(3));
      Step(KEPT_FILE, ev, Some("a b")) && Refines(KEPT_FILE, KEPT_MAP) && !Refines(Some("a b"), Applied(KEPT_MAP, ev))
  {
    KeptFile();
    var ev, kept := Event("u", NotFound, ReadOk, WriteFails(3)), [KEPT_LINE];
    assert Unowned([KEPT_LINE], "u") == kept;
    assert kept + Added(ev) == kept && Join(kept, '\n') == KEPT_LINE;
    assert KEPT_LINE[..3] == "a b";
    assert Some("a b") == Some(Landed(Join(kept + Added(ev), '\n'), ev.write));
    StepRefines(KEPT_FILE, ev, Some("a b"), KEPT_MAP);
  }

  lemma TwoWords(a: string, b: string, sep: char)
    requires sep !in a && sep !in b
    ensures Split(a + [sep] + b, sep) == [a, b]
  {
    SplitFirst(a, b, sep);
    SplitPlain(b, sep);
  }
}
