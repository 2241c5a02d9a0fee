/** The lines of the bastion's authorized_keys file
    (operators/pkg/bastion-controller/helpers.go). */
module AuthorizedKeys {
  import opened Common
  import opened Text

  /** AuthorizedKeysEntry: algorithm, key and the tenant the key belongs to. */
  datatype Entry = Entry(algo: string, key: string, id: string) {
    function Compose(): string {
      algo + " " + key + " " + id
    }
  }

  function Decompose(line: string): Option<Entry> {
    var parts := Split(line, ' ');
    if |parts| == 3 then Some(Entry(parts[0], parts[1], parts[2])) else None
  }

  function Create(key: string, id: string): Option<Entry> {
    var parts := Split(key, ' ');
    if |parts| == 3 || |parts| == 2 then Some(Entry(parts[0], parts[1], id)) else None
  }

  /** Decomposing undoes composing exactly when no field holds a space. */
  lemma DecomposeOfCompose(e: Entry)
    ensures Decompose(e.Compose()) == Some(e) <==>
            ' ' !in e.algo && ' ' !in e.key && ' ' !in e.id
  {
    if ' ' !in e.algo && ' ' !in e.key && ' ' !in e.id {
      assert e.Compose() == e.algo + [' '] + (e.key + [' '] + e.id);
      SplitFirst(e.algo, e.key + [' '] + e.id, ' ');
      SplitFirst(e.key, e.id, ' ');
      SplitPlain(e.id, ' ');
    }
  }

  /** Composing undoes decomposing, for every line that decomposes. */
  lemma ComposeOfDecompose(line: string)
    requires Decompose(line).Some?
    ensures Decompose(line).value.Compose() == line
  {
    var parts := Split(line, ' ');
    JoinOfSplit(line, ' ');
    assert parts[1..] == [parts[1], parts[2]];
    assert Join(parts[1..], ' ') == parts[1] + [' '] + parts[2];
  }

  /** The line belongs to the tenant, as the purge sees it. */
  predicate Owned(line: string, id: string) {
    var e := Decompose(line);
    e.Some? && e.value.id == id
  }

  /** The lines that the purge of a tenant keeps. */
  function Unowned(lines: seq<string>, id: string): seq<string> {
    Filter(lines, line => !Owned(line, id))
  }

  /** The composed lines of the tenant's valid keys, in order. */
  function Marked(keys: seq<string>, id: string): seq<string> {
    if |keys| == 0 then []
    else
      var e := Create(keys[0], id);
      (if e.Some? then [e.value.Compose()] else []) + Marked(keys[1..], id)
  }

  lemma {:induction false} MarkedConcat(a: seq<string>, b: seq<string>, id: string)
    ensures Marked(a + b, id) == Marked(a, id) + Marked(b, id)
  {
    if |a| == 0 {
      assert a + b == b;
    } else {
      assert (a + b)[1..] == a[1..] + b;
      MarkedConcat(a[1..], b, id);
    }
  }

  /** Every line written for a tenant decomposes back to that tenant. */
  lemma {:induction false} MarkedOwned(keys: seq<string>, id: string)
    requires ' ' !in id
    ensures forall line :: line in Marked(keys, id) ==> Owned(line, id)
  {
    if |keys| > 0 {
      MarkedOwned(keys[1..], id);
      var e := Create(keys[0], id);
      if e.Some? {
        DecomposeOfCompose(e.value);
      }
    }
  }

  // ----- Keys and lines by their words -----

  /** One more part than separators. */
  lemma {:induction false} SplitCount(s: string, sep: char)
    ensures |Split(s, sep)| == multiset(s)[sep] + 1
  {
    if |s| > 0 {
      assert s == [s[0]] + s[1..];
      SplitCount(s[1..], sep);
    }
  }

  lemma SplitTwo(a: string, k: string)
    requires ' ' !in a && ' ' !in k
    ensures Split(a + " " + k, ' ') == [a, k]
  {
    SplitFirst(a, k, ' ');
    SplitPlain(k, ' ');
  }

  lemma SplitThree(a: string, k: string, c: string)
    requires ' ' !in a && ' ' !in k && ' ' !in c
    ensures Split(a + " " + k + " " + c, ' ') == [a, k, c]
  {
    assert a + " " + k + " " + c == a + [' '] + (k + " " + c);
    SplitFirst(a, k + " " + c, ' ');
    SplitTwo(k, c);
  }

  /** A key of two words, or of three with a comment, adds one line: its first two words and the tenant.
      The comment is dropped. */
  lemma MarkedWords(a: string, k: string, c: string, id: string)
    requires ' ' !in a && ' ' !in k && ' ' !in c
    ensures Marked([a + " " + k], id) == [a + " " + k + " " + id]
    ensures Marked([a + " " + k + " " + c], id) == [a + " " + k + " " + id]
  {
    SplitTwo(a, k);
    SplitThree(a, k, c);
  }

  /** A key adds a line exactly when it has one or two spaces. */
  lemma MarkedSpaces(key: string, id: string)
    ensures Marked([key], id) == [] <==> multiset(key)[' '] == 0 || multiset(key)[' '] >= 3
    ensures |Marked([key], id)| <= 1
  {
    SplitCount(key, ' ');
  }

  /** The line is two words and the name. */
  predicate LineOf(line: string, a: string, k: string, id: string) {
    ' ' !in a && ' ' !in k && ' ' !in id && line == a + " " + k + " " + id
  }

  /** A line belongs to a tenant exactly when it is two words and the tenant's name. */
  lemma OwnedWords(line: string, id: string)
    ensures Owned(line, id) <==> exists a, k :: LineOf(line, a, k, id)
  {
    if Owned(line, id) {
      var e := Decompose(line).value;
      ComposeOfDecompose(line);
      assert LineOf(line, e.algo, e.key, id);
    }
    if a, k :| LineOf(line, a, k, id) {
      SplitThree(a, k, id);
    }
  }

  /** No valid key of the list carries a newline into its line. */
  predicate KeysSafe(keys: seq<string>) {
    forall key :: key in keys ==>
      var e := Create(key, "");
      e.Some? ==> '\n' !in e.value.algo && '\n' !in e.value.key
  }

  lemma {:induction false} MarkedPlain(keys: seq<string>, id: string)
    requires '\n' !in id
    ensures KeysSafe(keys) <==> forall line :: line in Marked(keys, id) ==> '\n' !in line
  {
    if |keys| > 0 {
      MarkedPlain(keys[1..], id);
      var e, f := Create(keys[0], id), Create(keys[0], "");
      assert e.Some? <==> f.Some?;
      assert keys == [keys[0]] + keys[1..];
      assert KeysSafe(keys) <==> KeysSafe(keys[1..]) && KeysSafe([keys[0]]);
      if e.Some? {
        var line := e.value.Compose();
        assert '\n' in line <==> '\n' in e.value.algo || '\n' in e.value.key by {
          NewlineInCompose(e.value);
        }
        assert Marked(keys, id) == [line] + Marked(keys[1..], id);
        assert KeysSafe([keys[0]]) <==> '\n' !in line by {
          assert keys[0] in [keys[0]];
        }
      } else {
        assert KeysSafe([keys[0]]);
      }
    }
  }

  lemma NewlineInCompose(e: Entry)
    ensures '\n' in e.Compose() <==> '\n' in e.algo || '\n' in e.key || '\n' in e.id
  {
  }

  /** removeKey on the slice `a[..n]`: overwrite slot `i` by the last element and shorten. */
  method RemoveKey(a: array<string>, n: nat, i: nat) returns (m: nat)
    requires n <= a.Length
    modifies a
    ensures i >= n ==> m == n && a[..] == old(a[..])
    ensures i < n ==> m == n - 1 && a[..] == old(a[..])[i := old(a[n - 1])]
  {
    if i >= n {
      return n;
    }
    a[i] := a[n - 1];
    m := n - 1;
  }

  /** The tail that starts at a removed slot holds what followed the slot. */
  lemma SwapRemoval(s: seq<string>, n: nat, i: nat)
    requires i < n <= |s|
    ensures multiset(s[i := s[n - 1]][i..n - 1]) == multiset(s[i + 1..n])
  {
    if i < n - 1 {
      assert s[i := s[n - 1]][i..n - 1] == [s[n - 1]] + s[i + 1..n - 1];
      assert s[i + 1..n] == s[i + 1..n - 1] + [s[n - 1]];
    }
  }

  /** `idx` lists, in increasing order, the positions of the tenant's lines. */
  ghost predicate IndexesOf(idx: seq<nat>, s: seq<string>, id: string) {
    && (forall j, k :: 0 <= j < k < |idx| ==> idx[j] < idx[k])
    && (forall j :: 0 <= j < |idx| ==> idx[j] < |s| && Owned(s[idx[j]], id))
    && (forall i :: 0 <= i < |s| && Owned(s[i], id) ==> i in idx)
  }

  /** The k-th listed position, or the end. */
  ghost function Bound(idx: seq<nat>, s: seq<string>, k: nat): (b: nat)
    requires k <= |idx|
  {
    if k == |idx| then |s| else idx[k]
  }

  /** What lies strictly between two successive listed positions is kept by the purge. */
  lemma GapKept(idx: seq<nat>, s: seq<string>, id: string, k: nat, lo: nat)
    requires IndexesOf(idx, s, id) && k <= |idx|
    requires lo == if k == 0 then 0 else idx[k - 1] + 1
    ensures lo <= Bound(idx, s, k) <= |s|
    ensures Unowned(s[lo..Bound(idx, s, k)], id) == s[lo..Bound(idx, s, k)]
  {
    var hi := Bound(idx, s, k);
    forall i | lo <= i < hi ensures !Owned(s[i], id) {
    }
    FilterAll(s[lo..hi], line => !Owned(line, id));
  }

  /** The first loop of decomposeAndPurgeEntries: the positions of the tenant's lines. */
  method OwnedIndexes(a: array<string>, id: string) returns (idx: seq<nat>)
    ensures IndexesOf(idx, a[..], id)
  {
    idx := [];
    for i := 0 to a.Length
      invariant IndexesOf(idx, a[..i], id)
    {
      var entry := Decompose(a[i]);
      assert a[..i + 1] == a[..i] + [a[i]];
      if entry.Some? && entry.value.id == id {
        idx := idx + [i];
      }
    }
    assert a[..] == a[..a.Length];
  }

  /** The slice `t[..n]` after the removal of the positions from the k-th on: untouched before
      the k-th position, and from there on the lines to keep. */
  ghost predicate PurgedFrom(t: seq<string>, n: nat, s: seq<string>, idx: seq<nat>, id: string, k: nat)
    requires k <= |idx|
  {
    var b := Bound(idx, s, k);
    && |t| == |s|
    && b <= n <= |s|
    && t[..b] == s[..b]
    && multiset(t[b..n]) == multiset(Unowned(s[b..], id))
  }

  lemma TailKept(idx: seq<nat>, s: seq<string>, id: string, k: nat)
    requires IndexesOf(idx, s, id) && k < |idx|
    ensures idx[k] < Bound(idx, s, k + 1) <= |s|
    ensures Unowned(s[idx[k]..], id) ==
            s[idx[k] + 1..Bound(idx, s, k + 1)] + Unowned(s[Bound(idx, s, k + 1)..], id)
  {
    var i, b := idx[k], Bound(idx, s, k + 1);
    GapKept(idx, s, id, k + 1, i + 1);
    assert s[i + 1..] == s[i + 1..b] + s[b..];
    FilterConcat(s[i + 1..b], s[b..], line => !Owned(line, id));
    assert s[i..][0] == s[i] && s[i..][1..] == s[i + 1..];
  }

  /** One removal extends the purged part by one listed position. */
  lemma PurgeStep(t: seq<string>, n: nat, s: seq<string>, idx: seq<nat>, id: string, k: nat)
    requires IndexesOf(idx, s, id) && k < |idx| && PurgedFrom(t, n, s, idx, id, k + 1)
    ensures idx[k] < n
    ensures PurgedFrom(t[idx[k] := t[n - 1]], n - 1, s, idx, id, k)
  {
    var i, b := idx[k], Bound(idx, s, k + 1);
    TailKept(idx, s, id, k);
    SwapRemoval(t, n, i);
    assert t[i + 1..n] == s[i + 1..b] + t[b..n] by {
      assert t[i + 1..n] == t[i + 1..b] + t[b..n];
      assert t[i + 1..b] == t[..b][i + 1..] == s[..b][i + 1..] == s[i + 1..b];
    }
    assert t[i := t[n - 1]][..i] == t[..b][..i] == s[..b][..i] == s[..i];
  }

  /** After the last removal, nothing before the smallest removed position was the tenant's. */
  lemma PurgeEnd(t: seq<string>, n: nat, s: seq<string>, idx: seq<nat>, id: string)
    requires IndexesOf(idx, s, id) && PurgedFrom(t, n, s, idx, id, 0)
    ensures multiset(t[..n]) == multiset(Unowned(s, id))
  {
    var b := Bound(idx, s, 0);
    GapKept(idx, s, id, 0, 0);
    FilterConcat(s[..b], s[b..], line => !Owned(line, id));
    assert s == s[..b] + s[b..];
    assert t[..n] == t[..b] + t[b..n];
  }

  /** decomposeAndPurgeEntries: swap removal in place, last index first. What is left of the
      slice is, as a multiset, exactly the lines that do not belong to the tenant. */
  method DecomposeAndPurgeEntries(a: array<string>, id: string) returns (n: nat)
    modifies a
    ensures n <= a.Length
    ensures multiset(a[..n]) == multiset(Unowned(old(a[..]), id))
  {
    var idx := OwnedIndexes(a, id);
    ghost var s := a[..];
    n := a.Length;
    var k := |idx|;
    while k > 0
      invariant 0 <= k <= |idx|
      invariant PurgedFrom(a[..], n, s, idx, id, k)
    {
      k := k - 1;
      PurgeStep(a[..], n, s, idx, id, k);
      n := RemoveKey(a, n, idx[k]);
    }
    PurgeEnd(a[..], n, s, idx, id);
    assert a[..][..n] == a[..n];
  }

  /** composeAndMarkEntries: append the composed valid keys; invalid keys are skipped. */
  method ComposeAndMarkEntries(lines: seq<string>, keys: seq<string>, id: string)
    returns (r: seq<string>)
    ensures r == lines + Marked(keys, id)
  {
    r := lines;
    for i := 0 to |keys|
      invariant r == lines + Marked(keys[..i], id)
    {
      assert keys[..i + 1] == keys[..i] + [keys[i]];
      MarkedConcat(keys[..i], [keys[i]], id);
      var entry := Create(keys[i], id);
      if entry.Some? {
        r := r + [entry.value.Compose()];
      }
    }
    assert keys[..|keys|] == keys;
  }
}
