/** The part of Go's `strings` package that the operators use to encode and decode text. */
module Text {

  /** `strings.Split` on a one-character separator: the empty text has one empty part. */
  function Split(s: string, sep: char): (parts: seq<string>)
    ensures |parts| >= 1
    ensures forall part :: part in parts ==> sep !in part
  {
    if |s| == 0 then [""]
    else if s[0] == sep then [""] + Split(s[1..], sep)
    else var rest := Split(s[1..], sep); [[s[0]] + rest[0]] + rest[1..]
  }

  /** `strings.Join` with a one-character separator. */
  function Join(parts: seq<string>, sep: char): string
  {
    if |parts| == 0 then ""
    else if |parts| == 1 then parts[0]
    else parts[0] + [sep] + Join(parts[1..], sep)
  }

  lemma {:induction false} SplitPlain(s: string, sep: char)
    requires sep !in s
    ensures Split(s, sep) == [s]
  {
    if |s| > 0 {
      SplitPlain(s[1..], sep);
      assert s == [s[0]] + s[1..];
    }
  }

  lemma {:induction false} SplitFirst(head: string, tail: string, sep: char)
    requires sep !in head
    ensures Split(head + [sep] + tail, sep) == [head] + Split(tail, sep)
  {
    var s := head + [sep] + tail;
    if |head| == 0 {
      assert s[1..] == tail;
    } else {
      assert s[1..] == head[1..] + [sep] + tail;
      SplitFirst(head[1..], tail, sep);
      assert head == [head[0]] + head[1..];
    }
  }

  lemma {:induction false} JoinOfSplit(s: string, sep: char)
    ensures Join(Split(s, sep), sep) == s
  {
    if |s| > 0 {
      JoinOfSplit(s[1..], sep);
      var rest := Split(s[1..], sep);
      assert s == [s[0]] + s[1..];
      if s[0] == sep {
        assert ([""] + rest)[1..] == rest;
      } else if |rest| > 1 {
        assert ([[s[0]] + rest[0]] + rest[1..])[1..] == rest[1..];
      }
    }
  }

  lemma {:induction false} SplitOfJoinPlain(parts: seq<string>, sep: char)
    requires |parts| > 0
    requires forall part :: part in parts ==> sep !in part
    ensures Split(Join(parts, sep), sep) == parts
  {
    if |parts| == 1 {
      SplitPlain(parts[0], sep);
    } else {
      SplitFirst(parts[0], Join(parts[1..], sep), sep);
      SplitOfJoinPlain(parts[1..], sep);
      assert parts == [parts[0]] + parts[1..];
    }
  }

  /** Splitting undoes joining exactly for a non-empty list whose parts are free of the separator. */
  lemma SplitOfJoin(parts: seq<string>, sep: char)
    ensures Split(Join(parts, sep), sep) == parts <==>
            |parts| > 0 && forall part :: part in parts ==> sep !in part
  {
    if |parts| > 0 && forall part :: part in parts ==> sep !in part {
      SplitOfJoinPlain(parts, sep);
    }
  }

  lemma {:induction false} JoinEmpty(parts: seq<string>, sep: char)
    requires "" !in parts
    ensures Join(parts, sep) == "" <==> parts == []
  {
  }

  /** The characters of all parts. */
  function Chars(parts: seq<string>): nat {
    if |parts| == 0 then 0 else |parts[0]| + Chars(parts[1..])
  }

  lemma {:induction false} JoinChars(parts: seq<string>, sep: char)
    requires |parts| > 0
    ensures |Join(parts, sep)| == Chars(parts) + |parts| - 1
  {
    if |parts| > 1 {
      JoinChars(parts[1..], sep);
    }
  }

  lemma {:induction false} CharsConcat(a: seq<string>, b: seq<string>)
    ensures Chars(a + b) == Chars(a) + Chars(b)
  {
    if |a| == 0 {
      assert a + b == b;
    } else {
      assert (a + b)[1..] == a[1..] + b;
      CharsConcat(a[1..], b);
    }
  }

  /** The parts but one. */
  function Without(parts: seq<string>, i: nat): (rest: seq<string>)
    requires i < |parts|
    ensures |rest| == |parts| - 1
  {
    parts[..i] + parts[i + 1..]
  }

  lemma CharsWithout(parts: seq<string>, i: nat)
    requires i < |parts|
    ensures Chars(parts) == |parts[i]| + Chars(Without(parts, i))
    ensures multiset(parts) == multiset(Without(parts, i)) + multiset{parts[i]}
  {
    assert parts == parts[..i] + ([parts[i]] + parts[i + 1..]);
    CharsConcat(parts[..i], parts[i..]);
    CharsConcat(parts[..i], parts[i + 1..]);
  }

  lemma {:induction false} CharsPermuted(a: seq<string>, b: seq<string>)
    requires multiset(a) == multiset(b)
    ensures Chars(a) == Chars(b) && |a| == |b|
    decreases |a|
  {
    assert |multiset(a)| == |a| && |multiset(b)| == |b|;
    if |a| > 0 {
      assert a[0] in multiset(b);
      var i: nat :| i < |b| && b[i] == a[0];
      CharsWithout(a, 0);
      CharsWithout(b, i);
      assert multiset(Without(a, 0)) == multiset(a) - multiset{a[0]};
      assert multiset(Without(b, i)) == multiset(b) - multiset{b[i]};
      CharsPermuted(Without(a, 0), Without(b, i));
    }
  }

  /** The length of a joined text does not depend on the order of its parts. */
  lemma JoinPermuted(a: seq<string>, b: seq<string>, sep: char)
    requires multiset(a) == multiset(b)
    ensures |Join(a, sep)| == |Join(b, sep)|
  {
    CharsPermuted(a, b);
    if |a| > 0 {
      JoinChars(a, sep);
      JoinChars(b, sep);
    }
  }

  /** `strings.HasPrefix`. */
  predicate HasPrefix(s: string, prefix: string) {
    prefix <= s
  }

  /** `strings.Contains`. */
  predicate Contains(s: string, part: string) {
    exists i :: 0 <= i <= |s| && part <= s[i..]
  }
}
