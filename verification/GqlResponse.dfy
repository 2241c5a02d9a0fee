/** The flattening of GraphQL responses (frontend/src/graphql-components/utiles.ts): nested objects
    are merged into the object that holds them. An object is its list of fields in key order. */
module GqlResponse {
  import opened Common

  /** `null` and every value whose `typeof` is not "object" is a scalar. */
  datatype Json = Scalar(text: string) | Arr(items: seq<Json>) | Obj(fields: seq<Field>)
  datatype Field = Field(key: string, value: Json)

  predicate HasKey(fs: seq<Field>, key: string) {
    exists i :: 0 <= i < |fs| && fs[i].key == key
  }

  predicate Distinct(fs: seq<Field>) {
    forall i, j :: 0 <= i < j < |fs| ==> fs[i].key != fs[j].key
  }

  /** Assignment to a property: in place when the key exists, else a new last key. */
  function Put(fs: seq<Field>, f: Field): (r: seq<Field>)
    ensures forall key :: HasKey(r, key) <==> HasKey(fs, key) || key == f.key
    ensures forall g :: g in r ==> g in fs || g == f
    ensures Distinct(fs) ==> Distinct(r)
  {
    if |fs| == 0 then
      HeadKeys(f, []);
      [f]
    else if fs[0].key == f.key then
      PutHead(fs, f);
      [f] + fs[1..]
    else
      HeadKeys(fs[0], fs[1..]);
      HeadKeys(fs[0], Put(fs[1..], f));
      assert fs == [fs[0]] + fs[1..];
      [fs[0]] + Put(fs[1..], f)
  }

  lemma PutHead(fs: seq<Field>, f: Field)
    requires |fs| > 0 && fs[0].key == f.key
    ensures forall key :: HasKey([f] + fs[1..], key) <==> HasKey(fs, key)
  {
    var r := [f] + fs[1..];
    assert forall i :: 0 <= i < |fs| ==> r[i].key == fs[i].key;
  }

  lemma HeadKeys(f: Field, rest: seq<Field>)
    ensures forall key :: HasKey([f] + rest, key) <==> f.key == key || HasKey(rest, key)
    ensures Distinct([f] + rest) <==> Distinct(rest) && !HasKey(rest, f.key)
  {
    forall key ensures HasKey([f] + rest, key) <==> f.key == key || HasKey(rest, key) {
      HeadKey(f, rest, key);
    }
    var fs := [f] + rest;
    if Distinct(fs) {
      forall i, j | 0 <= i < j < |rest| ensures rest[i].key != rest[j].key {
        assert fs[i + 1] == rest[i] && fs[j + 1] == rest[j];
      }
      forall i | 0 <= i < |rest| ensures rest[i].key != f.key {
        assert fs[0] == f && fs[i + 1] == rest[i];
      }
    }
    if Distinct(rest) && !HasKey(rest, f.key) {
      forall i, j | 0 <= i < j < |fs| ensures fs[i].key != fs[j].key {
        assert fs[j] == rest[j - 1] && (i > 0 ==> fs[i] == rest[i - 1]);
      }
    }
  }

  lemma HeadKey(f: Field, rest: seq<Field>, key: string)
    ensures HasKey([f] + rest, key) <==> f.key == key || HasKey(rest, key)
  {
    var fs := [f] + rest;
    assert fs[0] == f;
    assert forall i :: 0 <= i < |rest| ==> rest[i] == fs[i + 1];
  }

  function PutAll(fs: seq<Field>, gs: seq<Field>): seq<Field>
    decreases |gs|
  {
    if |gs| == 0 then fs else PutAll(Put(fs, gs[0]), gs[1..])
  }

  /** What beautifyGqlResponse returns. */
  function Beautify(j: Json): Json
    decreases j, 1
  {
    match j
    case Scalar(_) => j
    case Arr(items) => Arr(BeautifyItems(items))
    case Obj(fields) => Obj(Collect([], fields))
  }

  function BeautifyItems(items: seq<Json>): (r: seq<Json>)
    ensures |r| == |items|
    decreases items, 0
  {
    if |items| == 0 then [] else [Beautify(items[0])] + BeautifyItems(items[1..])
  }

  /** The object under construction after the remaining fields. */
  function Collect(acc: seq<Field>, fields: seq<Field>): seq<Field>
    decreases fields, 0
  {
    if |fields| == 0 then acc
    else Collect(Absorb(acc, fields[0].key, Beautify(fields[0].value)), fields[1..])
  }

  function Absorb(acc: seq<Field>, key: string, tmp: Json): seq<Field> {
    if tmp.Obj? then PutAll(acc, tmp.fields) else Put(acc, Field(key, tmp))
  }

  lemma {:induction false} BeautifyItemsAt(items: seq<Json>, i: nat)
    requires i < |items|
    ensures BeautifyItems(items)[i] == Beautify(items[i])
  {
    if i > 0 {
      BeautifyItemsAt(items[1..], i - 1);
    }
  }

  /** beautifyGqlResponse with its loops. */
  method BeautifyGqlResponse(obj: Json) returns (r: Json)
    ensures r == Beautify(obj)
    decreases obj
  {
    if obj.Scalar? {
      return obj;
    }
    if obj.Arr? {
      var newArray: seq<Json> := [];
      for i := 0 to |obj.items|
        invariant newArray == BeautifyItems(obj.items)[..i]
      {
        var e := BeautifyGqlResponse(obj.items[i]);
        BeautifyItemsAt(obj.items, i);
        newArray := newArray + [e];
      }
      return Arr(newArray);
    }
    var newObj: seq<Field> := [];
    assert obj.fields[0..] == obj.fields;
    for i := 0 to |obj.fields|
      invariant Collect(newObj, obj.fields[i..]) == Collect([], obj.fields)
    {
      var tmp := BeautifyGqlResponse(obj.fields[i].value);
      assert obj.fields[i..][0] == obj.fields[i] && obj.fields[i..][1..] == obj.fields[i + 1..];
      ghost var acc := newObj;
      if !tmp.Obj? {
        newObj := Put(newObj, Field(obj.fields[i].key, tmp));
      } else {
        assert tmp.fields[0..] == tmp.fields;
        for k := 0 to |tmp.fields|
          invariant PutAll(newObj, tmp.fields[k..]) == PutAll(acc, tmp.fields)
        {
          assert tmp.fields[k..][0] == tmp.fields[k] && tmp.fields[k..][1..] == tmp.fields[k + 1..];
          newObj := Put(newObj, tmp.fields[k]);
        }
      }
      assert newObj == Absorb(acc, obj.fields[i].key, tmp);
    }
    r := Obj(newObj);
  }

  // ----- The result is the fold of the leaves, last writer wins -----

  /** The leaves of an object in depth-first key order. An array is a leaf, flattened inside. */
  function Leaves(fields: seq<Field>): seq<Field>
    decreases fields
  {
    if |fields| == 0 then []
    else
      var v := fields[0].value;
      (if v.Obj? then Leaves(v.fields) else [Field(fields[0].key, Beautify(v))]) + Leaves(fields[1..])
  }

  lemma {:induction false} PutAllConcat(fs: seq<Field>, a: seq<Field>, b: seq<Field>)
    ensures PutAll(fs, a + b) == PutAll(PutAll(fs, a), b)
    decreases |a|
  {
    if |a| == 0 {
      assert a + b == b;
    } else {
      assert (a + b)[1..] == a[1..] + b;
      PutAllConcat(Put(fs, a[0]), a[1..], b);
    }
  }

  lemma {:induction false} PutSame(fs: seq<Field>, f: Field, g: Field)
    requires f.key == g.key
    ensures Put(Put(fs, f), g) == Put(fs, g)
  {
    if |fs| > 0 && fs[0].key != f.key {
      PutSame(fs[1..], f, g);
      assert Put(fs, f)[1..] == Put(fs[1..], f);
    }
  }

  lemma {:induction false} PutSwap(fs: seq<Field>, f: Field, g: Field)
    requires HasKey(fs, f.key) && f.key != g.key
    ensures Put(Put(fs, f), g) == Put(Put(fs, g), f)
  {
    HeadKey(fs[0], fs[1..], f.key);
    assert fs == [fs[0]] + fs[1..];
    if fs[0].key == f.key {
      assert Put(fs, f)[1..] == fs[1..] && Put(fs, g)[1..] == Put(fs[1..], g);
    } else if fs[0].key == g.key {
      assert Put(fs, f)[1..] == Put(fs[1..], f) && Put(fs, g)[1..] == fs[1..];
    } else {
      PutSwap(fs[1..], f, g);
      assert Put(fs, f)[1..] == Put(fs[1..], f) && Put(fs, g)[1..] == Put(fs[1..], g);
    }
  }

  lemma {:induction false} PutAllSwap(fs: seq<Field>, gs: seq<Field>, f: Field)
    requires HasKey(fs, f.key) && !HasKey(gs, f.key)
    ensures PutAll(Put(fs, f), gs) == Put(PutAll(fs, gs), f)
    decreases |gs|
  {
    if |gs| > 0 {
      HeadKey(gs[0], gs[1..], f.key);
      assert gs == [gs[0]] + gs[1..];
      PutSwap(fs, f, gs[0]);
      PutAllSwap(Put(fs, gs[0]), gs[1..], f);
    }
  }

  lemma {:induction false} PutThrough(fs: seq<Field>, gs: seq<Field>, f: Field)
    requires Distinct(gs)
    ensures PutAll(fs, Put(gs, f)) == Put(PutAll(fs, gs), f)
    decreases |gs|
  {
    if |gs| > 0 {
      if gs[0].key == f.key {
        assert ([f] + gs[1..])[1..] == gs[1..];
        PutSame(fs, gs[0], f);
        PutAllSwap(Put(fs, gs[0]), gs[1..], f);
      } else {
        assert Put(gs, f)[1..] == Put(gs[1..], f);
        PutThrough(Put(fs, gs[0]), gs[1..], f);
      }
    }
  }

  /** Writing the merged fields is writing the fields one after the other. */
  lemma {:induction false} PutAllMerged(fs: seq<Field>, ms: seq<Field>, gs: seq<Field>)
    requires Distinct(ms)
    ensures PutAll(fs, PutAll(ms, gs)) == PutAll(PutAll(fs, ms), gs)
    decreases |gs|
  {
    if |gs| > 0 {
      PutThrough(fs, ms, gs[0]);
      PutAllMerged(fs, Put(ms, gs[0]), gs[1..]);
    }
  }

  lemma {:induction false} CollectIsFold(acc: seq<Field>, fields: seq<Field>)
    ensures Collect(acc, fields) == PutAll(acc, Leaves(fields))
    decreases fields
  {
    if |fields| > 0 {
      var key, v := fields[0].key, fields[0].value;
      var tmp := Beautify(v);
      var first := if v.Obj? then Leaves(v.fields) else [Field(key, tmp)];
      assert Absorb(acc, key, tmp) == PutAll(acc, first) by {
        if v.Obj? {
          CollectIsFold([], v.fields);
          PutAllMerged(acc, [], first);
        } else {
          assert first[1..] == [];
        }
      }
      CollectIsFold(PutAll(acc, first), fields[1..]);
      PutAllConcat(acc, first, Leaves(fields[1..]));
    }
  }

  /** beautifyGqlResponse of an object is the fold of property assignments over its leaves. */
  lemma BeautifyIsFold(fields: seq<Field>)
    ensures Beautify(Obj(fields)) == Obj(PutAll([], Leaves(fields)))
  {
    CollectIsFold([], fields);
  }

  function Lookup(fs: seq<Field>, key: string): Option<Json> {
    if |fs| == 0 then None
    else if fs[0].key == key then Some(fs[0].value)
    else Lookup(fs[1..], key)
  }

  /** The value of the last field with the key. */
  function LastValue(fs: seq<Field>, key: string): Option<Json> {
    if |fs| == 0 then None
    else if fs[|fs| - 1].key == key then Some(fs[|fs| - 1].value)
    else LastValue(fs[..|fs| - 1], key)
  }

  lemma {:induction false} LookupPut(fs: seq<Field>, f: Field, key: string)
    ensures Lookup(Put(fs, f), key) == if key == f.key then Some(f.value) else Lookup(fs, key)
  {
    if |fs| > 0 {
      if fs[0].key == f.key {
        assert Put(fs, f)[1..] == fs[1..];
      } else {
        LookupPut(fs[1..], f, key);
        assert Put(fs, f)[1..] == Put(fs[1..], f);
      }
    }
  }

  lemma {:induction false} LastWriterWins(gs: seq<Field>, key: string)
    ensures Lookup(PutAll([], gs), key) == LastValue(gs, key)
  {
    if |gs| > 0 {
      var n := |gs| - 1;
      assert gs == gs[..n] + [gs[n]];
      PutAllConcat([], gs[..n], [gs[n]]);
      assert [gs[n]][1..] == [];
      LookupPut(PutAll([], gs[..n]), gs[n], key);
      LastWriterWins(gs[..n], key);
    }
  }

  /** Each key of the result holds its last leaf in depth-first order, and a key is
      in the result exactly when it is the key of a leaf. */
  lemma BeautifyLastLeaf(fields: seq<Field>, key: string)
    ensures Lookup(Beautify(Obj(fields)).fields, key) == LastValue(Leaves(fields), key)
  {
    BeautifyIsFold(fields);
    LastWriterWins(Leaves(fields), key);
  }

  lemma {:induction false} PutFresh(fs: seq<Field>, f: Field)
    requires !HasKey(fs, f.key)
    ensures Put(fs, f) == fs + [f]
  {
    if |fs| > 0 {
      HeadKey(fs[0], fs[1..], f.key);
      assert fs == [fs[0]] + fs[1..];
      PutFresh(fs[1..], f);
    }
  }

  lemma {:induction false} PutAllFresh(fs: seq<Field>, gs: seq<Field>)
    requires Distinct(fs + gs)
    ensures PutAll(fs, gs) == fs + gs
    decreases |gs|
  {
    if |gs| == 0 {
      assert fs + gs == fs;
    } else {
      var all := fs + gs;
      assert all[|fs|] == gs[0];
      assert forall i :: 0 <= i < |fs| ==> all[i] == fs[i];
      PutFresh(fs, gs[0]);
      assert (fs + [gs[0]]) + gs[1..] == all;
      PutAllFresh(fs + [gs[0]], gs[1..]);
    }
  }

  /** The result is the list of leaves itself, none lost, none invented and in order, if and only if
      no two leaves share a key. */
  lemma BeautifyKeepsLeaves(fields: seq<Field>)
    ensures Beautify(Obj(fields)) == Obj(Leaves(fields)) <==> Distinct(Leaves(fields))
  {
    BeautifyNormal(Obj(fields));
    if Distinct(Leaves(fields)) {
      BeautifyIsFold(fields);
      assert [] + Leaves(fields) == Leaves(fields);
      PutAllFresh([], Leaves(fields));
    }
  }

  // ----- The whole result, at every depth and through arrays, told from the input alone -----

  /** A step into a tree, and what there is to see at its end. */
  datatype Turn = Index(i: nat) | Key(key: string)
  datatype Node = Text(text: string) | List(length: nat) | Record(keys: seq<string>)

  /** What a tree holds at the end of a path. */
  function Read(j: Json, path: seq<Turn>): Option<Node>
    decreases |path|
  {
    if |path| == 0 then
      match j
      case Scalar(text) => Some(Text(text))
      case Arr(items) => Some(List(|items|))
      case Obj(fields) => Some(Record(Keys(fields)))
    else
      match path[0]
      case Index(i) => if j.Arr? && i < |j.items| then Read(j.items[i], path[1..]) else None
      case Key(key) =>
        if j.Obj? && Lookup(j.fields, key).Some? then Read(Lookup(j.fields, key).value, path[1..]) else None
  }

  function Keys(fields: seq<Field>): seq<string> {
    seq(|fields|, i requires 0 <= i < |fields| => fields[i].key)
  }

  /** The fields of an object that are not objects, its own and those of the objects inside it, in
      depth-first order and as they are. */
  function Inner(fields: seq<Field>): seq<Field>
    decreases fields
  {
    if |fields| == 0 then []
    else (if fields[0].value.Obj? then Inner(fields[0].value.fields) else [fields[0]]) + Inner(fields[1..])
  }

  /** The list without later repeats. */
  function FirstOnes(keys: seq<string>): seq<string> {
    if |keys| == 0 then []
    else
      var n := |keys| - 1;
      FirstOnes(keys[..n]) + if keys[n] in keys[..n] then [] else [keys[n]]
  }

  /** What the flattened tree should hold at the end of a path: array indexes are kept, object nesting is
      dropped, and the last field of a key counts. */
  function Flat(j: Json, path: seq<Turn>): Option<Node>
    decreases |path|
  {
    if |path| == 0 then
      match j
      case Scalar(text) => Some(Text(text))
      case Arr(items) => Some(List(|items|))
      case Obj(fields) => Some(Record(FirstOnes(Keys(Inner(fields)))))
    else
      match path[0]
      case Index(i) => if j.Arr? && i < |j.items| then Flat(j.items[i], path[1..]) else None
      case Key(key) =>
        if j.Obj? && LastValue(Inner(j.fields), key).Some?
        then Flat(LastValue(Inner(j.fields), key).value, path[1..]) else None
  }

  /** The leaves are the inner fields, each flattened by itself. */
  lemma {:induction false} LeavesOfInner(fields: seq<Field>)
    ensures |Leaves(fields)| == |Inner(fields)|
    ensures forall i :: 0 <= i < |Inner(fields)| ==>
      Leaves(fields)[i] == Field(Inner(fields)[i].key, Beautify(Inner(fields)[i].value))
    decreases fields
  {
    if |fields| > 0 {
      LeavesOfInner(fields[1..]);
      if fields[0].value.Obj? {
        LeavesOfInner(fields[0].value.fields);
      }
    }
  }

  lemma {:induction false} LastOfLeaves(leaves: seq<Field>, inner: seq<Field>, key: string)
    requires |leaves| == |inner|
    requires forall i :: 0 <= i < |inner| ==> leaves[i] == Field(inner[i].key, Beautify(inner[i].value))
    ensures
      var found := LastValue(inner, key);
      LastValue(leaves, key) == if found.Some? then Some(Beautify(found.value)) else None
  {
    if |inner| > 0 {
      LastOfLeaves(leaves[..|inner| - 1], inner[..|inner| - 1], key);
    }
  }

  lemma KeysOfHead(f: Field, rest: seq<Field>)
    ensures Keys([f] + rest) == [f.key] + Keys(rest)
  {
  }

  lemma {:induction false} KeysOfPut(fs: seq<Field>, f: Field)
    ensures Keys(Put(fs, f)) == Keys(fs) + if HasKey(fs, f.key) then [] else [f.key]
  {
    if |fs| > 0 {
      HeadKey(fs[0], fs[1..], f.key);
      assert fs == [fs[0]] + fs[1..];
      KeysOfHead(fs[0], fs[1..]);
      if fs[0].key == f.key {
        KeysOfHead(f, fs[1..]);
      } else {
        KeysOfPut(fs[1..], f);
        KeysOfHead(fs[0], Put(fs[1..], f));
      }
    }
  }

  lemma {:induction false} KeysOfFold(gs: seq<Field>)
    ensures Keys(PutAll([], gs)) == FirstOnes(Keys(gs))
    ensures forall key :: HasKey(PutAll([], gs), key) <==> key in Keys(gs)
  {
    if |gs| > 0 {
      var n := |gs| - 1;
      assert gs == gs[..n] + [gs[n]];
      PutAllConcat([], gs[..n], [gs[n]]);
      assert [gs[n]][1..] == [];
      KeysOfFold(gs[..n]);
      KeysOfPut(PutAll([], gs[..n]), gs[n]);
      assert Keys(gs)[..n] == Keys(gs[..n]);
    }
  }

  /** The keys of a flattened object: those of its inner fields, in the order of their first occurrence. */
  lemma BeautifyKeys(fields: seq<Field>)
    ensures Keys(Beautify(Obj(fields)).fields) == FirstOnes(Keys(Inner(fields)))
  {
    BeautifyIsFold(fields);
    KeysOfFold(Leaves(fields));
    LeavesOfInner(fields);
    assert Keys(Leaves(fields)) == Keys(Inner(fields));
  }

  /** A key of a flattened object holds the flattened last inner field of that key. */
  lemma BeautifyLastInner(fields: seq<Field>, key: string)
    ensures
      var found := LastValue(Inner(fields), key);
      Lookup(Beautify(Obj(fields)).fields, key) == if found.Some? then Some(Beautify(found.value)) else None
  {
    BeautifyLastLeaf(fields, key);
    LeavesOfInner(fields);
    LastOfLeaves(Leaves(fields), Inner(fields), key);
  }

  /** Every tree, every path: the result holds exactly what the input says it should. Arrays keep their
      length and their elements' places, objects get the keys of their inner fields in order, and every
      key its last value. */
  lemma {:induction false} BeautifyReads(j: Json, path: seq<Turn>)
    ensures Read(Beautify(j), path) == Flat(j, path)
    decreases |path|
  {
    if |path| == 0 {
      if j.Obj? {
        BeautifyKeys(j.fields);
      }
    } else {
      match path[0]
      case Index(i) =>
        if j.Arr? && i < |j.items| {
          BeautifyItemsAt(j.items, i);
          BeautifyReads(j.items[i], path[1..]);
        }
      case Key(key) =>
        if j.Obj? {
          BeautifyLastInner(j.fields, key);
          var found := LastValue(Inner(j.fields), key);
          if found.Some? {
            BeautifyReads(found.value, path[1..]);
          }
        }
    }
  }

  /** An array is flattened element by element: none is lost, none moves. */
  lemma BeautifyArray(items: seq<Json>)
    ensures
      var r := Beautify(Arr(items));
      r.Arr? && |r.items| == |items| && forall i :: 0 <= i < |items| ==> r.items[i] == Beautify(items[i])
  {
    forall i | 0 <= i < |items| ensures Beautify(Arr(items)).items[i] == Beautify(items[i]) {
      BeautifyItemsAt(items, i);
    }
  }

  // ----- Normal form and idempotence -----

  /** No object has an object as a direct value, at every depth. */
  predicate Normal(j: Json) {
    match j
    case Scalar(_) => true
    case Arr(items) => forall i :: 0 <= i < |items| ==> Normal(items[i])
    case Obj(fields) =>
      Distinct(fields) &&
      forall i :: 0 <= i < |fields| ==> !fields[i].value.Obj? && Normal(fields[i].value)
  }

  lemma NormalObj(fields: seq<Field>)
    ensures Normal(Obj(fields)) <==>
      Distinct(fields) && forall f :: f in fields ==> !f.value.Obj? && Normal(f.value)
  {
  }

  lemma {:induction false} PutAllNormal(fs: seq<Field>, gs: seq<Field>)
    requires Normal(Obj(fs)) && Normal(Obj(gs))
    ensures Normal(Obj(PutAll(fs, gs)))
    decreases |gs|
  {
    if |gs| > 0 {
      PutNormal(fs, gs[0]);
      NormalObj(gs);
      NormalObj(gs[1..]);
      PutAllNormal(Put(fs, gs[0]), gs[1..]);
    }
  }

  lemma PutNormal(fs: seq<Field>, f: Field)
    requires Normal(Obj(fs)) && !f.value.Obj? && Normal(f.value)
    ensures Normal(Obj(Put(fs, f)))
  {
  }

  lemma {:induction false} CollectNormal(acc: seq<Field>, fields: seq<Field>)
    requires Normal(Obj(acc))
    ensures Normal(Obj(Collect(acc, fields)))
    decreases fields, 0
  {
    if |fields| > 0 {
      var tmp := Beautify(fields[0].value);
      BeautifyNormal(fields[0].value);
      if tmp.Obj? {
        PutAllNormal(acc, tmp.fields);
      } else {
        PutNormal(acc, Field(fields[0].key, tmp));
      }
      CollectNormal(Absorb(acc, fields[0].key, tmp), fields[1..]);
    }
  }

  /** The result is in normal form, at every depth and inside arrays. */
  lemma {:induction false} BeautifyNormal(j: Json)
    ensures Normal(Beautify(j))
    decreases j, 1
  {
    match j
    case Scalar(_) =>
    case Arr(items) =>
      forall i | 0 <= i < |items| ensures Normal(BeautifyItems(items)[i]) {
        BeautifyItemsAt(items, i);
        BeautifyNormal(items[i]);
      }
    case Obj(fields) => CollectNormal([], fields);
  }

  lemma {:induction false} CollectFixed(acc: seq<Field>, fields: seq<Field>)
    requires Normal(Obj(fields)) && Distinct(acc + fields)
    ensures Collect(acc, fields) == acc + fields
    decreases fields, 0
  {
    if |fields| == 0 {
      assert acc + fields == acc;
    } else {
      NormalFixed(fields[0].value);
      var all := acc + fields;
      assert all[|acc|] == fields[0];
      assert forall i :: 0 <= i < |acc| ==> all[i] == acc[i];
      PutFresh(acc, fields[0]);
      assert (acc + [fields[0]]) + fields[1..] == all;
      NormalObj(fields);
      NormalObj(fields[1..]);
      CollectFixed(acc + [fields[0]], fields[1..]);
    }
  }

  lemma {:induction false} NormalFixed(j: Json)
    requires Normal(j)
    ensures Beautify(j) == j
    decreases j, 1
  {
    match j
    case Scalar(_) =>
    case Arr(items) =>
      forall i | 0 <= i < |items| ensures BeautifyItems(items)[i] == items[i] {
        BeautifyItemsAt(items, i);
        NormalFixed(items[i]);
      }
      assert BeautifyItems(items) == items;
    case Obj(fields) =>
      assert [] + fields == fields;
      CollectFixed([], fields);
  }

  /** A response is left as it is exactly when it is in normal form. */
  lemma FixedIffNormal(j: Json)
    ensures Beautify(j) == j <==> Normal(j)
  {
    BeautifyNormal(j);
    if Normal(j) {
      NormalFixed(j);
    }
  }

  lemma Idempotent(j: Json)
    ensures Beautify(Beautify(j)) == Beautify(j)
  {
    BeautifyNormal(j);
    NormalFixed(Beautify(j));
  }
}
