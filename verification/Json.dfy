/** JSON documents. An object keeps its members in insertion order, as a Python dict does. */
module Json {
  import opened Wrappers

  datatype Json =
    | Null
    | Bool(b: bool)
    | Num(n: real)
    | Str(s: string)
    | Arr(items: seq<Json>)
    | Obj(fields: seq<Field>)

  datatype Field = Field(key: string, value: Json)

  const EMPTY := Obj([])

  function Get(fs: seq<Field>, k: string): Option<Json> {
    if fs == [] then None
    else if fs[0].key == k then Some(fs[0].value)
    else Get(fs[1..], k)
  }

  predicate Has(fs: seq<Field>, k: string) { Get(fs, k).Some? }

  function Put(fs: seq<Field>, k: string, v: Json): seq<Field> {
    if fs == [] then [Field(k, v)]
    else if fs[0].key == k then [Field(k, v)] + fs[1..]
    else [fs[0]] + Put(fs[1..], k, v)
  }

  function Keys(fs: seq<Field>): seq<string> {
    if fs == [] then [] else [fs[0].key] + Keys(fs[1..])
  }

  /** Nesting depth; a scalar has height one. */
  ghost function Height(v: Json): (h: nat)
    ensures h >= 1
    decreases v
  {
    match v
    case Arr(items) => 1 + HeightAll(items)
    case Obj(fs) => 1 + HeightFields(fs)
    case _ => 1
  }

  ghost function HeightAll(items: seq<Json>): (h: nat)
    ensures forall i :: 0 <= i < |items| ==> Height(items[i]) <= h
    decreases items
  {
    if items == [] then 0
    else
      var h, t := Height(items[0]), HeightAll(items[1..]);
      if h < t then t else h
  }

  ghost function HeightFields(fs: seq<Field>): (h: nat)
    ensures forall i :: 0 <= i < |fs| ==> Height(fs[i].value) <= h
    decreases fs
  {
    if fs == [] then 0
    else
      var h, t := Height(fs[0].value), HeightFields(fs[1..]);
      if h < t then t else h
  }

  lemma GetCons(f: Field, rest: seq<Field>, k: string)
    ensures Get([f] + rest, k) == if f.key == k then Some(f.value) else Get(rest, k)
  {
    assert ([f] + rest)[1..] == rest;
  }

  lemma {:induction false} GetIsMember(fs: seq<Field>, k: string) returns (i: nat)
    requires Has(fs, k)
    ensures i < |fs| && fs[i] == Field(k, Get(fs, k).value)
  {
    if fs[0].key == k {
      i := 0;
    } else {
      var j := GetIsMember(fs[1..], k);
      i := j + 1;
    }
  }

  lemma {:induction false} MemberIsHad(fs: seq<Field>, i: nat)
    requires i < |fs|
    ensures Has(fs, fs[i].key)
  {
    if i > 0 && fs[0].key != fs[i].key {
      MemberIsHad(fs[1..], i - 1);
    }
  }

  lemma {:induction false} KeysAreHad(fs: seq<Field>, k: string)
    ensures k in Keys(fs) <==> Has(fs, k)
  {
    if fs != [] {
      KeysAreHad(fs[1..], k);
    }
  }

  lemma {:induction false} GetPut(fs: seq<Field>, k: string, v: Json, k': string)
    ensures Get(Put(fs, k, v), k') == if k' == k then Some(v) else Get(fs, k')
  {
    if fs != [] && fs[0].key != k {
      GetPut(fs[1..], k, v, k');
    }
  }

  /** Writing back what is already stored leaves the object as it is, order included. */
  lemma {:induction false} PutSame(fs: seq<Field>, k: string)
    requires Has(fs, k)
    ensures Put(fs, k, Get(fs, k).value) == fs
  {
    if fs[0].key != k {
      PutSame(fs[1..], k);
    }
  }

  lemma {:induction false} PutMembers(fs: seq<Field>, k: string, v: Json, i: nat)
    requires i < |Put(fs, k, v)|
    ensures Put(fs, k, v)[i] == Field(k, v) || Put(fs, k, v)[i] in fs
  {
    if fs != [] && fs[0].key != k && i > 0 {
      PutMembers(fs[1..], k, v, i - 1);
    }
  }
}
