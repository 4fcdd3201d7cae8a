/** What the open reading makes of documents with one keyword, after JSON Schema 2020-12. */
module SchemaReading {
  import opened Wrappers
  import opened Json
  import opened StrictSchema
  import opened SchemaMeaning

  function One(k: string, v: Json): seq<Field> { [Field(k, v)] }

  lemma OneGet(k: string, v: Json, k': string)
    ensures Get(One(k, v), k') == if k' == k then Some(v) else None
  {
    GetCons(Field(k, v), [], k');
    assert [Field(k, v)] + [] == One(k, v);
  }

  lemma OneGets(k: string, v: Json)
    ensures forall k' :: Get(One(k, v), k') == if k' == k then Some(v) else None
  {
    forall k' ensures Get(One(k, v), k') == if k' == k then Some(v) else None {
      OneGet(k, v, k');
    }
  }

  /** A node means the conjunction of its keywords. */
  lemma NodeMeans(m: Meaning, n: nat, defs: Json, fs: seq<Field>, x: Json)
    requires !IsRef(fs)
    ensures Accepts(m, false, n + 1, defs, Obj(fs), x) <==> Keywords(m, false, n, defs, fs, x)
  {
    if Keywords(m, false, n, defs, fs, x) {
      NodeAccepts(m, false, n, defs, fs, x);
    }
    if Accepts(m, false, n + 1, defs, Obj(fs), x) {
      NodeHolds(m, false, n + 1, defs, fs, x);
    }
  }

  /** `true` accepts everything, `false` nothing. */
  lemma BooleansMean(m: Meaning, n: nat, defs: Json, b: bool, x: Json)
    ensures Accepts(m, false, n + 1, defs, Bool(b), x) <==> b
  {
  }

  /** Which keywords a document with one of them does not have. */
  lemma Absent(k: string, v: Json)
    ensures Get(One(k, v), k) == Some(v)
    ensures k != "allOf" ==> !Has(One(k, v), "allOf")
    ensures k != "anyOf" ==> !Has(One(k, v), "anyOf")
    ensures k != "items" ==> !Has(One(k, v), "items")
    ensures k != "prefixItems" ==> !Has(One(k, v), "prefixItems")
    ensures k != "properties" ==> !Has(One(k, v), "properties")
    ensures k != "required" ==> !Has(One(k, v), "required")
    ensures k != "additionalProperties" ==> !Has(One(k, v), "additionalProperties")
  {
    OneGet(k, v, k);
    OneGet(k, v, "allOf");
    OneGet(k, v, "anyOf");
    OneGet(k, v, "items");
    OneGet(k, v, "prefixItems");
    OneGet(k, v, "properties");
    OneGet(k, v, "required");
    OneGet(k, v, "additionalProperties");
  }

  lemma NoAssertions(m: Meaning, k: string, v: Json, x: Json)
    requires !Assertion(k)
    ensures Assertions(m, One(k, v), x)
  {
    OneGets(k, v);
  }

  lemma NoAllOf(m: Meaning, n: nat, defs: Json, fs: seq<Field>, x: Json)
    requires !Has(fs, "allOf")
    ensures AllOf(m, false, n, defs, fs, x)
  {
  }

  lemma NoAnyOf(m: Meaning, n: nat, defs: Json, fs: seq<Field>, x: Json)
    requires !Has(fs, "anyOf")
    ensures AnyOf(m, false, n, defs, fs, x)
  {
  }

  lemma NoElements(m: Meaning, n: nat, defs: Json, fs: seq<Field>, x: Json)
    requires !Has(fs, "items") && !Has(fs, "prefixItems")
    ensures Elements(m, false, n, defs, fs, x)
  {
  }

  lemma NoProperties(m: Meaning, n: nat, defs: Json, fs: seq<Field>, x: Json)
    requires !Has(fs, "properties")
    ensures Properties(m, false, n, defs, fs, x)
  {
  }

  lemma NoOpenness(m: Meaning, n: nat, defs: Json, fs: seq<Field>, x: Json)
    requires !Has(fs, "required") && !Has(fs, "additionalProperties")
    ensures Extent(m, false, n, defs, fs, x)
  {
    assert Openness(m, false, n, defs, fs, x);
  }

  /** Without other keywords, only the assertion decides. */
  lemma AssertionMeans(m: Meaning, n: nat, defs: Json, k: string, v: Json, x: Json)
    requires Assertion(k)
    ensures Keywords(m, false, n, defs, One(k, v), x) <==> m(k, v, x)
  {
    var fs := One(k, v);
    Absent(k, v);
    OneGets(k, v);
    NoAllOf(m, n, defs, fs, x);
    NoAnyOf(m, n, defs, fs, x);
    NoElements(m, n, defs, fs, x);
    NoProperties(m, n, defs, fs, x);
    NoOpenness(m, n, defs, fs, x);
  }

  lemma AllOfMeans(m: Meaning, n: nat, defs: Json, ss: seq<Json>, x: Json)
    ensures Keywords(m, false, n, defs, One("allOf", Arr(ss)), x) <==>
      forall i :: 0 <= i < |ss| ==> Accepts(m, false, n, defs, ss[i], x)
  {
    var v: Json := Arr(ss);
    var fs := One("allOf", v);
    Absent("allOf", v);
    NoAssertions(m, "allOf", v, x);
    NoAnyOf(m, n, defs, fs, x);
    NoElements(m, n, defs, fs, x);
    NoProperties(m, n, defs, fs, x);
    NoOpenness(m, n, defs, fs, x);
    assert Members(Get(fs, "allOf")) == ss;
  }

  lemma AnyOfMeans(m: Meaning, n: nat, defs: Json, ss: seq<Json>, x: Json)
    ensures Keywords(m, false, n, defs, One("anyOf", Arr(ss)), x) <==>
      exists i :: 0 <= i < |ss| && Accepts(m, false, n, defs, ss[i], x)
  {
    var v: Json := Arr(ss);
    var fs := One("anyOf", v);
    Absent("anyOf", v);
    NoAssertions(m, "anyOf", v, x);
    NoAllOf(m, n, defs, fs, x);
    NoElements(m, n, defs, fs, x);
    NoProperties(m, n, defs, fs, x);
    NoOpenness(m, n, defs, fs, x);
    assert Members(Get(fs, "anyOf")) == ss;
  }

  lemma ItemsMean(m: Meaning, n: nat, defs: Json, s: Json, x: Json)
    ensures Keywords(m, false, n, defs, One("items", s), x) <==>
      (x.Arr? ==> forall i :: 0 <= i < |x.items| ==> Accepts(m, false, n, defs, s, x.items[i]))
  {
    var v: Json := s;
    var fs := One("items", v);
    Absent("items", v);
    NoAssertions(m, "items", v, x);
    NoAllOf(m, n, defs, fs, x);
    NoAnyOf(m, n, defs, fs, x);
    NoProperties(m, n, defs, fs, x);
    NoOpenness(m, n, defs, fs, x);
    ItemsOnly(m, n, defs, fs, s, x);
  }

  lemma PrefixItemsMean(m: Meaning, n: nat, defs: Json, ss: seq<Json>, x: Json)
    ensures Keywords(m, false, n, defs, One("prefixItems", Arr(ss)), x) <==>
      (x.Arr? ==> forall i :: 0 <= i < |x.items| && i < |ss| ==> Accepts(m, false, n, defs, ss[i], x.items[i]))
  {
    var v: Json := Arr(ss);
    var fs := One("prefixItems", v);
    Absent("prefixItems", v);
    NoAssertions(m, "prefixItems", v, x);
    NoAllOf(m, n, defs, fs, x);
    NoAnyOf(m, n, defs, fs, x);
    NoProperties(m, n, defs, fs, x);
    NoOpenness(m, n, defs, fs, x);
    PrefixOnly(m, n, defs, fs, ss, x);
  }

  lemma PropertiesMean(m: Meaning, n: nat, defs: Json, props: seq<Field>, x: Json)
    ensures Keywords(m, false, n, defs, One("properties", Obj(props)), x) <==>
      (x.Obj? ==> forall i :: 0 <= i < |x.fields| && Has(props, x.fields[i].key) ==>
         Accepts(m, false, n, defs, Get(props, x.fields[i].key).value, x.fields[i].value))
  {
    var v: Json := Obj(props);
    var fs := One("properties", v);
    Absent("properties", v);
    NoAssertions(m, "properties", v, x);
    NoAllOf(m, n, defs, fs, x);
    NoAnyOf(m, n, defs, fs, x);
    NoElements(m, n, defs, fs, x);
    NoOpenness(m, n, defs, fs, x);
    assert PropertiesOf(fs) == props;
  }

  lemma RequiredMeans(m: Meaning, n: nat, defs: Json, names: seq<Json>, x: Json)
    ensures Keywords(m, false, n, defs, One("required", Arr(names)), x) <==>
      (x.Obj? ==> forall k :: Str(k) in names ==> Has(x.fields, k))
  {
    var v: Json := Arr(names);
    var fs := One("required", v);
    Absent("required", v);
    NoAssertions(m, "required", v, x);
    NoAllOf(m, n, defs, fs, x);
    NoAnyOf(m, n, defs, fs, x);
    NoElements(m, n, defs, fs, x);
    NoProperties(m, n, defs, fs, x);
    RequiredOnly(m, n, defs, fs, names, x);
  }

  lemma AdditionalMeans(m: Meaning, n: nat, defs: Json, s: Json, x: Json)
    ensures Keywords(m, false, n, defs, One("additionalProperties", s), x) <==>
      (x.Obj? ==> forall i :: 0 <= i < |x.fields| ==> Accepts(m, false, n, defs, s, x.fields[i].value))
  {
    var v: Json := s;
    var fs := One("additionalProperties", v);
    Absent("additionalProperties", v);
    NoAssertions(m, "additionalProperties", v, x);
    NoAllOf(m, n, defs, fs, x);
    NoAnyOf(m, n, defs, fs, x);
    NoElements(m, n, defs, fs, x);
    NoProperties(m, n, defs, fs, x);
    AdditionalOnly(m, n, defs, fs, s, x);
  }

  lemma ItemsOnly(m: Meaning, n: nat, defs: Json, fs: seq<Field>, s: Json, x: Json)
    requires Get(fs, "items") == Some(s) && !Has(fs, "prefixItems")
    ensures Elements(m, false, n, defs, fs, x) <==>
      (x.Arr? ==> forall i :: 0 <= i < |x.items| ==> Accepts(m, false, n, defs, s, x.items[i]))
  {
    assert Members(Get(fs, "prefixItems")) == [];
  }

  lemma PrefixOnly(m: Meaning, n: nat, defs: Json, fs: seq<Field>, ss: seq<Json>, x: Json)
    requires Get(fs, "prefixItems") == Some(Arr(ss)) && !Has(fs, "items")
    ensures Elements(m, false, n, defs, fs, x) <==>
      (x.Arr? ==> forall i :: 0 <= i < |x.items| && i < |ss| ==> Accepts(m, false, n, defs, ss[i], x.items[i]))
  {
    assert Members(Get(fs, "prefixItems")) == ss;
  }

  lemma RequiredOnly(m: Meaning, n: nat, defs: Json, fs: seq<Field>, names: seq<Json>, x: Json)
    requires Get(fs, "required") == Some(Arr(names)) && !Has(fs, "additionalProperties")
    ensures Extent(m, false, n, defs, fs, x) <==> (x.Obj? ==> forall k :: Str(k) in names ==> Has(x.fields, k))
  {
    assert Members(Get(fs, "required")) == names;
    assert Extent(m, false, n, defs, fs, x) == Openness(m, false, n, defs, fs, x);
  }

  lemma AdditionalOnly(m: Meaning, n: nat, defs: Json, fs: seq<Field>, s: Json, x: Json)
    requires Get(fs, "additionalProperties") == Some(s) && !Has(fs, "required") && !Has(fs, "properties")
    ensures Extent(m, false, n, defs, fs, x) <==>
      (x.Obj? ==> forall i :: 0 <= i < |x.fields| ==> Accepts(m, false, n, defs, s, x.fields[i].value))
  {
    assert PropertiesOf(fs) == [] && Members(Get(fs, "required")) == [];
    assert Extent(m, false, n, defs, fs, x) == Openness(m, false, n, defs, fs, x);
  }

  /** The closed reading: an object node admits exactly its own names. */
  lemma ClosedNodeMeans(m: Meaning, n: nat, defs: Json, fs: seq<Field>, x: Json)
    requires Get(fs, "type") == Some(Str("object")) || Has(fs, "properties")
    requires !IsRef(fs) && x.Obj? && Accepts(m, true, n, defs, Obj(fs), x)
    ensures forall k :: Has(PropertiesOf(fs), k) <==> Has(x.fields, k)
  {
    NodeHolds(m, true, n, defs, fs, x);
    assert Extent(m, true, n - 1, defs, fs, x);
  }
}
