/** The two readings of a document compared, and what compilation does to the instances it accepts. */
module SchemaNarrowing {
  import opened Wrappers
  import opened Json
  import opened Orders
  import opened StrictSchema
  import opened SchemaMeaning

  // ----- deeper evaluations

  ghost predicate MonotoneAt(m: Meaning, closed: bool, n: nat, n': nat, defs: Json) {
    forall s, x :: Accepts(m, closed, n, defs, s, x) ==> Accepts(m, closed, n', defs, s, x)
  }

  lemma {:induction false} Monotone(m: Meaning, closed: bool, n: nat, defs: Json, s: Json, x: Json)
    requires Accepts(m, closed, n, defs, s, x)
    ensures Accepts(m, closed, n + 1, defs, s, x)
    decreases n
  {
    var k := n - 1;
    forall s', x' | Accepts(m, closed, k, defs, s', x') ensures Accepts(m, closed, n, defs, s', x') {
      Monotone(m, closed, k, defs, s', x');
    }
    if s.Obj? && !(closed && IsRef(s.fields)) {
      KeywordsMonotone(m, closed, k, n, defs, s.fields, x);
    }
  }

  lemma KeywordsMonotone(m: Meaning, closed: bool, n: nat, n': nat, defs: Json, fs: seq<Field>, x: Json)
    requires Keywords(m, closed, n, defs, fs, x) && MonotoneAt(m, closed, n, n', defs)
    ensures Keywords(m, closed, n', defs, fs, x)
  {
    assert AllOf(m, closed, n', defs, fs, x) by { assert AllOf(m, closed, n, defs, fs, x); }
    assert AnyOf(m, closed, n', defs, fs, x) by { assert AnyOf(m, closed, n, defs, fs, x); }
    assert Elements(m, closed, n', defs, fs, x) by { assert Elements(m, closed, n, defs, fs, x); }
    assert Properties(m, closed, n', defs, fs, x) by { assert Properties(m, closed, n, defs, fs, x); }
    ExtentMonotone(m, closed, n, n', defs, fs, x);
  }

  lemma ExtentMonotone(m: Meaning, closed: bool, n: nat, n': nat, defs: Json, fs: seq<Field>, x: Json)
    requires Extent(m, closed, n, defs, fs, x) && MonotoneAt(m, closed, n, n', defs)
    ensures Extent(m, closed, n', defs, fs, x)
  {
    if !(closed && IsObjectNode(fs)) {
      assert Openness(m, closed, n, defs, fs, x);
      assert Openness(m, closed, n', defs, fs, x);
    }
  }

  lemma {:induction false} MonotoneTo(m: Meaning, closed: bool, n: nat, n': nat, defs: Json, s: Json, x: Json)
    requires Accepts(m, closed, n, defs, s, x) && n <= n'
    ensures Accepts(m, closed, n', defs, s, x)
    decreases n' - n
  {
    if n < n' {
      Monotone(m, closed, n, defs, s, x);
      MonotoneTo(m, closed, n + 1, n', defs, s, x);
    }
  }

  // ----- the closed reading narrows the open one

  /** On the strict fragment the closed reading admits nothing the document rejects. */
  lemma {:induction false} ClosedNarrows(m: Meaning, n: nat, defs: Json, known: set<string>, s: Json, x: Json)
    requires Accepts(m, true, n, defs, s, x)
    requires InFragment(true, defs, known, s) && DefinitionsInFragment(true, defs, known)
    ensures Accepts(m, false, n, defs, s, x)
    decreases n, 1
  {
    if s.Obj? {
      var fs := s.fields;
      if IsRef(fs) {
        RefUnfolds(m, n, defs, fs, x);
        ClosedNarrows(m, n - 1, defs, known, Definition(defs, RefName(fs)), x);
        LoneReference(m, n - 1, defs, fs, x);
        RefAccepts(m, n, defs, fs, x);
      } else {
        NodeHolds(m, true, n, defs, fs, x);
        NodeNarrows(m, n - 1, defs, known, fs, x);
        NodeAccepts(m, false, n - 1, defs, fs, x);
      }
    }
  }

  lemma {:induction false} NodeNarrows(m: Meaning, n: nat, defs: Json, known: set<string>, fs: seq<Field>, x: Json)
    requires Keywords(m, true, n, defs, fs, x) && !Has(fs, "$ref")
    requires InFragment(true, defs, known, Obj(fs)) && DefinitionsInFragment(true, defs, known)
    ensures Keywords(m, false, n, defs, fs, x)
    decreases n, 2
  {
    forall s, y | InFragment(true, defs, known, s) && Accepts(m, true, n, defs, s, y)
      ensures Accepts(m, false, n, defs, s, y)
    {
      ClosedNarrows(m, n, defs, known, s, y);
    }
    KeywordsNarrow(m, n, defs, known, fs, x);
  }

  lemma RefAccepts(m: Meaning, n: nat, defs: Json, fs: seq<Field>, x: Json)
    requires n > 0 && IsRef(fs) && Resolves(defs, fs) && Keywords(m, false, n - 1, defs, fs, x)
    requires Accepts(m, false, n - 1, defs, Definition(defs, RefName(fs)), x)
    ensures Accepts(m, false, n, defs, Obj(fs), x)
  {
  }

  lemma LoneReference(m: Meaning, n: nat, defs: Json, fs: seq<Field>, x: Json)
    requires forall k :: Has(fs, k) ==> Dropped(k) || Annotation(k)
    ensures Keywords(m, false, n, defs, fs, x)
  {
    NotBeside(fs, "properties");
    NotBeside(fs, "required");
    NotBeside(fs, "additionalProperties");
    NotBeside(fs, "items");
    NotBeside(fs, "prefixItems");
    NotBeside(fs, "anyOf");
    NotBeside(fs, "allOf");
    NoKeywords(m, n, defs, fs, x);
  }

  lemma NotBeside(fs: seq<Field>, k: string)
    requires Structural(k) && forall k' :: Has(fs, k') ==> Dropped(k') || Annotation(k')
    ensures !Has(fs, k)
  {
    StructuralIsKept(k);
  }

  lemma StructuralIsKept(k: string)
    requires Structural(k)
    ensures !Dropped(k) && !Annotation(k)
  {
  }

  lemma NoKeywords(m: Meaning, n: nat, defs: Json, fs: seq<Field>, x: Json)
    requires Assertions(m, fs, x)
    requires !Has(fs, "properties") && !Has(fs, "required") && !Has(fs, "additionalProperties")
    requires !Has(fs, "items") && !Has(fs, "prefixItems") && !Has(fs, "anyOf") && !Has(fs, "allOf")
    ensures Keywords(m, false, n, defs, fs, x)
  {
  }

  ghost predicate NarrowsAt(m: Meaning, n: nat, defs: Json, known: set<string>) {
    forall s, x :: InFragment(true, defs, known, s) && Accepts(m, true, n, defs, s, x) ==>
      Accepts(m, false, n, defs, s, x)
  }

  lemma KeywordsNarrow(m: Meaning, n: nat, defs: Json, known: set<string>, fs: seq<Field>, x: Json)
    requires InFragment(true, defs, known, Obj(fs)) && !Has(fs, "$ref") && Keywords(m, true, n, defs, fs, x)
    requires NarrowsAt(m, n, defs, known)
    ensures Keywords(m, false, n, defs, fs, x)
  {
    MembersNarrow(m, n, defs, known, fs, x);
    ElementsNarrow(m, n, defs, known, fs, x);
    PropertiesInFragment(true, defs, known, fs);
    assert Properties(m, false, n, defs, fs, x);
    ExtentNarrows(m, n, defs, known, fs, x);
  }

  lemma MembersNarrow(m: Meaning, n: nat, defs: Json, known: set<string>, fs: seq<Field>, x: Json)
    requires InFragment(true, defs, known, Obj(fs)) && !Has(fs, "$ref") && NarrowsAt(m, n, defs, known)
    requires AllOf(m, true, n, defs, fs, x) && AnyOf(m, true, n, defs, fs, x)
    ensures AllOf(m, false, n, defs, fs, x) && AnyOf(m, false, n, defs, fs, x)
  {
    AllNarrow(m, n, defs, known, fs, x);
    AnyNarrows(m, n, defs, known, fs, x);
  }

  lemma AllNarrow(m: Meaning, n: nat, defs: Json, known: set<string>, fs: seq<Field>, x: Json)
    requires InFragment(true, defs, known, Obj(fs)) && !Has(fs, "$ref") && NarrowsAt(m, n, defs, known)
    requires AllOf(m, true, n, defs, fs, x)
    ensures AllOf(m, false, n, defs, fs, x)
  {
    if Has(fs, "allOf") {
      MembersInFragment(true, defs, known, fs, "allOf");
    }
  }

  lemma AnyNarrows(m: Meaning, n: nat, defs: Json, known: set<string>, fs: seq<Field>, x: Json)
    requires InFragment(true, defs, known, Obj(fs)) && !Has(fs, "$ref") && NarrowsAt(m, n, defs, known)
    requires AnyOf(m, true, n, defs, fs, x)
    ensures AnyOf(m, false, n, defs, fs, x)
  {
    if Has(fs, "anyOf") {
      MembersInFragment(true, defs, known, fs, "anyOf");
    }
  }

  lemma ElementsNarrow(m: Meaning, n: nat, defs: Json, known: set<string>, fs: seq<Field>, x: Json)
    requires InFragment(true, defs, known, Obj(fs)) && !Has(fs, "$ref") && NarrowsAt(m, n, defs, known)
    requires Elements(m, true, n, defs, fs, x)
    ensures Elements(m, false, n, defs, fs, x)
  {
    if Has(fs, "prefixItems") {
      MembersInFragment(true, defs, known, fs, "prefixItems");
    }
    if Has(fs, "items") {
      SubschemaInFragment(true, defs, known, fs, "items");
    }
  }

  lemma ExtentNarrows(m: Meaning, n: nat, defs: Json, known: set<string>, fs: seq<Field>, x: Json)
    requires InFragment(true, defs, known, Obj(fs)) && !Has(fs, "$ref") && NarrowsAt(m, n, defs, known)
    requires Extent(m, true, n, defs, fs, x)
    ensures Extent(m, false, n, defs, fs, x)
  {
    if x.Obj? {
      if IsObjectNode(fs) {
        forall i | 0 <= i < |x.fields| ensures Has(PropertiesOf(fs), x.fields[i].key) {
          MemberIsHad(x.fields, i);
        }
      } else if Has(fs, "additionalProperties") {
        SubschemaInFragment(true, defs, known, fs, "additionalProperties");
      }
    }
  }

  // ----- the main results

  ghost predicate Valid(m: Meaning, closed: bool, defs: Json, s: Json, x: Json) {
    exists n: nat :: Accepts(m, closed, n, defs, s, x)
  }

  /** The compiled document accepts exactly what the closed reading of the original accepts. */
  lemma CompileMeansClosed(m: Meaning, limit: nat, known: set<string>, schema: Json, x: Json)
    requires schema.Obj? && Compile(limit, schema).Ok?
    requires InFragment(false, DefinitionsOf(schema), known, schema)
    requires DefinitionsInFragment(false, DefinitionsOf(schema), known)
    ensures Valid(m, false, EMPTY, Compile(limit, schema).value, x) <==>
      Valid(m, true, DefinitionsOf(schema), schema, x)
  {
    var defs, out := DefinitionsOf(schema), Compile(limit, schema).value;
    if Valid(m, false, EMPTY, out, x) {
      var n := Raise(m, false, limit, EMPTY, out, x);
      Exact(m, limit, limit, n, defs, known, schema, x);
    }
    if Valid(m, true, defs, schema, x) {
      var n := Raise(m, true, limit, defs, schema, x);
      Exact(m, limit, n, limit, defs, known, schema, x);
    }
  }

  lemma Raise(m: Meaning, closed: bool, least: nat, defs: Json, s: Json, x: Json) returns (n: nat)
    requires Valid(m, closed, defs, s, x)
    ensures n >= least && Accepts(m, closed, n, defs, s, x)
  {
    n :| Accepts(m, closed, n, defs, s, x);
    MonotoneTo(m, closed, n, n + least, defs, s, x);
    n := n + least;
  }

  /** Compilation only narrows: what the compiled document accepts, the original accepts. */
  lemma CompileSound(m: Meaning, limit: nat, known: set<string>, schema: Json, x: Json)
    requires schema.Obj? && Compile(limit, schema).Ok?
    requires InFragment(true, DefinitionsOf(schema), known, schema)
    requires DefinitionsInFragment(true, DefinitionsOf(schema), known)
    requires Valid(m, false, EMPTY, Compile(limit, schema).value, x)
    ensures Valid(m, false, DefinitionsOf(schema), schema, x)
  {
    var defs := DefinitionsOf(schema);
    StrictFragment(defs, known, schema);
    forall name | name in known ensures InFragment(false, defs, known, Definition(defs, name)) {
      StrictFragment(defs, known, Definition(defs, name));
    }
    CompileMeansClosed(m, limit, known, schema, x);
    var n: nat :| Accepts(m, true, n, defs, schema, x);
    ClosedNarrows(m, n, defs, known, schema, x);
  }

  lemma {:induction false} StrictFragment(defs: Json, known: set<string>, s: Json)
    requires InFragment(true, defs, known, s)
    ensures InFragment(false, defs, known, s)
    decreases s
  {
    if s.Obj? && !Has(s.fields, "$ref") {
      forall i | 0 <= i < |s.fields| ensures FieldInFragment(false, defs, known, s.fields[i]) {
        StrictFragmentField(defs, known, s.fields[i]);
      }
    }
  }

  lemma {:induction false} StrictFragmentField(defs: Json, known: set<string>, f: Field)
    requires FieldInFragment(true, defs, known, f)
    ensures FieldInFragment(false, defs, known, f)
    decreases f
  {
    if Assertion(f.key) {
    } else if f.key == "properties" {
      forall j | 0 <= j < |f.value.fields| ensures InFragment(false, defs, known, f.value.fields[j].value) {
        StrictFragment(defs, known, f.value.fields[j].value);
      }
    } else if f.key in {"anyOf", "allOf", "prefixItems"} {
      forall j | 0 <= j < |f.value.items| ensures InFragment(false, defs, known, f.value.items[j]) {
        StrictFragment(defs, known, f.value.items[j]);
      }
    } else if f.key in {"items", "additionalProperties"} {
      StrictFragment(defs, known, f.value);
    }
  }
}
