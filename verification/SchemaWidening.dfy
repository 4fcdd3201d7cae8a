/** Documents whose compilation accepts more than they do, and when that happens to an enumeration. */
module SchemaWidening {
  import opened Wrappers
  import opened Json
  import opened Orders
  import opened StrictSchema
  import opened SchemaMeaning
  import opened SchemaNarrowing

  // ----- the failing families

  lemma AcceptedNode(m: Meaning, n: nat, defs: Json, fs: seq<Field>, x: Json)
    requires Accepts(m, false, n, defs, Obj(fs), x)
    ensures n > 0 && Assertions(m, fs, x) && Openness(m, false, n - 1, defs, fs, x)
  {
    assert Keywords(m, false, n - 1, defs, fs, x);
    assert Extent(m, false, n - 1, defs, fs, x);
  }

  /**
   `required` is rebuilt from `properties`. If the original demands a name outside
   its properties, the compiled node and the original share no object at all.
   */
  lemma RequiredOutsideProperties(m: Meaning, limit: nat, n: nat, n': nat, defs: Json, known: set<string>,
                                  fs: seq<Field>, name: string, x: Json)
    requires InFragment(false, defs, known, Obj(fs)) && !IsRef(fs) && IsObjectNode(fs)
    requires Visit(limit, defs, Obj(fs)).Ok?
    requires Str(name) in Members(Get(fs, "required")) && !Has(PropertiesOf(fs), name)
    requires x.Obj? && Accepts(m, false, n, EMPTY, Visit(limit, defs, Obj(fs)).value, x)
    ensures !Accepts(m, false, n', defs, Obj(fs), x)
  {
    var c := SealedOutput(limit, defs, known, fs, name);
    SealedRejects(m, n, Visit(limit, defs, Obj(fs)).value, c, name, x);
    DemandRejects(m, n', defs, fs, name, x);
  }

  /** The output of an object node is sealed over its properties. */
  lemma SealedOutput(limit: nat, defs: Json, known: set<string>, fs: seq<Field>, name: string) returns (c: seq<Field>)
    requires InFragment(false, defs, known, Obj(fs)) && !IsRef(fs) && IsObjectNode(fs)
    requires Visit(limit, defs, Obj(fs)).Ok? && !Has(PropertiesOf(fs), name)
    ensures Visit(limit, defs, Obj(fs)).value == Obj(c)
    ensures ClosedOver(c, PropertiesOf(c)) && !Has(PropertiesOf(c), name)
  {
    c := NodeOf(limit, defs, known, fs);
    NodeProperties(limit - 1, defs, known, fs, c);
    NodeProperty(limit - 1, defs, known, fs, c, name);
  }

  /** A sealed document accepts no object with another name. */
  lemma SealedRejects(m: Meaning, n: nat, out: Json, c: seq<Field>, name: string, x: Json)
    requires out == Obj(c) && ClosedOver(c, PropertiesOf(c)) && !Has(PropertiesOf(c), name)
    requires x.Obj? && Accepts(m, false, n, EMPTY, out, x)
    ensures !Has(x.fields, name)
  {
    AcceptedNode(m, n, EMPTY, c, x);
    SealedIsOpenness(m, n - 1, c, x);
  }

  lemma DemandRejects(m: Meaning, n: nat, defs: Json, fs: seq<Field>, name: string, x: Json)
    requires Str(name) in Members(Get(fs, "required")) && x.Obj? && !Has(x.fields, name)
    ensures !Accepts(m, false, n, defs, Obj(fs), x)
  {
    if Accepts(m, false, n, defs, Obj(fs), x) {
      AcceptedNode(m, n, defs, fs, x);
    }
  }

  /** A reference means its definition alone, although the original rejects what a sibling forbids. */
  lemma RefSiblingsAreLost(m: Meaning, limit: nat, n': nat, defs: Json, fs: seq<Field>, k: string, x: Json)
    requires IsRef(fs) && Assertion(k) && Has(fs, k) && !m(k, Get(fs, k).value, x)
    ensures Visit(limit, defs, Obj(fs)) == Visit(limit, defs, Obj([Field("$ref", Get(fs, "$ref").value)]))
    ensures limit > 0 && defs.Obj? ==>
      Visit(limit, defs, Obj(fs)) == Visit(limit - 1, defs, Definition(defs, RefName(fs)))
    ensures !Accepts(m, false, n', defs, Obj(fs), x)
  {
    if Accepts(m, false, n', defs, Obj(fs), x) {
      AcceptedNode(m, n', defs, fs, x);
    }
  }

  /** `{"enum": [...]}` accepts exactly the listed values. */
  predicate Enumeration(k: string, v: Json, x: Json) {
    k == "enum" ==> v.Arr? && x in v.items
  }

  lemma EnumVisited(l: nat, defs: Json, fs: seq<Field>)
    requires VisitFields(l, defs, fs).Ok? && Has(fs, "enum") && Get(fs, "enum").value.Arr?
    ensures l > 0 && VisitAll(l - 1, defs, Members(Get(fs, "enum"))) ==
      Ok(Members(Get(VisitFields(l, defs, fs).value, "enum")))
  {
    VisitFieldsGet(l, defs, fs, "enum");
  }

  lemma EnumKept(r: seq<Field>)
    requires Close(r).Ok?
    ensures Close(r).value.Obj? && Get(Close(r).value.fields, "enum") == Get(r, "enum")
  {
    CloseShape(r);
    if IsObjectNode(r) {
      ClosedGet(r, PropertiesOf(r), "enum");
    }
  }

  /**
   An enumerated value is compiled as if it were a schema. Where that changes it
   (an object with a dropped key, say) the compiled enumeration lists a value the
   original rejects.
   */
  lemma EnumeratedValuesAreRewritten(l: nat, n: nat, defs: Json, fs: seq<Field>, i: nat)
    requires VisitFields(l, defs, fs).Ok? && Close(VisitFields(l, defs, fs).value).Ok?
    requires i < |Members(Get(fs, "enum"))|
    ensures l > 0 && Visit(l - 1, defs, Members(Get(fs, "enum"))[i]).Ok?
    ensures var e' := Visit(l - 1, defs, Members(Get(fs, "enum"))[i]).value;
      && Close(VisitFields(l, defs, fs).value).value.Obj?
      && e' in Members(Get(Close(VisitFields(l, defs, fs).value).value.fields, "enum"))
      && (e' !in Members(Get(fs, "enum")) ==> !Accepts(Enumeration, false, n, defs, Obj(fs), e'))
  {
    EnumVisited(l, defs, fs);
    VisitAllAt(l - 1, defs, Members(Get(fs, "enum")));
    EnumKept(VisitFields(l, defs, fs).value);
    var e' := Visit(l - 1, defs, Members(Get(fs, "enum"))[i]).value;
    if e' !in Members(Get(fs, "enum")) {
      EnumRejects(n, defs, fs, e');
    }
  }

  lemma EnumRejects(n: nat, defs: Json, fs: seq<Field>, x: Json)
    requires Has(fs, "enum") && x !in Members(Get(fs, "enum"))
    ensures !Accepts(Enumeration, false, n, defs, Obj(fs), x)
  {
    if Accepts(Enumeration, false, n, defs, Obj(fs), x) {
      AcceptedNode(Enumeration, n, defs, fs, x);
      assert Assertion("enum");
    }
  }

  // ----- when a document widens

  /** Compiling `schema` succeeds, and its output accepts `x` although `schema` does not. */
  ghost predicate Widens(m: Meaning, limit: nat, schema: Json, x: Json)
    requires schema.Obj?
  {
    && Compile(limit, schema).Ok?
    && Valid(m, false, EMPTY, Compile(limit, schema).value, x)
    && !Valid(m, false, DefinitionsOf(schema), schema, x)
  }

  /** The node demands none but its own properties. */
  ghost predicate RequiredInside(fs: seq<Field>) {
    IsObjectNode(fs) ==> forall k :: Str(k) in Members(Get(fs, "required")) ==> Has(PropertiesOf(fs), k)
  }

  /** The members of the node are in the strict fragment; its own `required` may be anything. */
  ghost predicate MembersStrict(defs: Json, known: set<string>, fs: seq<Field>) {
    !Has(fs, "$ref") && forall i :: 0 <= i < |fs| ==> FieldInFragment(true, defs, known, fs[i])
  }

  lemma MembersStrictInFragment(defs: Json, known: set<string>, fs: seq<Field>)
    requires MembersStrict(defs, known, fs)
    ensures InFragment(false, defs, known, Obj(fs))
    ensures RequiredInside(fs) ==> InFragment(true, defs, known, Obj(fs))
  {
    forall i | 0 <= i < |fs| ensures FieldInFragment(false, defs, known, fs[i]) {
      StrictFragmentField(defs, known, fs[i]);
    }
  }

  lemma DefinitionsStrict(defs: Json, known: set<string>)
    requires DefinitionsInFragment(true, defs, known)
    ensures DefinitionsInFragment(false, defs, known)
  {
    forall name | name in known ensures InFragment(false, defs, known, Definition(defs, name)) {
      StrictFragment(defs, known, Definition(defs, name));
    }
  }

  // ----- `required` at the root

  /** The node with its demands removed. */
  function Undemanding(fs: seq<Field>): seq<Field> { Put(fs, "required", Arr([])) }

  lemma UndemandingStrict(defs: Json, known: set<string>, fs: seq<Field>)
    requires MembersStrict(defs, known, fs)
    ensures InFragment(true, defs, known, Obj(Undemanding(fs)))
  {
    var fs' := Undemanding(fs);
    GetPut(fs, "required", Arr([]), "$ref");
    GetPut(fs, "required", Arr([]), "required");
    forall i | 0 <= i < |fs'| ensures FieldInFragment(true, defs, known, fs'[i]) {
      PutMembers(fs, "required", Arr([]), i);
    }
  }

  /** Only objects can tell the difference. */
  lemma UndemandingKeywords(m: Meaning, closed: bool, n: nat, defs: Json, fs: seq<Field>, x: Json)
    requires !x.Obj?
    ensures Keywords(m, closed, n, defs, Undemanding(fs), x) == Keywords(m, closed, n, defs, fs, x)
  {
    var fs' := Undemanding(fs);
    UndemandingAssertions(m, fs, x);
    UndemandingElements(m, closed, n, defs, fs, x);
    GetPut(fs, "required", Arr([]), "allOf");
    assert AllOf(m, closed, n, defs, fs', x) == AllOf(m, closed, n, defs, fs, x);
    GetPut(fs, "required", Arr([]), "anyOf");
    assert AnyOf(m, closed, n, defs, fs', x) == AnyOf(m, closed, n, defs, fs, x);
    NoObject(m, closed, n, defs, fs', x);
    NoObject(m, closed, n, defs, fs, x);
  }

  lemma UndemandingAssertions(m: Meaning, fs: seq<Field>, x: Json)
    ensures Assertions(m, Undemanding(fs), x) == Assertions(m, fs, x)
  {
    forall k | Assertion(k) ensures Get(Undemanding(fs), k) == Get(fs, k) {
      GetPut(fs, "required", Arr([]), k);
    }
  }

  lemma UndemandingElements(m: Meaning, closed: bool, n: nat, defs: Json, fs: seq<Field>, x: Json)
    ensures Elements(m, closed, n, defs, Undemanding(fs), x) == Elements(m, closed, n, defs, fs, x)
  {
    GetPut(fs, "required", Arr([]), "items");
    GetPut(fs, "required", Arr([]), "prefixItems");
  }

  lemma NoObject(m: Meaning, closed: bool, n: nat, defs: Json, fs: seq<Field>, x: Json)
    requires !x.Obj?
    ensures Properties(m, closed, n, defs, fs, x) && Extent(m, closed, n, defs, fs, x)
  {
  }

  lemma NonObjectKeywords(m: Meaning, n: nat, defs: Json, known: set<string>, fs: seq<Field>, x: Json)
    requires MembersStrict(defs, known, fs) && DefinitionsInFragment(true, defs, known)
    requires Keywords(m, true, n, defs, fs, x) && !x.Obj?
    ensures Keywords(m, false, n, defs, fs, x)
  {
    UndemandingKeywords(m, true, n, defs, fs, x);
    UndemandingStrict(defs, known, fs);
    GetPut(fs, "required", Arr([]), "$ref");
    NodeNarrows(m, n, defs, known, Undemanding(fs), x);
    UndemandingKeywords(m, false, n, defs, fs, x);
  }

  lemma NonObjectsNarrow(m: Meaning, limit: nat, known: set<string>, fs: seq<Field>, x: Json)
    requires Compile(limit, Obj(fs)).Ok? && MembersStrict(DefinitionsOf(Obj(fs)), known, fs)
    requires DefinitionsInFragment(true, DefinitionsOf(Obj(fs)), known)
    requires Valid(m, false, EMPTY, Compile(limit, Obj(fs)).value, x) && !x.Obj?
    ensures Valid(m, false, DefinitionsOf(Obj(fs)), Obj(fs), x)
  {
    var defs := DefinitionsOf(Obj(fs));
    MembersStrictInFragment(defs, known, fs);
    DefinitionsStrict(defs, known);
    CompileMeansClosed(m, limit, known, Obj(fs), x);
    ClosedNonObjects(m, defs, known, fs, x);
  }

  lemma ValidKeywords(m: Meaning, closed: bool, defs: Json, fs: seq<Field>, x: Json) returns (n: nat)
    requires !IsRef(fs) && Valid(m, closed, defs, Obj(fs), x)
    ensures Keywords(m, closed, n, defs, fs, x)
  {
    var k: nat :| Accepts(m, closed, k, defs, Obj(fs), x);
    NodeHolds(m, closed, k, defs, fs, x);
    n := k - 1;
  }

  lemma KeywordsValid(m: Meaning, closed: bool, n: nat, defs: Json, fs: seq<Field>, x: Json)
    requires !IsRef(fs) && Keywords(m, closed, n, defs, fs, x)
    ensures Valid(m, closed, defs, Obj(fs), x)
  {
    NodeAccepts(m, closed, n, defs, fs, x);
  }

  lemma ClosedNonObjects(m: Meaning, defs: Json, known: set<string>, fs: seq<Field>, x: Json)
    requires MembersStrict(defs, known, fs) && DefinitionsInFragment(true, defs, known)
    requires Valid(m, true, defs, Obj(fs), x) && !x.Obj?
    ensures Valid(m, false, defs, Obj(fs), x)
  {
    var n := ValidKeywords(m, true, defs, fs, x);
    NonObjectKeywords(m, n, defs, known, fs, x);
    KeywordsValid(m, false, n, defs, fs, x);
  }

  /**
   A document whose members are in the strict fragment widens nothing if and only if its own
   `required` stays inside its properties or its output accepts no object at all.
   */
  lemma RequiredNarrowsIff(m: Meaning, limit: nat, known: set<string>, fs: seq<Field>)
    requires Compile(limit, Obj(fs)).Ok? && MembersStrict(DefinitionsOf(Obj(fs)), known, fs)
    requires DefinitionsInFragment(true, DefinitionsOf(Obj(fs)), known)
    ensures (forall x :: !Widens(m, limit, Obj(fs), x)) <==>
      RequiredInside(fs) || forall x: Json :: x.Obj? ==> !Valid(m, false, EMPTY, Compile(limit, Obj(fs)).value, x)
  {
    var defs, out := DefinitionsOf(Obj(fs)), Compile(limit, Obj(fs)).value;
    MembersStrictInFragment(defs, known, fs);
    if RequiredInside(fs) {
      forall x | Valid(m, false, EMPTY, out, x) ensures Valid(m, false, defs, Obj(fs), x) {
        CompileSound(m, limit, known, Obj(fs), x);
      }
    } else {
      forall x: Json | x.Obj? && Valid(m, false, EMPTY, out, x) ensures Widens(m, limit, Obj(fs), x) {
        OutsideWidens(m, limit, known, fs, x);
      }
      forall x: Json | !x.Obj? ensures !Widens(m, limit, Obj(fs), x) {
        if Valid(m, false, EMPTY, out, x) {
          NonObjectsNarrow(m, limit, known, fs, x);
        }
      }
    }
  }

  lemma OutsideWidens(m: Meaning, limit: nat, known: set<string>, fs: seq<Field>, x: Json)
    requires Compile(limit, Obj(fs)).Ok? && !Has(fs, "$ref")
    requires InFragment(false, DefinitionsOf(Obj(fs)), known, Obj(fs))
    requires !RequiredInside(fs) && x.Obj? && Valid(m, false, EMPTY, Compile(limit, Obj(fs)).value, x)
    ensures Widens(m, limit, Obj(fs), x)
  {
    var defs, out := DefinitionsOf(Obj(fs)), Compile(limit, Obj(fs)).value;
    var name :| Str(name) in Members(Get(fs, "required")) && !Has(PropertiesOf(fs), name);
    var n: nat :| Accepts(m, false, n, EMPTY, out, x);
    forall n': nat ensures !Accepts(m, false, n', defs, Obj(fs), x) {
      RequiredOutsideProperties(m, limit, n, n', defs, known, fs, name, x);
    }
  }

  // ----- siblings of a reference at the root

  /** What the keywords beside a reference allow. */
  ghost predicate SiblingsAllow(m: Meaning, defs: Json, fs: seq<Field>, x: Json) {
    exists n: nat :: Keywords(m, false, n, defs, fs, x)
  }

  lemma KeywordsRaised(m: Meaning, n: nat, n': nat, defs: Json, fs: seq<Field>, x: Json)
    requires Keywords(m, false, n, defs, fs, x) && n <= n'
    ensures Keywords(m, false, n', defs, fs, x)
  {
    forall s, y | Accepts(m, false, n, defs, s, y) ensures Accepts(m, false, n', defs, s, y) {
      MonotoneTo(m, false, n, n', defs, s, y);
    }
    KeywordsMonotone(m, false, n, n', defs, fs, x);
  }

  /** A reference that resolves means its definition and its siblings together. */
  lemma RefMeans(m: Meaning, defs: Json, fs: seq<Field>, x: Json)
    requires IsRef(fs) && Resolves(defs, fs)
    ensures Valid(m, false, defs, Obj(fs), x) <==>
      Valid(m, false, defs, Definition(defs, RefName(fs)), x) && SiblingsAllow(m, defs, fs, x)
  {
    if Valid(m, false, defs, Obj(fs), x) {
      var n: nat :| Accepts(m, false, n, defs, Obj(fs), x);
      RefUnpacked(m, n, defs, fs, x);
    }
    if Valid(m, false, defs, Definition(defs, RefName(fs)), x) && SiblingsAllow(m, defs, fs, x) {
      RefPacked(m, defs, fs, x);
    }
  }

  lemma RefPacked(m: Meaning, defs: Json, fs: seq<Field>, x: Json)
    requires IsRef(fs) && Resolves(defs, fs)
    requires Valid(m, false, defs, Definition(defs, RefName(fs)), x) && SiblingsAllow(m, defs, fs, x)
    ensures Valid(m, false, defs, Obj(fs), x)
  {
    var d := Definition(defs, RefName(fs));
    var a: nat :| Accepts(m, false, a, defs, d, x);
    var b: nat :| Keywords(m, false, b, defs, fs, x);
    RefJoined(m, a, b, defs, fs, x);
  }

  lemma RefJoined(m: Meaning, a: nat, b: nat, defs: Json, fs: seq<Field>, x: Json)
    requires IsRef(fs) && Resolves(defs, fs) && Keywords(m, false, b, defs, fs, x)
    requires Accepts(m, false, a, defs, Definition(defs, RefName(fs)), x)
    ensures Accepts(m, false, a + b + 1, defs, Obj(fs), x)
  {
    MonotoneTo(m, false, a, a + b, defs, Definition(defs, RefName(fs)), x);
    KeywordsRaised(m, b, a + b, defs, fs, x);
    RefAccepts(m, a + b + 1, defs, fs, x);
  }

  lemma RefUnpacked(m: Meaning, n: nat, defs: Json, fs: seq<Field>, x: Json)
    requires IsRef(fs) && Accepts(m, false, n, defs, Obj(fs), x)
    ensures n > 0 && Resolves(defs, fs) && Accepts(m, false, n - 1, defs, Definition(defs, RefName(fs)), x)
    ensures Keywords(m, false, n - 1, defs, fs, x)
  {
  }

  /** What the output of a reference accepts, the definition accepts. */
  lemma RefTargetNarrows(m: Meaning, limit: nat, known: set<string>, fs: seq<Field>, x: Json)
    requires IsRef(fs) && RefName(fs) in known && Compile(limit, Obj(fs)).Ok?
    requires DefinitionsInFragment(true, DefinitionsOf(Obj(fs)), known)
    requires Valid(m, false, EMPTY, Compile(limit, Obj(fs)).value, x)
    ensures Valid(m, false, DefinitionsOf(Obj(fs)), Definition(DefinitionsOf(Obj(fs)), RefName(fs)), x)
  {
    var defs := DefinitionsOf(Obj(fs));
    DefinitionsStrict(defs, known);
    CompileMeansClosed(m, limit, known, Obj(fs), x);
    var n: nat :| Accepts(m, true, n, defs, Obj(fs), x);
    RefUnfolds(m, n, defs, fs, x);
    ClosedNarrows(m, n - 1, defs, known, Definition(defs, RefName(fs)), x);
  }

  /**
   A document that is a reference, with any siblings, widens nothing if and only if the siblings
   allow every instance that the compiled definition accepts.
   */
  lemma RefNarrowsIff(m: Meaning, limit: nat, known: set<string>, fs: seq<Field>)
    requires IsRef(fs) && Resolves(DefinitionsOf(Obj(fs)), fs) && RefName(fs) in known && Compile(limit, Obj(fs)).Ok?
    requires DefinitionsInFragment(true, DefinitionsOf(Obj(fs)), known)
    ensures (forall x :: !Widens(m, limit, Obj(fs), x)) <==>
      forall x :: Valid(m, false, EMPTY, Compile(limit, Obj(fs)).value, x) ==>
        SiblingsAllow(m, DefinitionsOf(Obj(fs)), fs, x)
  {
    var defs, out := DefinitionsOf(Obj(fs)), Compile(limit, Obj(fs)).value;
    forall x
      ensures Widens(m, limit, Obj(fs), x) <==> Valid(m, false, EMPTY, out, x) && !SiblingsAllow(m, defs, fs, x)
    {
      if Valid(m, false, EMPTY, out, x) {
        RefTargetNarrows(m, limit, known, fs, x);
        RefMeans(m, defs, fs, x);
      }
    }
  }

  // ----- dictionaries

  /** An object without properties that compiles admits no object but the empty one, before and after. */
  lemma CompiledBareObjects(m: Meaning, limit: nat, n: nat, defs: Json, fs: seq<Field>, x: Json)
    requires !IsRef(fs) && Get(fs, "type") == Some(Str("object")) && !Has(fs, "properties")
    requires Visit(limit, defs, Obj(fs)).Ok? && x.Obj? && x.fields != []
    ensures !Accepts(m, false, n, defs, Obj(fs), x)
  {
    BareObjectIff(limit, defs, fs);
    if Accepts(m, false, n, defs, Obj(fs), x) {
      AcceptedNode(m, n, defs, fs, x);
      NothingElse(m, n - 1, defs, fs, x);
    }
  }

  lemma NothingElse(m: Meaning, n: nat, defs: Json, fs: seq<Field>, x: Json)
    requires Get(fs, "additionalProperties") == Some(Bool(false)) && !Has(fs, "properties")
    requires x.Obj? && x.fields != []
    ensures !Openness(m, false, n, defs, fs, x)
  {
    assert !Accepts(m, false, n, defs, Bool(false), x.fields[0].value);
    assert !Has(PropertiesOf(fs), x.fields[0].key);
  }

  // ----- concrete documents

  lemma VisitAllOne(limit: nat, defs: Json, v: Json)
    ensures Visit(limit, defs, v).Ok? ==> VisitAll(limit, defs, [v]) == Ok([Visit(limit, defs, v).value])
  {
    assert [v][1..] == [] && VisitAll(limit, defs, []) == Ok([]);
    assert Visit(limit, defs, v).Ok? ==> [Visit(limit, defs, v).value] + [] == [Visit(limit, defs, v).value];
  }

  lemma VisitFieldsCons(limit: nat, defs: Json, f: Field, rest: seq<Field>)
    requires !Dropped(f.key) && VisitField(limit, defs, f).Ok? && VisitFields(limit, defs, rest).Ok?
    ensures VisitFields(limit, defs, [f] + rest) ==
      Ok([Field(f.key, VisitField(limit, defs, f).value)] + VisitFields(limit, defs, rest).value)
  {
    assert ([f] + rest)[1..] == rest;
  }

  function EnumOf(values: seq<Json>): Json { Obj([Field("enum", Arr(values))]) }

  lemma EnumOnly(values: seq<Json>, k: string)
    ensures Get(EnumOf(values).fields, k) == if k == "enum" then Some(Arr(values)) else None
  {
    GetCons(Field("enum", Arr(values)), [], k);
    assert [Field("enum", Arr(values))] + [] == EnumOf(values).fields;
  }

  lemma EnumHolds(values: seq<Json>, n: nat, defs: Json, x: Json)
    requires x in values
    ensures Keywords(Enumeration, false, n, defs, EnumOf(values).fields, x)
  {
    forall k ensures Get(EnumOf(values).fields, k) == if k == "enum" then Some(Arr(values)) else None {
      EnumOnly(values, k);
    }
    NoKeywords(Enumeration, n, defs, EnumOf(values).fields, x);
  }

  lemma EnumAccepted(values: seq<Json>, n: nat, defs: Json, x: Json)
    requires n > 0 && x in values
    ensures Accepts(Enumeration, false, n, defs, EnumOf(values), x)
  {
    EnumHolds(values, n - 1, defs, x);
    EnumOnly(values, "$ref");
    NodeAccepts(Enumeration, false, n - 1, defs, EnumOf(values).fields, x);
  }

  /** A document with nothing but an enumeration accepts the listed values. */
  lemma EnumAccepts(values: seq<Json>, n: nat, defs: Json, x: Json)
    ensures Accepts(Enumeration, false, n, defs, EnumOf(values), x) <==> n > 0 && x in values
  {
    var fs := EnumOf(values).fields;
    EnumOnly(values, "enum");
    if n > 0 {
      if x in values {
        EnumAccepted(values, n, defs, x);
      } else {
        EnumRejects(n, defs, fs, x);
      }
    }
  }

  lemma EnumValid(values: seq<Json>, defs: Json, x: Json)
    ensures Valid(Enumeration, false, defs, EnumOf(values), x) <==> x in values
  {
    EnumAccepts(values, 1, defs, x);
    if Valid(Enumeration, false, defs, EnumOf(values), x) {
      var n: nat :| Accepts(Enumeration, false, n, defs, EnumOf(values), x);
      EnumAccepts(values, n, defs, x);
    }
  }

  lemma EnumCompiles(limit: nat, values: seq<Json>)
    requires limit >= 2 && VisitAll(limit - 2, EMPTY, values).Ok?
    ensures Compile(limit, EnumOf(values)) == Ok(EnumOf(VisitAll(limit - 2, EMPTY, values).value))
  {
    var f, values' := Field("enum", Arr(values)), VisitAll(limit - 2, EMPTY, values).value;
    forall k ensures Get(EnumOf(values).fields, k) == if k == "enum" then Some(Arr(values)) else None {
      EnumOnly(values, k);
    }
    forall k ensures Get(EnumOf(values').fields, k) == if k == "enum" then Some(Arr(values')) else None {
      EnumOnly(values', k);
    }
    assert VisitField(limit - 1, EMPTY, f) == Visit(limit - 1, EMPTY, Arr(values)) == Ok(Arr(values'));
    assert VisitFields(limit - 1, EMPTY, []) == Ok([]);
    VisitFieldsCons(limit - 1, EMPTY, f, []);
    assert [f] + [] == EnumOf(values).fields && [Field("enum", Arr(values'))] + [] == EnumOf(values').fields;
  }

  /** Compiling an enumeration narrows it exactly when every listed value compiles to a listed value. */
  lemma EnumerationNarrowsIff(limit: nat, values: seq<Json>)
    requires limit >= 2 && VisitAll(limit - 2, EMPTY, values).Ok?
    ensures (forall x :: !Widens(Enumeration, limit, EnumOf(values), x)) <==>
      forall v :: v in VisitAll(limit - 2, EMPTY, values).value ==> v in values
  {
    var values' := VisitAll(limit - 2, EMPTY, values).value;
    EnumCompiles(limit, values);
    EnumOnly(values, "$defs");
    forall x ensures Widens(Enumeration, limit, EnumOf(values), x) <==> x in values' && x !in values {
      EnumValid(values', EMPTY, x);
      EnumValid(values, EMPTY, x);
    }
  }

  /** `{"title": null}` compiles to `{}`, which the original enumeration does not list. */
  lemma EnumeratedObjectWidens()
    ensures Widens(Enumeration, 4, EnumOf([Obj([Field("title", Null)])]), EMPTY)
  {
    var v := Obj([Field("title", Null)]);
    TitledCompiles(v);
    VisitAllOne(2, EMPTY, v);
    EnumCompiles(4, [v]);
    EnumValid([EMPTY], EMPTY, EMPTY);
    EnumOnly([v], "$defs");
    EnumValid([v], EMPTY, EMPTY);
  }

  lemma TitledCompiles(v: Json)
    requires v == Obj([Field("title", Null)])
    ensures Visit(2, EMPTY, v) == Ok(EMPTY)
  {
    var fs := [Field("title", Null)];
    assert fs[1..] == [];
    assert VisitFields(1, EMPTY, fs) == Ok([]);
  }

  /** `{"$ref": "#/$defs/D", "enum": [1], "$defs": {"D": {}}}` compiles to `{}`, which accepts 2. */
  lemma RefSiblingWidens()
    ensures var ref, defs := Field("$ref", Str("#/$defs/D")), Obj([Field("D", EMPTY)]);
      Widens(Enumeration, 2, Obj([ref] + ([Field("enum", Arr([Num(1.0)]))] + [Field("$defs", defs)])), Num(2.0))
  {
    var ref, enum, defs := Field("$ref", Str("#/$defs/D")), Field("enum", Arr([Num(1.0)])), Obj([Field("D", EMPTY)]);
    var fs := [ref] + ([enum] + [Field("$defs", defs)]);
    forall k ensures Get(fs, k) ==
        if k == "$ref" then Some(ref.value) else if k == "enum" then Some(enum.value)
        else if k == "$defs" then Some(defs) else None
    {
      GetCons(ref, [enum] + [Field("$defs", defs)], k);
      GetCons(enum, [Field("$defs", defs)], k);
      GetCons(Field("$defs", defs), [], k);
      assert [Field("$defs", defs)] + [] == [Field("$defs", defs)];
    }
    LastSegmentOfRef();
    assert RefName(fs) == "D" && Definition(defs, "D") == EMPTY;
    EmptyCompiles(1, defs);
    assert Compile(2, Obj(fs)) == Ok(EMPTY);
    EmptyAccepts(Enumeration, Num(2.0));
    forall n: nat ensures !Accepts(Enumeration, false, n, defs, Obj(fs), Num(2.0)) {
      EnumRejects(n, defs, fs, Num(2.0));
    }
  }

  lemma LastSegmentOfRef()
    ensures REF_PREFIX <= "#/$defs/D" && LastSegment("#/$defs/D") == "D"
  {
    var ref := "#/$defs/D";
    assert ref[..8][7] == '/';
    assert LastSegment(ref[..8]) == [];
  }

  lemma EmptyCompiles(limit: nat, defs: Json)
    requires limit >= 1
    ensures Visit(limit, defs, EMPTY) == Ok(EMPTY)
  {
    assert VisitFields(limit - 1, defs, []) == Ok([]);
  }

  lemma EmptyAccepts(m: Meaning, x: Json)
    ensures Accepts(m, false, 1, EMPTY, EMPTY, x)
  {
    NoKeywords(m, 0, EMPTY, [], x);
  }

  const PROPERTY_A := Field("properties", Obj([Field("a", Bool(true))]))
  const REQUIRES_B := [PROPERTY_A] + [Field("required", Arr([Str("b")]))]
  const REQUIRES_A :=
    [PROPERTY_A] + ([Field("required", Arr([Str("a")]))] + [Field("additionalProperties", Bool(false))])

  /** `{"properties": {"a": true}, "required": ["b"]}` compiles to a document that accepts `{"a": null}`. */
  lemma RequiredNameWidens(m: Meaning)
    ensures Widens(m, 3, Obj(REQUIRES_B), Obj([Field("a", Null)]))
  {
    var x := Obj([Field("a", Null)]);
    RequiredNameCompiles();
    RequiresBGet("$defs");
    SealedAccepts(m, x);
    forall n: nat ensures !Accepts(m, false, n, EMPTY, Obj(REQUIRES_B), x) {
      RequiresBRejects(m, n, x);
    }
  }

  lemma RequiresBGet(k: string)
    ensures Get(REQUIRES_B, k) ==
      if k == "properties" then Some(PROPERTY_A.value) else if k == "required" then Some(Arr([Str("b")])) else None
  {
    GetCons(PROPERTY_A, [Field("required", Arr([Str("b")]))], k);
    GetCons(Field("required", Arr([Str("b")])), [], k);
    assert [Field("required", Arr([Str("b")]))] + [] == [Field("required", Arr([Str("b")]))];
  }

  lemma RequiresAGet(k: string)
    ensures Get(REQUIRES_A, k) ==
      if k == "properties" then Some(PROPERTY_A.value) else if k == "required" then Some(Arr([Str("a")]))
      else if k == "additionalProperties" then Some(Bool(false)) else None
  {
    var last := [Field("additionalProperties", Bool(false))];
    GetCons(PROPERTY_A, [Field("required", Arr([Str("a")]))] + last, k);
    GetCons(Field("required", Arr([Str("a")])), last, k);
    GetCons(last[0], [], k);
    assert [last[0]] + [] == last;
  }

  lemma OnlyA(v: Json, k: string)
    ensures Has([Field("a", v)], k) <==> k == "a"
    ensures Get([Field("a", v)], "a") == Some(v)
  {
    GetCons(Field("a", v), [], k);
    GetCons(Field("a", v), [], "a");
    assert [Field("a", v)] + [] == [Field("a", v)];
  }

  lemma RequiresBRejects(m: Meaning, n: nat, x: Json)
    requires x == Obj([Field("a", Null)])
    ensures !Accepts(m, false, n, EMPTY, Obj(REQUIRES_B), x)
  {
    RequiresBGet("required");
    assert Str("b") in Members(Get(REQUIRES_B, "required"));
    OnlyA(Null, "b");
    if Accepts(m, false, n, EMPTY, Obj(REQUIRES_B), x) {
      AcceptedNode(m, n, EMPTY, REQUIRES_B, x);
    }
  }

  lemma RequiredNameCompiles()
    ensures Compile(3, Obj(REQUIRES_B)) == Ok(Obj(REQUIRES_A))
  {
    RequiresBGet("$defs");
    RequiresBGet("$ref");
    RequiresBGet("properties");
    RequiresBVisited();
    RequiresBClosed();
    NodeCompiles(3, REQUIRES_B, REQUIRES_B, REQUIRES_A);
  }

  lemma NodeCompiles(limit: nat, fs: seq<Field>, visited: seq<Field>, c: seq<Field>)
    requires limit > 0 && !Has(fs, "$defs") && !IsRef(fs) && !IsDynamic(fs)
    requires VisitFields(limit - 1, EMPTY, fs) == Ok(visited) && Close(visited) == Ok(Obj(c))
    ensures Compile(limit, Obj(fs)) == Ok(Obj(c))
  {
  }

  lemma RequiresBVisited()
    ensures VisitFields(2, EMPTY, REQUIRES_B) == Ok(REQUIRES_B)
  {
    var props, last := [Field("a", Bool(true))], Field("required", Arr([Str("b")]));
    assert props[1..] == [] && VisitProperties(2, EMPTY, props[1..]) == Ok([]);
    assert Visit(2, EMPTY, Bool(true)) == Ok(Bool(true));
    assert props + [] == props && VisitProperties(2, EMPTY, props) == Ok(props);
    assert Visit(1, EMPTY, Str("b")) == Ok(Str("b"));
    VisitAllOne(1, EMPTY, Str("b"));
    assert VisitFields(2, EMPTY, []) == Ok([]);
    VisitFieldsCons(2, EMPTY, last, []);
    assert [last] + [] == [last];
    VisitFieldsCons(2, EMPTY, PROPERTY_A, [last]);
  }

  lemma RequiresBClosed()
    ensures Close(REQUIRES_B) == Ok(Obj(REQUIRES_A))
  {
    RequiresBGet("properties");
    RequiresBPut();
  }

  lemma RequiresBPut()
    ensures Closed(REQUIRES_B, [Field("a", Bool(true))]) == REQUIRES_A
  {
    var props, b, a := [Field("a", Bool(true))], Field("required", Arr([Str("b")])), Field("required", Arr([Str("a")]));
    assert props[1..] == [] && Keys(props[1..]) == [] && Keys(props) == ["a"];
    assert ["a"][1..] == [] && Sort(StringLeq, ["a"]) == ["a"];
    assert SortedNames(props) == Arr([Str("a")]);
    assert REQUIRES_B[1..] == [b] && [b][1..] == [];
    assert Put(REQUIRES_B, "properties", Obj(props)) == REQUIRES_B;
    assert Put([b], "required", Arr([Str("a")])) == [a];
    var fs := [PROPERTY_A] + [a];
    assert Put(REQUIRES_B, "required", Arr([Str("a")])) == fs;
    assert fs[1..] == [a] && [a][1..] == [] &&
      Put([], "additionalProperties", Bool(false)) == [Field("additionalProperties", Bool(false))];
    assert Put([a], "additionalProperties", Bool(false)) == [a] + [Field("additionalProperties", Bool(false))];
    assert Put(fs, "additionalProperties", Bool(false)) == REQUIRES_A;
  }

  /** A sealed document over one property that accepts anything. */
  lemma SealedAccepts(m: Meaning, x: Json)
    requires x == Obj([Field("a", Null)])
    ensures Accepts(m, false, 2, EMPTY, Obj(REQUIRES_A), x)
  {
    var c := REQUIRES_A;
    forall k ensures Get(c, k) ==
      if k == "properties" then Some(PROPERTY_A.value) else if k == "required" then Some(Arr([Str("a")]))
      else if k == "additionalProperties" then Some(Bool(false)) else None
    {
      RequiresAGet(k);
    }
    forall k ensures Has(x.fields, k) <==> k == "a" {
      OnlyA(Null, k);
    }
    OnlyA(Bool(true), "a");
    assert PropertiesOf(c) == [Field("a", Bool(true))];
    assert Accepts(m, false, 1, EMPTY, Bool(true), Null);
    assert Properties(m, false, 1, EMPTY, c, x) && Openness(m, false, 1, EMPTY, c, x);
    assert AllOf(m, false, 1, EMPTY, c, x) && AnyOf(m, false, 1, EMPTY, c, x) && Elements(m, false, 1, EMPTY, c, x);
    assert Extent(m, false, 1, EMPTY, c, x) && Assertions(m, c, x);
    NodeAccepts(m, false, 1, EMPTY, c, x);
  }
}
