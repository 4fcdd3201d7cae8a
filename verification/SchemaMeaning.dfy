/**
 Which instances a schema accepts, and what compilation does to that set.

 Keywords follow JSON Schema 2020-12: `$ref` (Core 8.2.3.1), `allOf` and `anyOf`
 (Core 10.2.1), `prefixItems` and `items` (Core 10.3.1), `properties` (Core
 10.3.2.1), `additionalProperties` (Core 10.3.2.3) and `required` (Validation
 6.5.3). Every other keyword that compilation keeps is an assertion whose meaning
 is a parameter, so the results hold for `type`, `enum`, `const`,
 `exclusiveMinimum` and the rest at once. `limit` bounds the depth of evaluation;
 an evaluation that runs out rejects, which on these keywords is the least
 reading, and a larger limit never rejects what a smaller one accepted.
 */
module SchemaMeaning {
  import opened Wrappers
  import opened Json
  import opened Orders
  import opened StrictSchema

  /** keyword, its value, instance */
  type Meaning = (string, Json, Json) -> bool

  predicate Structural(k: string) {
    k in {"properties", "required", "additionalProperties", "items", "prefixItems", "anyOf", "allOf"}
  }

  predicate Annotation(k: string) { k in {"description", "examples", "discriminator", "$comment"} }

  predicate Assertion(k: string) { !Dropped(k) && !Structural(k) && !Annotation(k) }

  /** The reference names one definition directly and the definition exists. */
  predicate Resolves(defs: Json, fs: seq<Field>)
    requires IsRef(fs)
  {
    var name := Get(fs, "$ref").value.s[|REF_PREFIX|..];
    && '/' !in name && '~' !in name && '%' !in name
    && name == RefName(fs)
    && defs.Obj? && Has(defs.fields, name)
  }

  function Members(k: Option<Json>): seq<Json> {
    if k.Some? && k.value.Arr? then k.value.items else []
  }

  /**
   `closed` selects the reading that strict output enforces: an object node
   demands all of its properties and admits no others, and `$ref` hides its
   siblings.
   */
  ghost predicate Accepts(m: Meaning, closed: bool, limit: nat, defs: Json, s: Json, x: Json)
    decreases limit, 1
  {
    limit > 0 &&
    match s
    case Bool(b) => b
    case Obj(fs) =>
      && (IsRef(fs) ==>
            (closed || Resolves(defs, fs)) && Accepts(m, closed, limit - 1, defs, Definition(defs, RefName(fs)), x))
      && ((closed && IsRef(fs)) || Keywords(m, closed, limit - 1, defs, fs, x))
    case _ => false
  }

  ghost predicate Keywords(m: Meaning, closed: bool, n: nat, defs: Json, fs: seq<Field>, x: Json)
    decreases n, 4
  {
    && Assertions(m, fs, x)
    && AllOf(m, closed, n, defs, fs, x)
    && AnyOf(m, closed, n, defs, fs, x)
    && Elements(m, closed, n, defs, fs, x)
    && Properties(m, closed, n, defs, fs, x)
    && Extent(m, closed, n, defs, fs, x)
  }

  ghost predicate Assertions(m: Meaning, fs: seq<Field>, x: Json) {
    forall k :: Assertion(k) && Has(fs, k) ==> m(k, Get(fs, k).value, x)
  }

  ghost predicate AllOf(m: Meaning, closed: bool, n: nat, defs: Json, fs: seq<Field>, x: Json)
    decreases n, 2
  {
    forall i :: 0 <= i < |Members(Get(fs, "allOf"))| ==> Accepts(m, closed, n, defs, Members(Get(fs, "allOf"))[i], x)
  }

  ghost predicate AnyOf(m: Meaning, closed: bool, n: nat, defs: Json, fs: seq<Field>, x: Json)
    decreases n, 2
  {
    Has(fs, "anyOf") ==>
      exists i :: 0 <= i < |Members(Get(fs, "anyOf"))| && Accepts(m, closed, n, defs, Members(Get(fs, "anyOf"))[i], x)
  }

  ghost predicate Elements(m: Meaning, closed: bool, n: nat, defs: Json, fs: seq<Field>, x: Json)
    decreases n, 2
  {
    x.Arr? ==>
      var prefix := Members(Get(fs, "prefixItems"));
      forall i :: 0 <= i < |x.items| ==>
        if i < |prefix| then Accepts(m, closed, n, defs, prefix[i], x.items[i])
        else Has(fs, "items") ==> Accepts(m, closed, n, defs, Get(fs, "items").value, x.items[i])
  }

  ghost predicate Properties(m: Meaning, closed: bool, n: nat, defs: Json, fs: seq<Field>, x: Json)
    decreases n, 2
  {
    x.Obj? ==>
      forall i :: 0 <= i < |x.fields| && Has(PropertiesOf(fs), x.fields[i].key) ==>
        Accepts(m, closed, n, defs, Get(PropertiesOf(fs), x.fields[i].key).value, x.fields[i].value)
  }

  /** Which names an object must have and which it may have. */
  ghost predicate Extent(m: Meaning, closed: bool, n: nat, defs: Json, fs: seq<Field>, x: Json)
    decreases n, 3
  {
    if closed && IsObjectNode(fs) then Sealed(PropertiesOf(fs), x) else Openness(m, closed, n, defs, fs, x)
  }

  ghost predicate Sealed(props: seq<Field>, x: Json) {
    x.Obj? ==> forall k :: Has(props, k) <==> Has(x.fields, k)
  }

  ghost predicate Openness(m: Meaning, closed: bool, n: nat, defs: Json, fs: seq<Field>, x: Json)
    decreases n, 2
  {
    x.Obj? ==>
      && (forall k :: Str(k) in Members(Get(fs, "required")) ==> Has(x.fields, k))
      && (Has(fs, "additionalProperties") ==>
            forall i :: 0 <= i < |x.fields| && !Has(PropertiesOf(fs), x.fields[i].key) ==>
              Accepts(m, closed, n, defs, Get(fs, "additionalProperties").value, x.fields[i].value))
  }

  // ----- the fragment the results are about

  ghost predicate ObjectFree(v: Json)
    decreases v
  {
    match v
    case Arr(items) => forall i :: 0 <= i < |items| ==> ObjectFree(items[i])
    case Obj(_) => false
    case _ => true
  }

  ghost predicate StringArray(v: Json) {
    v.Arr? && forall i :: 0 <= i < |v.items| ==> v.items[i].Str?
  }

  /**
   Well-shaped schemas that refer to the definitions in `known` only. With `strict`, also:
   references resolve and stand alone, and `required` of an object node stays inside its
   properties.
   */
  ghost predicate InFragment(strict: bool, defs: Json, known: set<string>, s: Json)
    decreases s
  {
    match s
    case Bool(_) => true
    case Obj(fs) =>
      if Has(fs, "$ref") then
        && IsRef(fs) && RefName(fs) in known
        && (strict ==> Resolves(defs, fs) && forall k :: Has(fs, k) ==> Dropped(k) || Annotation(k))
      else
        && (strict && IsObjectNode(fs) ==>
              forall k :: Str(k) in Members(Get(fs, "required")) ==> Has(PropertiesOf(fs), k))
        && forall i :: 0 <= i < |fs| ==> FieldInFragment(strict, defs, known, fs[i])
    case _ => false
  }

  ghost predicate FieldInFragment(strict: bool, defs: Json, known: set<string>, f: Field)
    decreases f
  {
    if Assertion(f.key) then ObjectFree(f.value)
    else if f.key == "properties" then
      f.value.Obj? && forall j :: 0 <= j < |f.value.fields| ==> InFragment(strict, defs, known, f.value.fields[j].value)
    else if f.key in {"anyOf", "allOf", "prefixItems"} then
      f.value.Arr? && forall j :: 0 <= j < |f.value.items| ==> InFragment(strict, defs, known, f.value.items[j])
    else if f.key in {"items", "additionalProperties"} then InFragment(strict, defs, known, f.value)
    else if f.key == "required" then StringArray(f.value)
    else true
  }

  /** The definitions that can be reached are in the fragment; `known` holds them, and nothing is asked of others. */
  ghost predicate DefinitionsInFragment(strict: bool, defs: Json, known: set<string>) {
    forall name :: name in known ==> InFragment(strict, defs, known, Definition(defs, name))
  }

  lemma GetInFragment(strict: bool, defs: Json, known: set<string>, fs: seq<Field>, k: string)
    requires InFragment(strict, defs, known, Obj(fs)) && !Has(fs, "$ref") && Has(fs, k)
    ensures FieldInFragment(strict, defs, known, Field(k, Get(fs, k).value))
  {
    var i := GetIsMember(fs, k);
  }

  lemma MembersInFragment(strict: bool, defs: Json, known: set<string>, fs: seq<Field>, k: string)
    requires InFragment(strict, defs, known, Obj(fs)) && !Has(fs, "$ref") && Has(fs, k)
    requires k in {"anyOf", "allOf", "prefixItems"}
    ensures !Dropped(k) && Get(fs, k).value.Arr?
    ensures forall j :: 0 <= j < |Get(fs, k).value.items| ==> InFragment(strict, defs, known, Get(fs, k).value.items[j])
  {
    GetInFragment(strict, defs, known, fs, k);
  }

  lemma SubschemaInFragment(strict: bool, defs: Json, known: set<string>, fs: seq<Field>, k: string)
    requires InFragment(strict, defs, known, Obj(fs)) && !Has(fs, "$ref") && Has(fs, k)
    requires k in {"items", "additionalProperties"}
    ensures !Dropped(k) && InFragment(strict, defs, known, Get(fs, k).value)
  {
    GetInFragment(strict, defs, known, fs, k);
  }

  lemma PropertiesInFragment(strict: bool, defs: Json, known: set<string>, fs: seq<Field>)
    requires InFragment(strict, defs, known, Obj(fs)) && !Has(fs, "$ref")
    ensures Has(fs, "properties") ==> Get(fs, "properties").value == Obj(PropertiesOf(fs))
    ensures forall k :: Has(PropertiesOf(fs), k) ==> InFragment(strict, defs, known, Get(PropertiesOf(fs), k).value)
  {
    if Has(fs, "properties") {
      GetInFragment(strict, defs, known, fs, "properties");
      forall k | Has(PropertiesOf(fs), k) ensures InFragment(strict, defs, known, Get(PropertiesOf(fs), k).value) {
        var j := GetIsMember(PropertiesOf(fs), k);
      }
    }
  }

  lemma {:induction false} ObjectFreeKept(limit: nat, defs: Json, v: Json)
    requires ObjectFree(v) && Visit(limit, defs, v).Ok?
    ensures Visit(limit, defs, v).value == v
    decreases limit
  {
    if v.Arr? {
      VisitAllAt(limit - 1, defs, v.items);
      forall i | 0 <= i < |v.items| ensures Visit(limit - 1, defs, v.items[i]).value == v.items[i] {
        ObjectFreeKept(limit - 1, defs, v.items[i]);
      }
      assert VisitAll(limit - 1, defs, v.items).value == v.items;
    }
  }

  // ----- compilation means exactly the closed reading

  /** One successful visit of an object node, and the node it produced. */
  ghost predicate NodeVisit(l: nat, defs: Json, known: set<string>, fs: seq<Field>, c: seq<Field>) {
    && !Has(fs, "$ref") && InFragment(false, defs, known, Obj(fs))
    && VisitFields(l, defs, fs).Ok?
    && Close(VisitFields(l, defs, fs).value) == Ok(Obj(c))
  }

  /** Members other than the sealing ones are the visited originals. */
  lemma NodeGet(l: nat, defs: Json, known: set<string>, fs: seq<Field>, c: seq<Field>, k: string)
    requires NodeVisit(l, defs, known, fs, c)
    requires k !in {"properties", "required", "additionalProperties"} || !IsObjectNode(c)
    ensures Has(c, k) == (Has(fs, k) && !Dropped(k))
    ensures Has(c, k) ==> VisitField(l, defs, Field(k, Get(fs, k).value)) == Ok(Get(c, k).value)
  {
    var r := VisitFields(l, defs, fs).value;
    VisitFieldsGet(l, defs, fs, k);
    CloseShape(r);
    if IsObjectNode(r) {
      assert c == Closed(r, PropertiesOf(r));
      ClosedGet(r, PropertiesOf(r), k);
    }
  }

  lemma NodeKind(l: nat, defs: Json, known: set<string>, fs: seq<Field>)
    requires InFragment(false, defs, known, Obj(fs)) && !Has(fs, "$ref") && VisitFields(l, defs, fs).Ok?
    ensures IsObjectNode(VisitFields(l, defs, fs).value) == IsObjectNode(fs)
  {
    VisitFieldsGet(l, defs, fs, "properties");
    VisitFieldsGet(l, defs, fs, "type");
    if Has(fs, "type") {
      GetInFragment(false, defs, known, fs, "type");
      ObjectFreeKept(l, defs, Get(fs, "type").value);
    }
  }

  lemma NodeProperties(l: nat, defs: Json, known: set<string>, fs: seq<Field>, c: seq<Field>)
    requires NodeVisit(l, defs, known, fs, c)
    ensures IsObjectNode(c) == IsObjectNode(fs)
    ensures IsObjectNode(c) ==> ClosedOver(c, PropertiesOf(c))
    ensures VisitProperties(l, defs, PropertiesOf(fs)) == Ok(PropertiesOf(c))
  {
    CloseShape(VisitFields(l, defs, fs).value);
    NodeKind(l, defs, known, fs);
    PropertiesInFragment(false, defs, known, fs);
    VisitedProperties(l, defs, fs);
  }

  lemma VisitedProperties(l: nat, defs: Json, fs: seq<Field>)
    requires VisitFields(l, defs, fs).Ok?
    requires Has(fs, "properties") ==> Get(fs, "properties").value.Obj?
    ensures VisitProperties(l, defs, PropertiesOf(fs)) == Ok(PropertiesOf(VisitFields(l, defs, fs).value))
  {
    VisitFieldsGet(l, defs, fs, "properties");
  }

  lemma NodeProperty(l: nat, defs: Json, known: set<string>, fs: seq<Field>, c: seq<Field>, k: string)
    requires NodeVisit(l, defs, known, fs, c)
    ensures var p, q := PropertiesOf(fs), PropertiesOf(c);
      && Has(p, k) == Has(q, k)
      && (Has(p, k) ==>
            InFragment(false, defs, known, Get(p, k).value) && Visit(l, defs, Get(p, k).value) == Ok(Get(q, k).value))
  {
    NodeProperties(l, defs, known, fs, c);
    PropertiesInFragment(false, defs, known, fs);
    VisitPropertiesGet(l, defs, PropertiesOf(fs), k);
  }

  lemma NodeItems(l: nat, defs: Json, known: set<string>, fs: seq<Field>, c: seq<Field>)
    requires NodeVisit(l, defs, known, fs, c)
    ensures Has(c, "items") == Has(fs, "items")
    ensures Has(c, "items") ==>
      InFragment(false, defs, known, Get(fs, "items").value) &&
      Visit(l, defs, Get(fs, "items").value) == Ok(Get(c, "items").value)
  {
    NodeGet(l, defs, known, fs, c, "items");
    if Has(fs, "items") {
      SubschemaInFragment(false, defs, known, fs, "items");
    }
  }

  /** The members of a list keyword, before and after. */
  lemma NodeMembers(l: nat, defs: Json, known: set<string>, fs: seq<Field>, c: seq<Field>, k: string)
    requires NodeVisit(l, defs, known, fs, c) && k in {"anyOf", "allOf", "prefixItems"}
    ensures Has(c, k) == Has(fs, k)
    ensures l > 0 || !Has(fs, k)
    ensures var a, b := Members(Get(fs, k)), Members(Get(c, k));
      && |a| == |b|
      && forall i :: 0 <= i < |a| ==>
           InFragment(false, defs, known, a[i]) && l > 0 && Visit(l - 1, defs, a[i]) == Ok(b[i])
  {
    NodeGet(l, defs, known, fs, c, k);
    if Has(fs, k) {
      MembersInFragment(false, defs, known, fs, k);
      VisitAllAt(l - 1, defs, Get(fs, k).value.items);
    }
  }

  lemma {:induction false} Exact(m: Meaning, l: nat, n: nat, n': nat, defs: Json, known: set<string>, s: Json, x: Json)
    requires Visit(l, defs, s).Ok? && n >= l && n' >= l
    requires InFragment(false, defs, known, s) && DefinitionsInFragment(false, defs, known)
    ensures Accepts(m, false, n', EMPTY, Visit(l, defs, s).value, x) == Accepts(m, true, n, defs, s, x)
    decreases l, 4
  {
    if s.Obj? {
      if IsRef(s.fields) {
        ExactRef(m, l, n, n', defs, known, s.fields, Visit(l, defs, s).value, x);
      } else {
        var c := NodeOf(l, defs, known, s.fields);
        ExactNode(m, l - 1, n - 1, n' - 1, defs, known, s.fields, c, x);
      }
    }
  }

  lemma NodeOf(l: nat, defs: Json, known: set<string>, fs: seq<Field>) returns (c: seq<Field>)
    requires Visit(l, defs, Obj(fs)).Ok? && InFragment(false, defs, known, Obj(fs)) && !IsRef(fs)
    ensures l > 0 && Visit(l, defs, Obj(fs)).value == Obj(c) && NodeVisit(l - 1, defs, known, fs, c)
  {
    CloseShape(VisitFields(l - 1, defs, fs).value);
    c := Visit(l, defs, Obj(fs)).value.fields;
  }

  lemma RefUnfolds(m: Meaning, n: nat, defs: Json, fs: seq<Field>, x: Json)
    requires IsRef(fs) && n > 0
    ensures Accepts(m, true, n, defs, Obj(fs), x) == Accepts(m, true, n - 1, defs, Definition(defs, RefName(fs)), x)
  {
  }

  lemma NodeHolds(m: Meaning, closed: bool, n: nat, defs: Json, fs: seq<Field>, x: Json)
    requires !IsRef(fs) && Accepts(m, closed, n, defs, Obj(fs), x)
    ensures n > 0 && Keywords(m, closed, n - 1, defs, fs, x)
  {
  }

  lemma NodeAccepts(m: Meaning, closed: bool, n: nat, defs: Json, fs: seq<Field>, x: Json)
    requires !IsRef(fs) && Keywords(m, closed, n, defs, fs, x)
    ensures Accepts(m, closed, n + 1, defs, Obj(fs), x)
  {
  }

  lemma VisitUnfolds(l: nat, defs: Json, fs: seq<Field>)
    requires IsRef(fs) && Visit(l, defs, Obj(fs)).Ok?
    ensures l > 0 && Visit(l, defs, Obj(fs)) == Visit(l - 1, defs, Definition(defs, RefName(fs)))
  {
  }

  lemma {:induction false} ExactRef(m: Meaning, l: nat, n: nat, n': nat, defs: Json, known: set<string>,
                                    fs: seq<Field>, out: Json, x: Json)
    requires Visit(l, defs, Obj(fs)) == Ok(out) && n >= l && n' >= l && IsRef(fs) && RefName(fs) in known
    requires DefinitionsInFragment(false, defs, known)
    ensures Accepts(m, false, n', EMPTY, out, x) == Accepts(m, true, n, defs, Obj(fs), x)
    decreases l, 3
  {
    VisitUnfolds(l, defs, fs);
    RefUnfolds(m, n, defs, fs, x);
    ExactTarget(m, l - 1, n - 1, n', defs, known, RefName(fs), out, x);
  }

  lemma {:induction false} ExactTarget(m: Meaning, l: nat, n: nat, n': nat, defs: Json, known: set<string>,
                                       name: string, out: Json, x: Json)
    requires Visit(l, defs, Definition(defs, name)) == Ok(out) && n >= l && n' >= l && name in known
    requires DefinitionsInFragment(false, defs, known)
    ensures Accepts(m, false, n', EMPTY, out, x) == Accepts(m, true, n, defs, Definition(defs, name), x)
    decreases l, 5
  {
    Exact(m, l, n, n', defs, known, Definition(defs, name), x);
  }

  lemma {:induction false} ExactNode(m: Meaning, l: nat, n: nat, n': nat, defs: Json, known: set<string>,
                                     fs: seq<Field>, c: seq<Field>, x: Json)
    requires NodeVisit(l, defs, known, fs, c) && n >= l && n' >= l && DefinitionsInFragment(false, defs, known)
    ensures Accepts(m, false, n' + 1, EMPTY, Obj(c), x) == Accepts(m, true, n + 1, defs, Obj(fs), x)
    decreases l, 8
  {
    NodeGet(l, defs, known, fs, c, "$ref");
    ExactKeywords(m, l, n, n', defs, known, fs, c, x);
  }

  lemma {:induction false} ExactKeywords(m: Meaning, l: nat, n: nat, n': nat, defs: Json, known: set<string>,
                                         fs: seq<Field>, c: seq<Field>, x: Json)
    requires NodeVisit(l, defs, known, fs, c) && n >= l && n' >= l && DefinitionsInFragment(false, defs, known)
    ensures Keywords(m, false, n', EMPTY, c, x) == Keywords(m, true, n, defs, fs, x)
    decreases l, 7
  {
    ExactAssertions(m, l, defs, known, fs, c, x);
    ExactAllOf(m, l, n, n', defs, known, fs, c, x);
    ExactAnyOf(m, l, n, n', defs, known, fs, c, x);
    ExactElements(m, l, n, n', defs, known, fs, c, x);
    ExactProperties(m, l, n, n', defs, known, fs, c, x);
    ExactExtent(m, l, n, n', defs, known, fs, c, x);
  }

  lemma {:induction false} ExactExtent(m: Meaning, l: nat, n: nat, n': nat, defs: Json, known: set<string>,
                                       fs: seq<Field>, c: seq<Field>, x: Json)
    requires NodeVisit(l, defs, known, fs, c) && n >= l && n' >= l && DefinitionsInFragment(false, defs, known)
    ensures Extent(m, false, n', EMPTY, c, x) == Extent(m, true, n, defs, fs, x)
    decreases l, 6
  {
    NodeProperties(l, defs, known, fs, c);
    if IsObjectNode(fs) {
      ExactSealed(m, l, n', defs, known, fs, c, x);
    } else {
      ExactOpenness(m, l, n, n', defs, known, fs, c, x);
    }
  }

  lemma ExactAssertions(m: Meaning, l: nat, defs: Json, known: set<string>, fs: seq<Field>, c: seq<Field>, x: Json)
    requires NodeVisit(l, defs, known, fs, c)
    ensures Assertions(m, c, x) == Assertions(m, fs, x)
  {
    forall k | Assertion(k) ensures Get(c, k) == Get(fs, k) {
      NodeGet(l, defs, known, fs, c, k);
      if Has(fs, k) {
        GetInFragment(false, defs, known, fs, k);
        ObjectFreeKept(l, defs, Get(fs, k).value);
      }
    }
  }

  lemma {:induction false} ExactMembers(m: Meaning, l: nat, n: nat, n': nat, defs: Json, known: set<string>,
                                        fs: seq<Field>, c: seq<Field>, k: string, x: Json)
    requires NodeVisit(l, defs, known, fs, c) && n >= l && n' >= l && DefinitionsInFragment(false, defs, known)
    requires k in {"anyOf", "allOf", "prefixItems"}
    ensures var a, b := Members(Get(fs, k)), Members(Get(c, k));
      && Has(c, k) == Has(fs, k) && |a| == |b|
      && forall i :: 0 <= i < |a| ==> Accepts(m, false, n', EMPTY, b[i], x) == Accepts(m, true, n, defs, a[i], x)
    decreases l, 5
  {
    NodeMembers(l, defs, known, fs, c, k);
    var a, b := Members(Get(fs, k)), Members(Get(c, k));
    forall i | 0 <= i < |a| ensures Accepts(m, false, n', EMPTY, b[i], x) == Accepts(m, true, n, defs, a[i], x) {
      Exact(m, l - 1, n, n', defs, known, a[i], x);
    }
  }

  lemma {:induction false} ExactAllOf(m: Meaning, l: nat, n: nat, n': nat, defs: Json, known: set<string>,
                                      fs: seq<Field>, c: seq<Field>, x: Json)
    requires NodeVisit(l, defs, known, fs, c) && n >= l && n' >= l && DefinitionsInFragment(false, defs, known)
    ensures AllOf(m, false, n', EMPTY, c, x) == AllOf(m, true, n, defs, fs, x)
    decreases l, 6
  {
    ExactMembers(m, l, n, n', defs, known, fs, c, "allOf", x);
  }

  lemma {:induction false} ExactAnyOf(m: Meaning, l: nat, n: nat, n': nat, defs: Json, known: set<string>,
                                      fs: seq<Field>, c: seq<Field>, x: Json)
    requires NodeVisit(l, defs, known, fs, c) && n >= l && n' >= l && DefinitionsInFragment(false, defs, known)
    ensures AnyOf(m, false, n', EMPTY, c, x) == AnyOf(m, true, n, defs, fs, x)
    decreases l, 6
  {
    ExactMembers(m, l, n, n', defs, known, fs, c, "anyOf", x);
  }

  lemma {:induction false} ExactElements(m: Meaning, l: nat, n: nat, n': nat, defs: Json, known: set<string>,
                                         fs: seq<Field>, c: seq<Field>, x: Json)
    requires NodeVisit(l, defs, known, fs, c) && n >= l && n' >= l && DefinitionsInFragment(false, defs, known)
    ensures Elements(m, false, n', EMPTY, c, x) == Elements(m, true, n, defs, fs, x)
    decreases l, 5
  {
    if x.Arr? {
      NodeMembers(l, defs, known, fs, c, "prefixItems");
      NodeItems(l, defs, known, fs, c);
      var a, b := Members(Get(fs, "prefixItems")), Members(Get(c, "prefixItems"));
      forall i | 0 <= i < |x.items|
        ensures i < |a| ==>
          Accepts(m, false, n', EMPTY, b[i], x.items[i]) == Accepts(m, true, n, defs, a[i], x.items[i])
        ensures Has(fs, "items") ==> Accepts(m, false, n', EMPTY, Get(c, "items").value, x.items[i]) ==
                                     Accepts(m, true, n, defs, Get(fs, "items").value, x.items[i])
      {
        if i < |a| {
          Exact(m, l - 1, n, n', defs, known, a[i], x.items[i]);
        }
        if Has(fs, "items") {
          Exact(m, l, n, n', defs, known, Get(fs, "items").value, x.items[i]);
        }
      }
    }
  }

  lemma {:induction false} ExactProperties(m: Meaning, l: nat, n: nat, n': nat, defs: Json, known: set<string>,
                                           fs: seq<Field>, c: seq<Field>, x: Json)
    requires NodeVisit(l, defs, known, fs, c) && n >= l && n' >= l && DefinitionsInFragment(false, defs, known)
    ensures Properties(m, false, n', EMPTY, c, x) == Properties(m, true, n, defs, fs, x)
    decreases l, 5
  {
    var p, q := PropertiesOf(fs), PropertiesOf(c);
    if x.Obj? {
      forall i | 0 <= i < |x.fields|
        ensures Has(p, x.fields[i].key) == Has(q, x.fields[i].key)
        ensures Has(p, x.fields[i].key) ==>
          Accepts(m, false, n', EMPTY, Get(q, x.fields[i].key).value, x.fields[i].value) ==
          Accepts(m, true, n, defs, Get(p, x.fields[i].key).value, x.fields[i].value)
      {
        var k := x.fields[i].key;
        NodeProperty(l, defs, known, fs, c, k);
        if Has(p, k) {
          Exact(m, l, n, n', defs, known, Get(p, k).value, x.fields[i].value);
        }
      }
    }
  }

  lemma SortedNamesAre(props: seq<Field>, k: string)
    ensures Str(k) in SortedNames(props).items <==> Has(props, k)
  {
    var names := Sort(StringLeq, Keys(props));
    StringsAreStrict(names);
    SameElements(names, Keys(props));
    KeysAreHad(props, k);
    if k in names {
      var i :| 0 <= i < |names| && names[i] == k;
      assert Strings(names)[i] == Str(k);
    }
  }

  lemma ExactSealed(m: Meaning, l: nat, n': nat, defs: Json, known: set<string>, fs: seq<Field>, c: seq<Field>, x: Json)
    requires NodeVisit(l, defs, known, fs, c) && IsObjectNode(c)
    ensures Openness(m, false, n', EMPTY, c, x) == Sealed(PropertiesOf(fs), x)
  {
    NodeProperties(l, defs, known, fs, c);
    var p, q := PropertiesOf(fs), PropertiesOf(c);
    forall k ensures Has(p, k) == Has(q, k) {
      VisitPropertiesGet(l, defs, p, k);
    }
    SealedIsOpenness(m, n', c, x);
  }

  /** A node that lists its properties as required and admits no others demands exactly them. */
  lemma SealedIsOpenness(m: Meaning, n: nat, c: seq<Field>, x: Json)
    requires ClosedOver(c, PropertiesOf(c))
    ensures Openness(m, false, n, EMPTY, c, x) == Sealed(PropertiesOf(c), x)
  {
    var q := PropertiesOf(c);
    forall k ensures Str(k) in Members(Get(c, "required")) <==> Has(q, k) {
      SortedNamesAre(q, k);
    }
    if x.Obj? {
      forall i | 0 <= i < |x.fields| ensures Has(x.fields, x.fields[i].key) {
        MemberIsHad(x.fields, i);
      }
      if Openness(m, false, n, EMPTY, c, x) {
        forall k | Has(x.fields, k) ensures Has(q, k) {
          var i := GetIsMember(x.fields, k);
          assert !Accepts(m, false, n, EMPTY, Bool(false), x.fields[i].value);
        }
      }
    }
  }

  lemma NodeRequired(l: nat, defs: Json, known: set<string>, fs: seq<Field>, c: seq<Field>)
    requires NodeVisit(l, defs, known, fs, c) && !IsObjectNode(c)
    ensures Members(Get(c, "required")) == Members(Get(fs, "required"))
  {
    NodeGet(l, defs, known, fs, c, "required");
    if Has(fs, "required") {
      GetInFragment(false, defs, known, fs, "required");
      ObjectFreeKept(l, defs, Get(fs, "required").value);
    }
  }

  lemma {:induction false} ExactOpenness(m: Meaning, l: nat, n: nat, n': nat, defs: Json, known: set<string>,
                                         fs: seq<Field>, c: seq<Field>, x: Json)
    requires NodeVisit(l, defs, known, fs, c) && !IsObjectNode(c) && n >= l && n' >= l
    requires DefinitionsInFragment(false, defs, known)
    ensures Openness(m, false, n', EMPTY, c, x) == Openness(m, true, n, defs, fs, x)
    decreases l, 5
  {
    NodeProperties(l, defs, known, fs, c);
    NodeRequired(l, defs, known, fs, c);
    NodeGet(l, defs, known, fs, c, "additionalProperties");
    if x.Obj? && Has(fs, "additionalProperties") {
      SubschemaInFragment(false, defs, known, fs, "additionalProperties");
      forall i | 0 <= i < |x.fields|
        ensures Accepts(m, false, n', EMPTY, Get(c, "additionalProperties").value, x.fields[i].value) ==
                Accepts(m, true, n, defs, Get(fs, "additionalProperties").value, x.fields[i].value)
      {
        Exact(m, l, n, n', defs, known, Get(fs, "additionalProperties").value, x.fields[i].value);
      }
    }
  }
}
