/**
 Compilation of a JSON Schema document to the closed subset accepted by strict
 structured output. `Visit` follows the recursive compiler; `limit` is the
 interpreter's recursion limit, which a cyclic `$ref` always exhausts.
 */
module StrictSchema {
  import opened Wrappers
  import opened Json
  import opened Orders

  datatype Error = DynamicDictionary | AttributeError | RecursionError

  const UNSUPPORTED := {
    "minLength", "maxLength", "pattern", "format", "minimum", "maximum",
    "multipleOf", "minItems", "maxItems", "uniqueItems", "patternProperties",
    "unevaluatedProperties", "propertyNames"
  }

  const REF_PREFIX := "#/$defs/"

  predicate Dropped(key: string) {
    key in UNSUPPORTED || key in {"$defs", "$schema", "title", "default"} || key == "$ref"
  }

  predicate IsRef(fs: seq<Field>) {
    var ref := Get(fs, "$ref");
    ref.Some? && ref.value.Str? && REF_PREFIX <= ref.value.s
  }

  /** The text after the last '/'. */
  function LastSegment(s: string): string {
    if s == [] || s[|s| - 1] == '/' then [] else LastSegment(s[..|s| - 1]) + [s[|s| - 1]]
  }

  function RefName(fs: seq<Field>): string
    requires IsRef(fs)
  {
    LastSegment(Get(fs, "$ref").value.s)
  }

  function Definition(defs: Json, name: string): Json {
    if defs.Obj? && Has(defs.fields, name) then Get(defs.fields, name).value else EMPTY
  }

  predicate IsDynamic(fs: seq<Field>) {
    && Get(fs, "type") == Some(Str("object"))
    && !Has(fs, "properties")
    && Get(fs, "additionalProperties") != Some(Bool(false))
  }

  predicate IsObjectNode(fs: seq<Field>) {
    Get(fs, "type") == Some(Str("object")) || Has(fs, "properties")
  }

  function Strings(names: seq<string>): seq<Json> {
    if names == [] then [] else [Str(names[0])] + Strings(names[1..])
  }

  function SortedNames(props: seq<Field>): Json {
    Arr(Strings(Sort(StringLeq, Keys(props))))
  }

  function Closed(fs: seq<Field>, props: seq<Field>): seq<Field> {
    Put(Put(Put(fs, "properties", Obj(props)), "required", SortedNames(props)), "additionalProperties", Bool(false))
  }

  function Close(fs: seq<Field>): Result<Json, Error> {
    if !IsObjectNode(fs) then Ok(Obj(fs))
    else
      var props := if Has(fs, "properties") then Get(fs, "properties").value else EMPTY;
      if props.Obj? then Ok(Obj(Closed(fs, props.fields))) else Err(AttributeError)
  }

  function Visit(limit: nat, defs: Json, v: Json): Result<Json, Error>
    decreases limit, 0, 0
  {
    if limit == 0 then Err(RecursionError)
    else match v
      case Arr(items) =>
        var items' :- VisitAll(limit - 1, defs, items);
        Ok(Arr(items'))
      case Obj(fs) =>
        if IsRef(fs) then
          if defs.Obj? then Visit(limit - 1, defs, Definition(defs, RefName(fs)))
          else Err(AttributeError)
        else if IsDynamic(fs) then Err(DynamicDictionary)
        else
          var fs' :- VisitFields(limit - 1, defs, fs);
          Close(fs')
      case _ => Ok(v)
  }

  function VisitAll(limit: nat, defs: Json, items: seq<Json>): Result<seq<Json>, Error>
    decreases limit, 1, |items|
  {
    if items == [] then Ok([])
    else
      var first :- Visit(limit, defs, items[0]);
      var rest :- VisitAll(limit, defs, items[1..]);
      Ok([first] + rest)
  }

  /** The children of `properties`: every name survives, whatever it is called. */
  function VisitProperties(limit: nat, defs: Json, fs: seq<Field>): Result<seq<Field>, Error>
    decreases limit, 1, |fs|
  {
    if fs == [] then Ok([])
    else
      var first :- Visit(limit, defs, fs[0].value);
      var rest :- VisitProperties(limit, defs, fs[1..]);
      Ok([Field(fs[0].key, first)] + rest)
  }

  function VisitField(limit: nat, defs: Json, f: Field): Result<Json, Error>
    decreases limit, 2, 0
  {
    if f.key == "properties" && f.value.Obj? then
      var props :- VisitProperties(limit, defs, f.value.fields);
      Ok(Obj(props))
    else
      Visit(limit, defs, f.value)
  }

  function VisitFields(limit: nat, defs: Json, fs: seq<Field>): Result<seq<Field>, Error>
    decreases limit, 3, |fs|
  {
    if fs == [] then Ok([])
    else if Dropped(fs[0].key) then VisitFields(limit, defs, fs[1..])
    else
      var first :- VisitField(limit, defs, fs[0]);
      var rest :- VisitFields(limit, defs, fs[1..]);
      Ok([Field(fs[0].key, first)] + rest)
  }

  function DefinitionsOf(schema: Json): Json
    requires schema.Obj?
  {
    if Has(schema.fields, "$defs") then Get(schema.fields, "$defs").value else EMPTY
  }

  function Compile(limit: nat, schema: Json): Result<Json, Error>
    requires schema.Obj?
  {
    Visit(limit, DefinitionsOf(schema), schema)
  }

  // ----- what one visit does to the parts of a node

  lemma {:induction false} VisitAllAt(limit: nat, defs: Json, items: seq<Json>)
    requires VisitAll(limit, defs, items).Ok?
    ensures |VisitAll(limit, defs, items).value| == |items|
    ensures forall i :: 0 <= i < |items| ==>
      Visit(limit, defs, items[i]) == Ok(VisitAll(limit, defs, items).value[i])
  {
    if items != [] {
      VisitAllAt(limit, defs, items[1..]);
      var rest := VisitAll(limit, defs, items[1..]).value;
      forall i | 0 < i < |items| ensures Visit(limit, defs, items[i]) == Ok(VisitAll(limit, defs, items).value[i]) {
        assert items[i] == items[1..][i - 1];
      }
    }
  }

  lemma {:induction false} VisitPropertiesAt(limit: nat, defs: Json, fs: seq<Field>)
    requires VisitProperties(limit, defs, fs).Ok?
    ensures var r := VisitProperties(limit, defs, fs).value;
      && |r| == |fs| && Keys(r) == Keys(fs)
      && forall i :: 0 <= i < |fs| ==> Visit(limit, defs, fs[i].value) == Ok(r[i].value) && r[i].key == fs[i].key
  {
    if fs != [] {
      VisitPropertiesAt(limit, defs, fs[1..]);
      var r := VisitProperties(limit, defs, fs).value;
      assert r[1..] == VisitProperties(limit, defs, fs[1..]).value;
      forall i | 0 < i < |fs| ensures Visit(limit, defs, fs[i].value) == Ok(r[i].value) && r[i].key == fs[i].key {
        assert fs[i] == fs[1..][i - 1] && r[i] == r[1..][i - 1];
      }
    }
  }

  lemma {:induction false} VisitPropertiesGet(limit: nat, defs: Json, fs: seq<Field>, k: string)
    requires VisitProperties(limit, defs, fs).Ok?
    ensures var r := VisitProperties(limit, defs, fs).value;
      && Has(r, k) == Has(fs, k)
      && (Has(fs, k) ==> Visit(limit, defs, Get(fs, k).value) == Ok(Get(r, k).value))
  {
    if fs != [] && fs[0].key != k {
      VisitPropertiesGet(limit, defs, fs[1..], k);
    }
  }

  lemma {:induction false} VisitFieldsGet(limit: nat, defs: Json, fs: seq<Field>, k: string)
    requires VisitFields(limit, defs, fs).Ok?
    ensures var r := VisitFields(limit, defs, fs).value;
      && Has(r, k) == (Has(fs, k) && !Dropped(k))
      && (Has(r, k) ==> VisitField(limit, defs, Field(k, Get(fs, k).value)) == Ok(Get(r, k).value))
  {
    if fs != [] {
      if Dropped(fs[0].key) || fs[0].key != k {
        VisitFieldsGet(limit, defs, fs[1..], k);
      }
    }
  }

  lemma {:induction false} VisitFieldsAt(limit: nat, defs: Json, fs: seq<Field>, j: nat) returns (i: nat)
    requires VisitFields(limit, defs, fs).Ok? && j < |VisitFields(limit, defs, fs).value|
    ensures var f := VisitFields(limit, defs, fs).value[j];
      && i < |fs| && !Dropped(f.key) && f.key == fs[i].key && VisitField(limit, defs, fs[i]) == Ok(f.value)
  {
    var r := VisitFields(limit, defs, fs).value;
    if Dropped(fs[0].key) {
      var i' := VisitFieldsAt(limit, defs, fs[1..], j);
      i := i' + 1;
    } else if j == 0 {
      i := 0;
    } else {
      assert r[j] == r[1..][j - 1];
      var i' := VisitFieldsAt(limit, defs, fs[1..], j - 1);
      i := i' + 1;
    }
  }

  lemma ClosedGet(fs: seq<Field>, props: seq<Field>, k: string)
    ensures Get(Closed(fs, props), k) ==
      if k == "additionalProperties" then Some(Bool(false))
      else if k == "required" then Some(SortedNames(props))
      else if k == "properties" then Some(Obj(props))
      else Get(fs, k)
  {
    var fs1 := Put(fs, "properties", Obj(props));
    var fs2 := Put(fs1, "required", SortedNames(props));
    GetPut(fs, "properties", Obj(props), k);
    GetPut(fs1, "required", SortedNames(props), k);
    GetPut(fs2, "additionalProperties", Bool(false), k);
  }

  /** A closed node keeps its properties and every other member. */
  lemma CloseShape(fs: seq<Field>)
    requires Close(fs).Ok?
    ensures var c := Close(fs).value;
      && c.Obj?
      && IsObjectNode(c.fields) == IsObjectNode(fs)
      && PropertiesOf(c.fields) == PropertiesOf(fs)
      && (IsObjectNode(fs) ==> ClosedOver(c.fields, PropertiesOf(fs)))
      && (!IsObjectNode(fs) ==> c.fields == fs)
  {
    if IsObjectNode(fs) {
      var props := PropertiesOf(fs);
      assert Close(fs).value.fields == Closed(fs, props);
      ClosedGet(fs, props, "properties");
      ClosedGet(fs, props, "required");
      ClosedGet(fs, props, "additionalProperties");
    }
  }

  function PropertiesOf(fs: seq<Field>): seq<Field> {
    match Get(fs, "properties")
    case Some(Obj(props)) => props
    case _ => []
  }

  /** `required` lists the properties in order and nothing else is admitted. */
  ghost predicate ClosedOver(fs: seq<Field>, props: seq<Field>) {
    && Get(fs, "properties") == Some(Obj(props))
    && Get(fs, "required") == Some(SortedNames(props))
    && Get(fs, "additionalProperties") == Some(Bool(false))
  }

  // ----- the shape of compiled output

  ghost predicate Strict(v: Json)
    decreases v
  {
    match v
    case Arr(items) => forall i :: 0 <= i < |items| ==> Strict(items[i])
    case Obj(fs) =>
      && StrictFields(fs)
      && (IsObjectNode(fs) ==> ClosedOver(fs, PropertiesOf(fs)))
    case _ => true
  }

  ghost predicate StrictField(f: Field)
    decreases f
  {
    if f.key == "properties" && f.value.Obj? then
      forall j :: 0 <= j < |f.value.fields| ==> Strict(f.value.fields[j].value)
    else
      Strict(f.value)
  }

  ghost predicate StrictFields(fs: seq<Field>)
    decreases fs
  {
    forall i :: 0 <= i < |fs| ==> !Dropped(fs[i].key) && StrictField(fs[i])
  }

  lemma {:induction false} StringsAreStrict(names: seq<string>)
    ensures forall i :: 0 <= i < |Strings(names)| ==> Strings(names)[i].Str?
    ensures |Strings(names)| == |names|
    ensures forall i :: 0 <= i < |names| ==> Strings(names)[i] == Str(names[i])
  {
    if names != [] {
      StringsAreStrict(names[1..]);
    }
  }

  lemma {:induction false} VisitFieldStrict(limit: nat, defs: Json, f: Field)
    requires VisitField(limit, defs, f).Ok?
    ensures StrictField(Field(f.key, VisitField(limit, defs, f).value))
    decreases limit, 1
  {
    if f.key == "properties" && f.value.Obj? {
      var fs := f.value.fields;
      VisitPropertiesAt(limit, defs, fs);
      var r := VisitProperties(limit, defs, fs).value;
      forall j | 0 <= j < |r| ensures Strict(r[j].value) {
        VisitStrict(limit, defs, fs[j].value);
      }
    } else {
      VisitStrict(limit, defs, f.value);
    }
  }

  /** Whatever compiles is in the strict subset, at every schema position. */
  lemma {:induction false} VisitStrict(limit: nat, defs: Json, v: Json)
    requires Visit(limit, defs, v).Ok?
    ensures Strict(Visit(limit, defs, v).value)
    decreases limit, 0
  {
    match v
    case Arr(items) =>
      VisitAllAt(limit - 1, defs, items);
      forall i | 0 <= i < |items| ensures Strict(Visit(limit, defs, v).value.items[i]) {
        VisitStrict(limit - 1, defs, items[i]);
      }
    case Obj(fs) =>
      if IsRef(fs) {
        VisitStrict(limit - 1, defs, Definition(defs, RefName(fs)));
      } else {
        VisitFieldsStrict(limit - 1, defs, fs);
        CloseStrict(VisitFields(limit - 1, defs, fs).value);
      }
    case _ =>
  }

  lemma {:induction false} VisitFieldsStrict(limit: nat, defs: Json, fs: seq<Field>)
    requires VisitFields(limit, defs, fs).Ok?
    ensures StrictFields(VisitFields(limit, defs, fs).value)
    decreases limit, 2
  {
    var fs' := VisitFields(limit, defs, fs).value;
    forall j | 0 <= j < |fs'| ensures !Dropped(fs'[j].key) && StrictField(fs'[j]) {
      var i := VisitFieldsAt(limit, defs, fs, j);
      VisitFieldStrict(limit, defs, fs[i]);
    }
  }

  lemma CloseStrict(fs: seq<Field>)
    requires Close(fs).Ok? && StrictFields(fs)
    ensures Strict(Close(fs).value)
  {
    CloseShape(fs);
    if IsObjectNode(fs) {
      var props := PropertiesOf(fs);
      assert Close(fs).value.fields == Closed(fs, props);
      PropertiesStrict(fs);
      ClosedStrict(fs, props);
    }
  }

  lemma PropertiesStrict(fs: seq<Field>)
    requires StrictFields(fs)
    ensures StrictField(Field("properties", Obj(PropertiesOf(fs))))
  {
    if Has(fs, "properties") {
      var i := GetIsMember(fs, "properties");
    }
  }

  lemma NamesStrict(props: seq<Field>)
    ensures StrictField(Field("required", SortedNames(props)))
  {
    StringsAreStrict(Sort(StringLeq, Keys(props)));
  }

  lemma ClosedStrict(fs: seq<Field>, props: seq<Field>)
    requires StrictFields(fs) && StrictField(Field("properties", Obj(props)))
    ensures StrictFields(Closed(fs, props))
  {
    NamesStrict(props);
    PutThreeStrict(fs, Field("properties", Obj(props)), Field("required", SortedNames(props)),
                   Field("additionalProperties", Bool(false)));
  }

  lemma PutThreeStrict(fs: seq<Field>, f: Field, g: Field, h: Field)
    requires !Dropped(f.key) && !Dropped(g.key) && !Dropped(h.key)
    requires StrictField(f) && StrictField(g) && StrictField(h) && StrictFields(fs)
    ensures StrictFields(Put(Put(Put(fs, f.key, f.value), g.key, g.value), h.key, h.value))
  {
    PutStrict(fs, f.key, f.value);
    PutStrict(Put(fs, f.key, f.value), g.key, g.value);
    PutStrict(Put(Put(fs, f.key, f.value), g.key, g.value), h.key, h.value);
  }

  lemma PutStrict(fs: seq<Field>, k: string, v: Json)
    requires !Dropped(k) && StrictField(Field(k, v))
    requires StrictFields(fs)
    ensures StrictFields(Put(fs, k, v))
  {
    var r := Put(fs, k, v);
    forall j | 0 <= j < |r| ensures !Dropped(r[j].key) && StrictField(r[j]) {
      PutMembers(fs, k, v, j);
    }
  }

  // ----- the same, keyword by keyword

  const STRIPPED := {
    "$ref", "$defs", "$schema", "title", "default", "minLength", "maxLength", "pattern", "format", "minimum",
    "maximum", "multipleOf", "minItems", "maxItems", "uniqueItems", "patternProperties", "unevaluatedProperties",
    "propertyNames"
  }

  lemma DroppedIff(k: string)
    ensures Dropped(k) <==> k in STRIPPED
  {
  }

  /** `required` names each property, in code point order. */
  lemma RequiredIsSorted(props: seq<Field>)
    ensures SortedNames(props).Arr?
    ensures var names := SortedNames(props).items;
      && |names| == |props|
      && (forall i :: 0 <= i < |names| ==> names[i].Str?)
      && (forall i, j :: 0 <= i < j < |names| ==> StringLeq(names[i].s, names[j].s))
      && (forall k :: Str(k) in names <==> Has(props, k))
  {
    var names := Sort(StringLeq, Keys(props));
    StringOrder();
    SortSorted(StringLeq, Keys(props));
    SameElements(names, Keys(props));
    StringsAreStrict(names);
    KeysLength(props);
    forall k ensures Str(k) in Strings(names) <==> Has(props, k) {
      KeysAreHad(props, k);
      if k in names {
        var i :| 0 <= i < |names| && names[i] == k;
        assert Strings(names)[i] == Str(k);
      }
    }
  }

  lemma {:induction false} KeysLength(fs: seq<Field>)
    ensures |Keys(fs)| == |fs|
  {
    if fs != [] {
      KeysLength(fs[1..]);
    }
  }

  /** Every object that compiles has no stripped keyword, and one that describes objects is closed. */
  lemma CompiledNode(limit: nat, defs: Json, v: Json, c: seq<Field>)
    requires Visit(limit, defs, v) == Ok(Obj(c))
    ensures forall k :: k in STRIPPED ==> !Has(c, k)
    ensures Get(c, "type") == Some(Str("object")) || Has(c, "properties") ==>
      && Get(c, "additionalProperties") == Some(Bool(false))
      && Get(c, "properties") == Some(Obj(PropertiesOf(c)))
      && Get(c, "required") == Some(SortedNames(PropertiesOf(c)))
  {
    VisitStrict(limit, defs, v);
    assert StrictFields(c);
    forall k | k in STRIPPED ensures !Has(c, k) {
      DroppedIff(k);
      if Has(c, k) {
        var i := GetIsMember(c, k);
      }
    }
  }

  // ----- definitions and references

  lemma {:induction false} LastSegmentOf(a: string, b: string)
    requires '/' !in b
    ensures LastSegment(a + ['/'] + b) == b
  {
    var s := a + ['/'] + b;
    if b == [] {
      assert s[|s| - 1] == '/';
    } else {
      var n := |b| - 1;
      assert s[..|s| - 1] == a + ['/'] + b[..n] && s[|s| - 1] == b[n];
      assert b[n] in b;
      LastSegmentOf(a, b[..n]);
      assert b == b[..n] + [b[n]];
    }
  }

  /** A reference compiles to the definition its last segment names, or to `{}` where there is none. */
  lemma ReferenceCompiles(limit: nat, fs: seq<Field>, ds: seq<Field>, path: string, name: string)
    requires Get(fs, "$defs") == Some(Obj(ds)) && '/' !in name
    requires Get(fs, "$ref") == Some(Str("#/$defs/" + path))
    requires path == name || (|path| > |name| && path == path[..|path| - |name| - 1] + ['/'] + name)
    ensures Compile(limit + 1, Obj(fs)) == Visit(limit, Obj(ds), if Has(ds, name) then Get(ds, name).value else Obj([]))
  {
    var s := "#/$defs/" + path;
    if path == name {
      assert s == "#/$defs" + ['/'] + name;
      LastSegmentOf("#/$defs", name);
    } else {
      var before := "#/$defs/" + path[..|path| - |name| - 1];
      assert s == before + ['/'] + name;
      LastSegmentOf(before, name);
    }
  }

  /** An object without properties compiles exactly when it admits no other names; else it is a dynamic dictionary. */
  lemma BareObjectIff(limit: nat, defs: Json, fs: seq<Field>)
    requires limit > 0 && !IsRef(fs) && Get(fs, "type") == Some(Str("object")) && !Has(fs, "properties")
    ensures Get(fs, "additionalProperties") != Some(Bool(false)) ==>
      Visit(limit, defs, Obj(fs)) == Err(DynamicDictionary)
    ensures Get(fs, "additionalProperties") == Some(Bool(false)) ==>
      (Visit(limit, defs, Obj(fs)).Ok? <==> VisitFields(limit - 1, defs, fs).Ok?)
  {
    if VisitFields(limit - 1, defs, fs).Ok? {
      VisitFieldsGet(limit - 1, defs, fs, "properties");
    }
  }

  // ----- the strict subset is exactly what a further compilation leaves alone

  lemma {:induction false} FixedAll(limit: nat, defs: Json, items: seq<Json>)
    requires forall i :: 0 <= i < |items| ==> Visit(limit, defs, items[i]) == Ok(items[i])
    ensures VisitAll(limit, defs, items) == Ok(items)
  {
    if items != [] {
      forall i | 0 <= i < |items[1..]| ensures Visit(limit, defs, items[1..][i]) == Ok(items[1..][i]) {
        assert items[1..][i] == items[i + 1];
      }
      FixedAll(limit, defs, items[1..]);
      assert items == [items[0]] + items[1..];
    }
  }

  lemma {:induction false} FixedProperties(limit: nat, defs: Json, fs: seq<Field>)
    requires forall i :: 0 <= i < |fs| ==> Visit(limit, defs, fs[i].value) == Ok(fs[i].value)
    ensures VisitProperties(limit, defs, fs) == Ok(fs)
  {
    if fs != [] {
      forall i | 0 <= i < |fs[1..]| ensures Visit(limit, defs, fs[1..][i].value) == Ok(fs[1..][i].value) {
        assert fs[1..][i] == fs[i + 1];
      }
      FixedProperties(limit, defs, fs[1..]);
      assert fs == [fs[0]] + fs[1..];
    }
  }

  lemma {:induction false} FixedFields(limit: nat, defs: Json, fs: seq<Field>)
    requires forall i :: 0 <= i < |fs| ==> !Dropped(fs[i].key) && VisitField(limit, defs, fs[i]) == Ok(fs[i].value)
    ensures VisitFields(limit, defs, fs) == Ok(fs)
  {
    if fs != [] {
      forall i | 0 <= i < |fs[1..]|
        ensures !Dropped(fs[1..][i].key) && VisitField(limit, defs, fs[1..][i]) == Ok(fs[1..][i].value)
      {
        assert fs[1..][i] == fs[i + 1];
      }
      FixedFields(limit, defs, fs[1..]);
      assert fs == [fs[0]] + fs[1..];
    }
  }

  lemma {:induction false} StrictIsFixed(limit: nat, defs: Json, v: Json)
    requires Strict(v) && limit >= Height(v)
    ensures Visit(limit, defs, v) == Ok(v)
    decreases limit, 0
  {
    match v
    case Arr(items) =>
      forall i | 0 <= i < |items| ensures Visit(limit - 1, defs, items[i]) == Ok(items[i]) {
        StrictIsFixed(limit - 1, defs, items[i]);
      }
      FixedAll(limit - 1, defs, items);
    case Obj(fs) =>
      assert StrictFields(fs);
      forall i | 0 <= i < |fs| ensures !Dropped(fs[i].key) && VisitField(limit - 1, defs, fs[i]) == Ok(fs[i].value) {
        StrictFieldIsFixed(limit - 1, defs, fs[i]);
      }
      FixedFields(limit - 1, defs, fs);
      StrictHasNoRef(fs);
      StrictIsClosed(fs);
    case _ =>
  }

  lemma {:induction false} StrictFieldIsFixed(limit: nat, defs: Json, f: Field)
    requires StrictField(f) && limit >= Height(f.value)
    ensures VisitField(limit, defs, f) == Ok(f.value)
    decreases limit, 1
  {
    if f.key == "properties" && f.value.Obj? {
      var props := f.value.fields;
      forall j | 0 <= j < |props| ensures Visit(limit, defs, props[j].value) == Ok(props[j].value) {
        StrictIsFixed(limit, defs, props[j].value);
      }
      FixedProperties(limit, defs, props);
    } else {
      StrictIsFixed(limit, defs, f.value);
    }
  }

  lemma StrictHasNoRef(fs: seq<Field>)
    requires StrictFields(fs)
    ensures !Has(fs, "$ref")
  {
    if Has(fs, "$ref") {
      var i := GetIsMember(fs, "$ref");
      assert false;
    }
  }

  lemma StrictIsClosed(fs: seq<Field>)
    requires Strict(Obj(fs))
    ensures !IsDynamic(fs) && Close(fs) == Ok(Obj(fs))
  {
    if IsObjectNode(fs) {
      PutSame(fs, "properties");
      PutSame(fs, "required");
      PutSame(fs, "additionalProperties");
    }
  }

  /** With enough recursion headroom the fixed points of the compiler are exactly the strict documents. */
  lemma FixedIffStrict(limit: nat, defs: Json, v: Json)
    requires limit >= Height(v)
    ensures Visit(limit, defs, v) == Ok(v) <==> Strict(v)
  {
    if Visit(limit, defs, v) == Ok(v) {
      VisitStrict(limit, defs, v);
    } else if Strict(v) {
      StrictIsFixed(limit, defs, v);
    }
  }

  /** Compiling twice is compiling once. */
  lemma CompileIdempotent(limit: nat, again: nat, schema: Json, out: Json)
    requires schema.Obj? && Compile(limit, schema) == Ok(out) && out.Obj?
    requires again >= Height(out)
    ensures Strict(out) && Compile(again, out) == Ok(out)
  {
    VisitStrict(limit, DefinitionsOf(schema), schema);
    StrictIsFixed(again, DefinitionsOf(out), out);
  }

  // ----- recursion: which documents compile within some limit

  /** `name` is referenced from a position of `v` that the compiler visits. */
  ghost predicate Refers(v: Json, name: string)
    decreases v
  {
    match v
    case Arr(items) => exists i :: 0 <= i < |items| && Refers(items[i], name)
    case Obj(fs) =>
      if IsRef(fs) then RefName(fs) == name
      else exists i :: 0 <= i < |fs| && !Dropped(fs[i].key) && FieldRefers(fs[i], name)
    case _ => false
  }

  ghost predicate FieldRefers(f: Field, name: string)
    decreases f
  {
    if f.key == "properties" && f.value.Obj? then
      exists j :: 0 <= j < |f.value.fields| && Refers(f.value.fields[j].value, name)
    else
      Refers(f.value, name)
  }

  /** Ranks of the definitions a document reaches; nothing is asked of the others. */
  type Rank = string -> Option<nat>

  predicate Below(rank: Rank, r: nat, name: string) { rank(name).Some? && rank(name).value < r }

  /** `rank` falls along every reference from a ranked definition, so no cycle can be reached from one. */
  ghost predicate Acyclic(defs: Json, rank: Rank) {
    forall d, name :: rank(d).Some? && Refers(Definition(defs, d), name) ==> Below(rank, rank(d).value, name)
  }

  lemma DefinitionHeight(defs: Json, name: string)
    ensures Height(Definition(defs, name)) <= Height(defs)
  {
    if defs.Obj? && Has(defs.fields, name) {
      var i := GetIsMember(defs.fields, name);
    } else {
      assert Height(EMPTY) == 1;
    }
  }

  /** The depth that chains of references below rank `r` can use up. */
  ghost function Headroom(r: nat, defs: Json): nat { r * Height(defs) }

  lemma RankCost(q: nat, r: nat, defs: Json)
    requires q < r
    ensures Headroom(q, defs) + Height(defs) <= Headroom(r, defs)
  {
    MulStep(q, r, Height(defs));
  }

  lemma MulStep(q: nat, r: nat, h: nat)
    requires q < r
    ensures q * h + h <= r * h
  {
    assert r * h == q * h + h + (r - q - 1) * h;
  }

  lemma MembersTerminate(limit: nat, defs: Json, fs: seq<Field>)
    requires limit > 0 && !IsRef(fs) && VisitFields(limit - 1, defs, fs) != Err(RecursionError)
    ensures Visit(limit, defs, Obj(fs)) != Err(RecursionError)
  {
  }

  lemma RankedItems(items: seq<Json>, rank: Rank, r: nat)
    requires forall name :: Refers(Arr(items), name) ==> Below(rank, r, name)
    ensures forall i, name :: 0 <= i < |items| && Refers(items[i], name) ==> Below(rank, r, name)
  {
    forall i, name | 0 <= i < |items| && Refers(items[i], name) ensures Below(rank, r, name) {
      assert Refers(Arr(items), name);
    }
  }

  lemma RankedFields(fs: seq<Field>, rank: Rank, r: nat)
    requires !IsRef(fs) && forall name :: Refers(Obj(fs), name) ==> Below(rank, r, name)
    ensures forall i, name :: 0 <= i < |fs| && !Dropped(fs[i].key) && FieldRefers(fs[i], name) ==> Below(rank, r, name)
  {
    forall i, name | 0 <= i < |fs| && !Dropped(fs[i].key) && FieldRefers(fs[i], name) ensures Below(rank, r, name) {
      assert Refers(Obj(fs), name);
    }
  }

  lemma {:induction false} AcyclicTerminates(limit: nat, defs: Json, rank: Rank, r: nat, cost: nat, v: Json)
    requires Acyclic(defs, rank)
    requires forall name :: Refers(v, name) ==> Below(rank, r, name)
    requires cost == Headroom(r, defs) && limit >= Height(v) + cost
    ensures Visit(limit, defs, v) != Err(RecursionError)
    decreases limit, 1, 0
  {
    match v
    case Arr(items) =>
      RankedItems(items, rank, r);
      AcyclicTerminatesAll(limit - 1, defs, rank, r, cost, items);
    case Obj(fs) =>
      if IsRef(fs) {
        AcyclicTerminatesRef(limit, defs, rank, r, cost, fs);
      } else {
        RankedFields(fs, rank, r);
        AcyclicTerminatesFields(limit - 1, defs, rank, r, cost, fs);
        MembersTerminate(limit, defs, fs);
      }
    case _ =>
  }

  lemma {:induction false} AcyclicTerminatesRef(limit: nat, defs: Json, rank: Rank, r: nat, cost: nat, fs: seq<Field>)
    requires Acyclic(defs, rank) && IsRef(fs)
    requires forall name :: Refers(Obj(fs), name) ==> Below(rank, r, name)
    requires cost == Headroom(r, defs) && limit >= 1 + cost
    ensures Visit(limit, defs, Obj(fs)) != Err(RecursionError)
    decreases limit, 0, 0
  {
    var name := RefName(fs);
    assert Refers(Obj(fs), name);
    DefinitionHeight(defs, name);
    var q := rank(name).value;
    RankCost(q, r, defs);
    AcyclicTerminates(limit - 1, defs, rank, q, Headroom(q, defs), Definition(defs, name));
  }

  lemma {:induction false} AcyclicTerminatesAll(limit: nat, defs: Json, rank: Rank, r: nat, cost: nat, items: seq<Json>)
    requires Acyclic(defs, rank)
    requires forall i, name :: 0 <= i < |items| && Refers(items[i], name) ==> Below(rank, r, name)
    requires cost == Headroom(r, defs) && forall i :: 0 <= i < |items| ==> limit >= Height(items[i]) + cost
    ensures VisitAll(limit, defs, items) != Err(RecursionError)
    decreases limit, 2, |items|
  {
    if items != [] {
      AcyclicTerminates(limit, defs, rank, r, cost, items[0]);
      assert forall i :: 0 <= i < |items[1..]| ==> items[1..][i] == items[i + 1];
      AcyclicTerminatesAll(limit, defs, rank, r, cost, items[1..]);
    }
  }

  lemma {:induction false} AcyclicTerminatesProperties(limit: nat, defs: Json, rank: Rank, r: nat,
                                                       cost: nat, fs: seq<Field>)
    requires Acyclic(defs, rank)
    requires forall i, name :: 0 <= i < |fs| && Refers(fs[i].value, name) ==> Below(rank, r, name)
    requires cost == Headroom(r, defs) && forall i :: 0 <= i < |fs| ==> limit >= Height(fs[i].value) + cost
    ensures VisitProperties(limit, defs, fs) != Err(RecursionError)
    decreases limit, 2, |fs|
  {
    if fs != [] {
      AcyclicTerminates(limit, defs, rank, r, cost, fs[0].value);
      assert forall i :: 0 <= i < |fs[1..]| ==> fs[1..][i] == fs[i + 1];
      AcyclicTerminatesProperties(limit, defs, rank, r, cost, fs[1..]);
    }
  }

  lemma {:induction false} AcyclicTerminatesField(limit: nat, defs: Json, rank: Rank, r: nat, cost: nat, f: Field)
    requires Acyclic(defs, rank)
    requires forall name :: FieldRefers(f, name) ==> Below(rank, r, name)
    requires cost == Headroom(r, defs) && limit >= Height(f.value) + cost
    ensures VisitField(limit, defs, f) != Err(RecursionError)
    decreases limit, 3, 0
  {
    if f.key == "properties" && f.value.Obj? {
      var props := f.value.fields;
      forall j, name | 0 <= j < |props| && Refers(props[j].value, name) ensures Below(rank, r, name) {
        assert FieldRefers(f, name);
      }
      AcyclicTerminatesProperties(limit, defs, rank, r, cost, props);
    } else {
      AcyclicTerminates(limit, defs, rank, r, cost, f.value);
    }
  }

  lemma {:induction false} AcyclicTerminatesFields(limit: nat, defs: Json, rank: Rank, r: nat,
                                                   cost: nat, fs: seq<Field>)
    requires Acyclic(defs, rank)
    requires forall i, name :: 0 <= i < |fs| && !Dropped(fs[i].key) && FieldRefers(fs[i], name) ==> Below(rank, r, name)
    requires cost == Headroom(r, defs) && forall i :: 0 <= i < |fs| ==> limit >= Height(fs[i].value) + cost
    ensures VisitFields(limit, defs, fs) != Err(RecursionError)
    decreases limit, 4, |fs|
  {
    if fs != [] {
      if !Dropped(fs[0].key) {
        AcyclicTerminatesField(limit, defs, rank, r, cost, fs[0]);
      }
      assert forall i :: 0 <= i < |fs[1..]| ==> fs[1..][i] == fs[i + 1];
      AcyclicTerminatesFields(limit, defs, rank, r, cost, fs[1..]);
    }
  }

  /**
   Compilation ends, with a result or a rejection, once the limit covers the document's nesting and
   its reference chains.
   */
  lemma CompileTerminates(limit: nat, schema: Json, rank: Rank, r: nat)
    requires schema.Obj? && Acyclic(DefinitionsOf(schema), rank)
    requires forall name :: Refers(schema, name) ==> Below(rank, r, name)
    requires limit >= Height(schema) + Headroom(r, DefinitionsOf(schema))
    ensures Compile(limit, schema) != Err(RecursionError)
  {
    var defs := DefinitionsOf(schema);
    AcyclicTerminates(limit, defs, rank, r, Headroom(r, defs), schema);
  }

  lemma ReferringItem(items: seq<Json>, name: string) returns (i: nat)
    requires Refers(Arr(items), name)
    ensures i < |items| && Refers(items[i], name)
  {
    i :| 0 <= i < |items| && Refers(items[i], name);
  }

  lemma ReferringField(fs: seq<Field>, name: string) returns (i: nat)
    requires Refers(Obj(fs), name) && !IsRef(fs)
    ensures i < |fs| && !Dropped(fs[i].key) && FieldRefers(fs[i], name)
  {
    i :| 0 <= i < |fs| && !Dropped(fs[i].key) && FieldRefers(fs[i], name);
  }

  lemma SuccessVisitsMembers(limit: nat, defs: Json, fs: seq<Field>)
    requires Visit(limit, defs, Obj(fs)).Ok? && !IsRef(fs)
    ensures limit > 0 && VisitFields(limit - 1, defs, fs).Ok?
  {
  }

  lemma SuccessVisitsTarget(limit: nat, defs: Json, fs: seq<Field>)
    requires Visit(limit, defs, Obj(fs)).Ok? && IsRef(fs)
    ensures limit > 0 && Visit(limit - 1, defs, Definition(defs, RefName(fs))).Ok?
  {
  }

  /** A successful visit has successfully visited every definition it refers to, one level deeper. */
  lemma {:induction false} SuccessVisitsReferences(limit: nat, defs: Json, v: Json, name: string)
    returns (limit': nat)
    requires Visit(limit, defs, v).Ok? && Refers(v, name)
    ensures limit' < limit && Visit(limit', defs, Definition(defs, name)).Ok?
    decreases limit, 0
  {
    match v
    case Arr(items) =>
      var i := ReferringItem(items, name);
      VisitAllAt(limit - 1, defs, items);
      limit' := SuccessVisitsReferences(limit - 1, defs, items[i], name);
    case Obj(fs) =>
      if IsRef(fs) {
        SuccessVisitsTarget(limit, defs, fs);
        limit' := limit - 1;
      } else {
        var i := ReferringField(fs, name);
        SuccessVisitsMembers(limit, defs, fs);
        SuccessVisitsField(limit - 1, defs, fs, i);
        limit' := SuccessVisitsFieldReferences(limit - 1, defs, fs[i], name);
      }
  }

  lemma {:induction false} SuccessVisitsFieldReferences(limit: nat, defs: Json, f: Field, name: string)
    returns (limit': nat)
    requires VisitField(limit, defs, f).Ok? && FieldRefers(f, name)
    ensures limit' < limit && Visit(limit', defs, Definition(defs, name)).Ok?
    decreases limit, 1
  {
    if f.key == "properties" && f.value.Obj? {
      var props := f.value.fields;
      var j :| 0 <= j < |props| && Refers(props[j].value, name);
      VisitPropertiesAt(limit, defs, props);
      limit' := SuccessVisitsReferences(limit, defs, props[j].value, name);
    } else {
      limit' := SuccessVisitsReferences(limit, defs, f.value, name);
    }
  }

  lemma {:induction false} SuccessVisitsField(limit: nat, defs: Json, fs: seq<Field>, i: nat)
    requires VisitFields(limit, defs, fs).Ok? && i < |fs| && !Dropped(fs[i].key)
    ensures VisitField(limit, defs, fs[i]).Ok?
  {
    if i > 0 {
      SuccessVisitsField(limit, defs, fs[1..], i - 1);
    }
  }

  /** A document that reaches a cycle of definitions compiles under no recursion limit. */
  lemma {:induction false} CyclicNeverCompiles(limit: nat, defs: Json, v: Json, cycle: seq<string>, at: nat)
    requires at < |cycle| && Refers(v, cycle[at])
    requires forall i :: 0 <= i < |cycle| ==> Refers(Definition(defs, cycle[i]), cycle[(i + 1) % |cycle|])
    ensures !Visit(limit, defs, v).Ok?
    decreases limit
  {
    if Visit(limit, defs, v).Ok? {
      var limit' := SuccessVisitsReferences(limit, defs, v, cycle[at]);
      CyclicNeverCompiles(limit', defs, Definition(defs, cycle[at]), cycle, (at + 1) % |cycle|);
    }
  }

  // ----- which documents are rejected

  /** What one node is rejected for. */
  predicate Bad(e: Error, defs: Json, fs: seq<Field>) {
    match e
    case DynamicDictionary =>
      && !IsRef(fs) && Get(fs, "type") == Some(Str("object"))
      && !Has(fs, "properties") && Get(fs, "additionalProperties") != Some(Bool(false))
    case AttributeError =>
      if IsRef(fs) then !defs.Obj? else Has(fs, "properties") && !Get(fs, "properties").value.Obj?
    case RecursionError => false
  }

  /** A position of `v` that the compiler visits, without following references, is bad. */
  ghost predicate Flawed(e: Error, defs: Json, v: Json)
    decreases v
  {
    match v
    case Arr(items) => exists i :: 0 <= i < |items| && Flawed(e, defs, items[i])
    case Obj(fs) =>
      Bad(e, defs, fs) ||
      (!IsRef(fs) && exists i :: 0 <= i < |fs| && !Dropped(fs[i].key) && FieldFlawed(e, defs, fs[i]))
    case _ => false
  }

  ghost predicate FieldFlawed(e: Error, defs: Json, f: Field)
    decreases f
  {
    if f.key == "properties" && f.value.Obj? then
      exists j :: 0 <= j < |f.value.fields| && Flawed(e, defs, f.value.fields[j].value)
    else
      Flawed(e, defs, f.value)
  }

  /** Following the named references from `v` leads to a flaw. */
  ghost predicate ReachesFlaw(e: Error, defs: Json, v: Json, path: seq<string>)
    decreases |path|
  {
    if path == [] then Flawed(e, defs, v)
    else Refers(v, path[0]) && ReachesFlaw(e, defs, Definition(defs, path[0]), path[1..])
  }

  /** The same from one member of an object. */
  ghost predicate FieldReachesFlaw(e: Error, defs: Json, f: Field, path: seq<string>) {
    if path == [] then FieldFlawed(e, defs, f)
    else FieldRefers(f, path[0]) && ReachesFlaw(e, defs, Definition(defs, path[0]), path[1..])
  }

  /** A visit that succeeds meets no bad position. */
  lemma {:induction false} SuccessIsFlawless(limit: nat, defs: Json, v: Json, e: Error)
    requires Visit(limit, defs, v).Ok?
    ensures !Flawed(e, defs, v)
    decreases limit, 0
  {
    match v
    case Arr(items) =>
      VisitAllAt(limit - 1, defs, items);
      forall i | 0 <= i < |items| ensures !Flawed(e, defs, items[i]) {
        SuccessIsFlawless(limit - 1, defs, items[i], e);
      }
    case Obj(fs) =>
      if !IsRef(fs) {
        SuccessIsGood(limit, defs, fs, e);
        SuccessVisitsMembers(limit, defs, fs);
        forall i | 0 <= i < |fs| && !Dropped(fs[i].key) ensures !FieldFlawed(e, defs, fs[i]) {
          SuccessVisitsField(limit - 1, defs, fs, i);
          SuccessFieldIsFlawless(limit - 1, defs, fs[i], e);
        }
      }
    case _ =>
  }

  lemma SuccessIsGood(limit: nat, defs: Json, fs: seq<Field>, e: Error)
    requires Visit(limit, defs, Obj(fs)).Ok? && !IsRef(fs)
    ensures !Bad(e, defs, fs)
  {
    SuccessCloses(limit, defs, fs);
    ClosedProperties(limit - 1, defs, fs);
  }

  lemma SuccessCloses(limit: nat, defs: Json, fs: seq<Field>)
    requires Visit(limit, defs, Obj(fs)).Ok? && !IsRef(fs)
    ensures limit > 0 && !IsDynamic(fs)
    ensures VisitFields(limit - 1, defs, fs).Ok? && Close(VisitFields(limit - 1, defs, fs).value).Ok?
  {
  }

  lemma ClosedProperties(limit: nat, defs: Json, fs: seq<Field>)
    requires VisitFields(limit, defs, fs).Ok? && Close(VisitFields(limit, defs, fs).value).Ok?
    ensures Has(fs, "properties") ==> Get(fs, "properties").value.Obj?
  {
    VisitFieldsGet(limit, defs, fs, "properties");
  }

  lemma {:induction false} SuccessFieldIsFlawless(limit: nat, defs: Json, f: Field, e: Error)
    requires VisitField(limit, defs, f).Ok?
    ensures !FieldFlawed(e, defs, f)
    decreases limit, 1
  {
    if f.key == "properties" && f.value.Obj? {
      var props := f.value.fields;
      VisitPropertiesAt(limit, defs, props);
      forall j | 0 <= j < |props| ensures !Flawed(e, defs, props[j].value) {
        SuccessIsFlawless(limit, defs, props[j].value, e);
      }
    } else {
      SuccessIsFlawless(limit, defs, f.value, e);
    }
  }

  lemma {:induction false} SuccessReachesNoFlaw(limit: nat, defs: Json, v: Json, e: Error, path: seq<string>)
    requires Visit(limit, defs, v).Ok?
    ensures !ReachesFlaw(e, defs, v, path)
    decreases |path|
  {
    if path == [] {
      SuccessIsFlawless(limit, defs, v, e);
    } else if Refers(v, path[0]) {
      var limit' := SuccessVisitsReferences(limit, defs, v, path[0]);
      SuccessReachesNoFlaw(limit', defs, Definition(defs, path[0]), e, path[1..]);
    }
  }

  // ----- a rejection has a cause

  lemma {:induction false} RejectedItem(limit: nat, defs: Json, items: seq<Json>) returns (i: nat)
    requires VisitAll(limit, defs, items).Err?
    ensures i < |items| && Visit(limit, defs, items[i]) == Err(VisitAll(limit, defs, items).error)
  {
    if Visit(limit, defs, items[0]).Err? {
      i := 0;
    } else {
      var j := RejectedItem(limit, defs, items[1..]);
      i := j + 1;
    }
  }

  lemma {:induction false} RejectedProperty(limit: nat, defs: Json, fs: seq<Field>) returns (i: nat)
    requires VisitProperties(limit, defs, fs).Err?
    ensures i < |fs| && Visit(limit, defs, fs[i].value) == Err(VisitProperties(limit, defs, fs).error)
  {
    if Visit(limit, defs, fs[0].value).Err? {
      i := 0;
    } else {
      var j := RejectedProperty(limit, defs, fs[1..]);
      i := j + 1;
    }
  }

  lemma {:induction false} RejectedField(limit: nat, defs: Json, fs: seq<Field>) returns (i: nat)
    requires VisitFields(limit, defs, fs).Err?
    ensures i < |fs| && !Dropped(fs[i].key) && VisitField(limit, defs, fs[i]) == Err(VisitFields(limit, defs, fs).error)
  {
    if !Dropped(fs[0].key) && VisitField(limit, defs, fs[0]).Err? {
      i := 0;
    } else {
      var j := RejectedField(limit, defs, fs[1..]);
      i := j + 1;
    }
  }

  /** Closing fails exactly on `properties` that are no object. */
  lemma CloseRejects(limit: nat, defs: Json, fs: seq<Field>)
    requires VisitFields(limit, defs, fs).Ok? && Close(VisitFields(limit, defs, fs).value).Err? && !IsRef(fs)
    ensures Bad(AttributeError, defs, fs) && Close(VisitFields(limit, defs, fs).value) == Err(AttributeError)
  {
    VisitFieldsGet(limit, defs, fs, "properties");
  }

  /** A flaw below an element, a property or a member is a flaw of the whole. */
  lemma ItemReaches(e: Error, defs: Json, items: seq<Json>, i: nat, path: seq<string>)
    requires i < |items| && ReachesFlaw(e, defs, items[i], path)
    ensures ReachesFlaw(e, defs, Arr(items), path)
  {
  }

  lemma PropertyReaches(e: Error, defs: Json, f: Field, j: nat, path: seq<string>)
    requires f.key == "properties" && f.value.Obj? && j < |f.value.fields|
    requires ReachesFlaw(e, defs, f.value.fields[j].value, path)
    ensures FieldReachesFlaw(e, defs, f, path)
  {
  }

  lemma FieldReaches(e: Error, defs: Json, fs: seq<Field>, i: nat, path: seq<string>)
    requires !IsRef(fs) && i < |fs| && !Dropped(fs[i].key) && FieldReachesFlaw(e, defs, fs[i], path)
    ensures ReachesFlaw(e, defs, Obj(fs), path)
  {
  }

  lemma RefReaches(e: Error, defs: Json, fs: seq<Field>, path: seq<string>)
    requires IsRef(fs) && ReachesFlaw(e, defs, Definition(defs, RefName(fs)), path)
    ensures ReachesFlaw(e, defs, Obj(fs), [RefName(fs)] + path)
  {
    assert ([RefName(fs)] + path)[1..] == path;
  }

  lemma {:induction false} RejectionReachesFlaw(limit: nat, defs: Json, v: Json) returns (path: seq<string>)
    requires Visit(limit, defs, v).Err? && Visit(limit, defs, v).error != RecursionError
    ensures ReachesFlaw(Visit(limit, defs, v).error, defs, v, path)
    decreases limit, 0
  {
    var e := Visit(limit, defs, v).error;
    match v
    case Arr(items) =>
      var i := RejectedItem(limit - 1, defs, items);
      path := RejectionReachesFlaw(limit - 1, defs, items[i]);
      ItemReaches(e, defs, items, i, path);
    case Obj(fs) =>
      if IsRef(fs) && defs.Obj? {
        var rest := RejectionReachesFlaw(limit - 1, defs, Definition(defs, RefName(fs)));
        path := [RefName(fs)] + rest;
        RefReaches(e, defs, fs, rest);
      } else if IsRef(fs) || IsDynamic(fs) {
        path := [];
      } else if VisitFields(limit - 1, defs, fs).Err? {
        var i := RejectedField(limit - 1, defs, fs);
        path := FieldRejectionReachesFlaw(limit - 1, defs, fs[i]);
        FieldReaches(e, defs, fs, i, path);
      } else {
        CloseRejects(limit - 1, defs, fs);
        path := [];
      }
  }

  lemma {:induction false} FieldRejectionReachesFlaw(limit: nat, defs: Json, f: Field) returns (path: seq<string>)
    requires VisitField(limit, defs, f).Err? && VisitField(limit, defs, f).error != RecursionError
    ensures FieldReachesFlaw(VisitField(limit, defs, f).error, defs, f, path)
    decreases limit, 1
  {
    if f.key == "properties" && f.value.Obj? {
      var j := RejectedProperty(limit, defs, f.value.fields);
      path := RejectionReachesFlaw(limit, defs, f.value.fields[j].value);
      PropertyReaches(VisitField(limit, defs, f).error, defs, f, j, path);
    } else {
      path := RejectionReachesFlaw(limit, defs, f.value);
    }
  }

  ghost predicate HasFlaw(e: Error, defs: Json, v: Json) { exists path :: ReachesFlaw(e, defs, v, path) }

  /**
   With a limit that covers the document, compilation succeeds exactly when no position it
   reaches, through references included, is a dynamic dictionary, has `properties` that are no
   object or refers into definitions that are no object; a rejection names a flaw it has.
   */
  lemma CompileSucceedsIff(limit: nat, schema: Json, rank: Rank, r: nat)
    requires schema.Obj? && Acyclic(DefinitionsOf(schema), rank)
    requires forall name :: Refers(schema, name) ==> Below(rank, r, name)
    requires limit >= Height(schema) + Headroom(r, DefinitionsOf(schema))
    ensures var defs := DefinitionsOf(schema);
      && (Compile(limit, schema).Ok? <==>
            !HasFlaw(DynamicDictionary, defs, schema) && !HasFlaw(AttributeError, defs, schema))
      && (Compile(limit, schema).Err? ==> HasFlaw(Compile(limit, schema).error, defs, schema))
  {
    var defs := DefinitionsOf(schema);
    CompileTerminates(limit, schema, rank, r);
    if Compile(limit, schema).Ok? {
      forall e, path ensures !ReachesFlaw(e, defs, schema, path) {
        SuccessReachesNoFlaw(limit, defs, schema, e, path);
      }
    } else {
      var path := RejectionReachesFlaw(limit, defs, schema);
    }
  }

  // ----- documents that compile under some limit

  ghost predicate Compilable(schema: Json)
    requires schema.Obj?
  {
    exists limit: nat :: Compile(limit, schema).Ok?
  }

  ghost predicate VisitsWithin(defs: Json, name: string, limit: nat) { Visit(limit, defs, Definition(defs, name)).Ok? }

  lemma {:induction false} LeastLimit(defs: Json, name: string, limit: nat) returns (least: nat)
    requires VisitsWithin(defs, name, limit)
    ensures least <= limit && IsLeastLimit(defs, name, least)
  {
    if l: nat :| l < limit && VisitsWithin(defs, name, l) {
      least := LeastLimit(defs, name, l);
    } else {
      least := limit;
    }
  }

  lemma LeastLimitExists(defs: Json, name: string)
    requires exists limit: nat :: VisitsWithin(defs, name, limit)
    ensures exists least: nat :: IsLeastLimit(defs, name, least)
  {
    var limit: nat :| VisitsWithin(defs, name, limit);
    var least := LeastLimit(defs, name, limit);
    assert IsLeastLimit(defs, name, least);
  }

  ghost predicate IsLeastLimit(defs: Json, name: string, least: nat) {
    VisitsWithin(defs, name, least) && forall l: nat :: l < least ==> !VisitsWithin(defs, name, l)
  }

  /** The least limit at which the definition compiles, if there is one. */
  ghost function LimitRank(defs: Json, name: string): (r: Option<nat>)
    ensures r.Some? <==> exists limit: nat :: VisitsWithin(defs, name, limit)
    ensures r.Some? ==> IsLeastLimit(defs, name, r.value)
  {
    if exists limit: nat :: VisitsWithin(defs, name, limit) then
      LeastLimitExists(defs, name);
      var least: nat :| IsLeastLimit(defs, name, least);
      Some(least)
    else None
  }

  /** What a success refers to is ranked below its limit. */
  lemma SuccessRanks(limit: nat, defs: Json, v: Json, rank: Rank, name: string)
    requires Visit(limit, defs, v).Ok? && Refers(v, name) && forall d :: rank(d) == LimitRank(defs, d)
    ensures Below(rank, limit, name)
  {
    var limit' := SuccessVisitsReferences(limit, defs, v, name);
    assert VisitsWithin(defs, name, limit') && rank(name) == LimitRank(defs, name);
  }

  /** The reachable references can be ranked. */
  ghost predicate Rankable(schema: Json)
    requires schema.Obj?
  {
    exists rank: Rank, r: nat :: Ranked(schema, rank, r)
  }

  ghost predicate Ranked(schema: Json, rank: Rank, r: nat)
    requires schema.Obj?
  {
    Acyclic(DefinitionsOf(schema), rank) && forall name :: Refers(schema, name) ==> Below(rank, r, name)
  }

  lemma CompilableIsRanked(limit: nat, schema: Json)
    requires schema.Obj? && Compile(limit, schema).Ok?
    ensures Rankable(schema)
  {
    var defs := DefinitionsOf(schema);
    var rank: Rank := name => LimitRank(defs, name);
    forall d, name | rank(d).Some? && Refers(Definition(defs, d), name) ensures Below(rank, rank(d).value, name) {
      SuccessRanks(rank(d).value, defs, Definition(defs, d), rank, name);
    }
    forall name | Refers(schema, name) ensures Below(rank, limit, name) {
      SuccessRanks(limit, defs, schema, rank, name);
    }
    assert Ranked(schema, rank, limit);
  }

  /**
   Some limit compiles a document if and only if its reachable references can be ranked, so that
   none leads into a cycle, and no flaw is reachable.
   */
  lemma CompilableIff(schema: Json)
    requires schema.Obj?
    ensures Compilable(schema) <==>
      && Rankable(schema)
      && !HasFlaw(DynamicDictionary, DefinitionsOf(schema), schema)
      && !HasFlaw(AttributeError, DefinitionsOf(schema), schema)
  {
    var defs := DefinitionsOf(schema);
    if Compilable(schema) {
      var limit: nat :| Compile(limit, schema).Ok?;
      CompilableIsRanked(limit, schema);
      forall e, path ensures !ReachesFlaw(e, defs, schema, path) {
        SuccessReachesNoFlaw(limit, defs, schema, e, path);
      }
    }
    if Rankable(schema) {
      var rank: Rank, r: nat :| Ranked(schema, rank, r);
      CompileSucceedsIff(Height(schema) + Headroom(r, defs), schema, rank, r);
    }
  }
}
