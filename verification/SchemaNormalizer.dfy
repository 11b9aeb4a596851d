/**
  The schema normaliser of the capability build scripts, and what it keeps.

  `Normalized` is the specification of the in-place rewrite, `NormalizeSchema` the rewrite with
  its loops, and `Accepts` an independent evaluator for the JSON Schema 2020-12 keywords the
  repository's schemas use. The theorem relates the two: a rewritten document accepts exactly
  the values the original accepts.
 */
module SchemaNormalizer {
  import opened Json

  // ---- The rewrite ------------------------------------------------------------------------

  /** `additionalProperties: true` beside an empty `properties` object. */
  predicate OpenAndEmpty(fields: map<string, Json>) {
    && "additionalProperties" in fields && fields["additionalProperties"] == Bool(true)
    && "properties" in fields && fields["properties"] == Obj(map[])
  }

  /** An `enum` of strings only beside `type: "string"`. */
  predicate RedundantStringType(fields: map<string, Json>) {
    && "enum" in fields && fields["enum"].Arr?
    && (forall i | 0 <= i < |fields["enum"].items| :: fields["enum"].items[i].Str?)
    && "type" in fields && fields["type"] == Str("string")
  }

  function DropProperties(fields: map<string, Json>): map<string, Json> {
    if OpenAndEmpty(fields) then fields - {"properties"} else fields
  }

  function DropStringType(fields: map<string, Json>): map<string, Json> {
    if RedundantStringType(fields) then fields - {"type"} else fields
  }

  function Simplified(fields: map<string, Json>): map<string, Json> {
    DropStringType(DropProperties(fields))
  }

  /** The members of an object, each rewritten; the object itself not yet simplified. */
  function Members(value: Json): map<string, Json>
    requires value.Obj?
    decreases value, 0
  {
    map k | k in value.fields :: Normalized(value.fields[k])
  }

  function Normalized(value: Json): Json
    decreases value, 1
  {
    match value
    case Obj(_) => Obj(Simplified(Members(value)))
    case Arr(items) => Arr(seq(|items|, i requires 0 <= i < |items| => Normalized(items[i])))
    case _ => value
  }

  /** The rewrite as the build script runs it: children first, one by one, then the two removals. */
  method NormalizeSchema(value: Json) returns (r: Json)
    ensures r == Normalized(value)
    decreases value
  {
    match value
    case Obj(fields) =>
      var done: map<string, Json> := map[];
      var pending := fields.Keys;
      while pending != {}
        invariant pending <= fields.Keys
        invariant done.Keys == fields.Keys - pending
        invariant forall k | k in done :: done[k] == Normalized(fields[k])
        decreases pending
      {
        var k :| k in pending;
        var child := NormalizeSchema(fields[k]);
        done, pending := done[k := child], pending - {k};
      }
      assert done == Members(value);
      if OpenAndEmpty(done) {
        done := done - {"properties"};
      }
      if RedundantStringType(done) {
        done := done - {"type"};
      }
      r := Obj(done);
    case Arr(items) =>
      var done: seq<Json> := [];
      for i := 0 to |items|
        invariant |done| == i
        invariant forall j | 0 <= j < i :: done[j] == Normalized(items[j])
      {
        var child := NormalizeSchema(items[i]);
        done := done + [child];
      }
      assert done == Normalized(value).items;
      r := Arr(done);
    case _ =>
      r := value;
  }

  // ---- A second run changes nothing -------------------------------------------------------

  lemma {:induction false} NormalizedTwice(value: Json)
    ensures Normalized(Normalized(value)) == Normalized(value)
  {
    match value
    case Obj(fields) =>
      forall k | k in fields ensures Normalized(Normalized(fields[k])) == Normalized(fields[k]) {
        NormalizedTwice(fields[k]);
      }
      var kept := Simplified(Members(value));
      assert Members(Obj(kept)) == kept;
      assert Simplified(kept) == kept;
    case Arr(items) =>
      forall i | 0 <= i < |items| ensures Normalized(Normalized(items[i])) == Normalized(items[i]) {
        NormalizedTwice(items[i]);
      }
      assert Normalized(Normalized(value)).items == Normalized(value).items;
    case _ =>
  }

  /** `additionalProperties: true` beside `properties: {}`, in so many words. */
  lemma {:induction false} OpenAndEmptyIff(fields: map<string, Json>)
    ensures OpenAndEmpty(fields) <==>
      && "additionalProperties" in fields && fields["additionalProperties"] == Bool(true)
      && "properties" in fields && fields["properties"].Obj? && fields["properties"].fields == map[]
  {
  }

  /**
    What a rewrite leaves of an object, told from the object as it was: an empty `properties` goes
    beside `additionalProperties: true`, `type: "string"` goes beside an `enum` of strings only, and
    every other member stays, itself rewritten.
   */
  lemma {:induction false} RemovedIff(fields: map<string, Json>, k: string)
    requires k in fields
    ensures Normalized(Obj(fields)).Obj?
    ensures k !in Normalized(Obj(fields)).fields <==>
      || (k == "properties" && fields[k] == Obj(map[])
          && "additionalProperties" in fields && fields["additionalProperties"] == Bool(true))
      || (k == "type" && fields[k] == Str("string") && "enum" in fields && fields["enum"].Arr?
          && forall i | 0 <= i < |fields["enum"].items| :: fields["enum"].items[i].Str?)
    ensures k in Normalized(Obj(fields)).fields ==> Normalized(Obj(fields)).fields[k] == Normalized(fields[k])
    ensures Normalized(Obj(fields)).fields.Keys <= fields.Keys
  {
    var once := Members(Obj(fields));
    assert Normalized(Obj(fields)) == Obj(Simplified(once)) && once.Keys == fields.Keys;
    assert forall j | j in fields :: once[j] == Normalized(fields[j]);
    if "additionalProperties" in fields {
      ScalarsKept(fields["additionalProperties"], Bool(true));
    }
    if "type" in fields {
      ScalarsKept(fields["type"], Str("string"));
    }
    if "properties" in fields {
      EmptyOnlyFromEmpty(fields["properties"]);
    }
    if "enum" in fields {
      StringsKept(fields["enum"]);
    }
  }

  lemma {:induction false} ScalarsKept(value: Json, scalar: Json)
    requires !scalar.Obj? && !scalar.Arr?
    ensures Normalized(value) == scalar <==> value == scalar
  {
  }

  /** A list holds only strings after the rewrite exactly when it did before. */
  lemma {:induction false} StringsKept(value: Json)
    ensures Normalized(value).Arr? <==> value.Arr?
    ensures value.Arr? ==>
      && |Normalized(value).items| == |value.items|
      && forall i | 0 <= i < |value.items| :: Normalized(value).items[i].Str? <==> value.items[i].Str?
  {
    if value.Arr? {
      forall i | 0 <= i < |value.items| ensures Normalized(value).items[i].Str? <==> value.items[i].Str? {
        assert Normalized(value).items[i] == Normalized(value.items[i]);
      }
    }
  }

  /** A list is rewritten item by item, and every other value stays as it is. */
  lemma {:induction false} OthersRewritten(value: Json)
    requires !value.Obj?
    ensures value.Arr? ==>
      && Normalized(value).Arr? && |Normalized(value).items| == |value.items|
      && forall i | 0 <= i < |value.items| :: Normalized(value).items[i] == Normalized(value.items[i])
    ensures !value.Arr? ==> Normalized(value) == value
  {
  }

  /** A value with nothing to remove, at any depth. */
  predicate Plain(value: Json) {
    match value
    case Obj(fields) =>
      !OpenAndEmpty(fields) && !RedundantStringType(fields) && forall k | k in fields :: Plain(fields[k])
    case Arr(items) => forall i | 0 <= i < |items| :: Plain(items[i])
    case _ => true
  }

  /** The rewrite leaves a value alone exactly when it has nothing to remove. */
  lemma {:induction false} KeptIffPlain(value: Json)
    ensures Normalized(value) == value <==> Plain(value)
  {
    match value
    case Obj(fields) =>
      forall k | k in fields ensures Normalized(fields[k]) == fields[k] <==> Plain(fields[k]) {
        KeptIffPlain(fields[k]);
      }
      if Normalized(value) == value {
        SimplifiedKeepsKeys(Members(value));
        assert forall k | k in fields :: fields[k] == Normalized(fields[k]);
      }
      if Plain(value) {
        assert Members(value) == fields;
      }
    case Arr(items) =>
      forall i | 0 <= i < |items| ensures Normalized(items[i]) == items[i] <==> Plain(items[i]) {
        KeptIffPlain(items[i]);
      }
      if Normalized(value) == value {
        assert forall i | 0 <= i < |items| :: Normalized(value).items[i] == Normalized(items[i]);
      }
      if Plain(value) {
        assert Normalized(value).items == items;
      }
    case _ =>
  }

  lemma {:induction false} SimplifiedKeepsKeys(fields: map<string, Json>)
    ensures Simplified(fields).Keys == fields.Keys <==> !OpenAndEmpty(fields) && !RedundantStringType(fields)
    ensures Simplified(fields).Keys == fields.Keys ==> Simplified(fields) == fields
  {
    assert OpenAndEmpty(fields) ==> "properties" in fields && "properties" !in Simplified(fields);
    assert RedundantStringType(fields) ==> "type" in fields && "type" !in Simplified(fields);
  }

  // ---- What a schema accepts --------------------------------------------------------------

  predicate TypeNamed(name: string, v: Json) {
    match name
    case "null" => v.Null?
    case "boolean" => v.Bool?
    case "string" => v.Str?
    case "array" => v.Arr?
    case "object" => v.Obj?
    case "number" => v.Num?
    case "integer" => v.Num? && v.number.Floor as real == v.number
    case _ => false
  }

  /** Keywords that look at the value alone: section 6 of JSON Schema Validation 2020-12. */
  predicate AssertionsHold(f: map<string, Json>, v: Json) {
    && ("type" in f ==> TypeHolds(f["type"], v))
    && ("enum" in f ==> f["enum"].Arr? && v in f["enum"].items)
    && ("const" in f ==> v == f["const"])
    && ("required" in f ==> RequiredHolds(f["required"], v))
    && ("minimum" in f && v.Num? ==> f["minimum"].Num? && f["minimum"].number <= v.number)
    && ("maximum" in f && v.Num? ==> f["maximum"].Num? && v.number <= f["maximum"].number)
  }

  predicate TypeHolds(t: Json, v: Json) {
    match t
    case Str(name) => TypeNamed(name, v)
    case Arr(names) => exists i | 0 <= i < |names| :: names[i].Str? && TypeNamed(names[i].text, v)
    case _ => false
  }

  predicate RequiredHolds(r: Json, v: Json) {
    v.Obj? ==> r.Arr? && forall i | 0 <= i < |r.items| :: r.items[i].Str? && r.items[i].text in v.fields
  }

  /** The schema a local reference `#/$defs/<name>` names in its document. */
  function Definition(root: Json, name: Json): Json {
    if && name.Str? && |name.text| > 8 && name.text[..8] == "#/$defs/"
       && root.Obj? && "$defs" in root.fields && root.fields["$defs"].Obj?
       && name.text[8..] in root.fields["$defs"].fields
    then root.fields["$defs"].fields[name.text[8..]]
    else Bool(false)
  }

  /**
    Section 10 of JSON Schema Core 2020-12 over the keywords the schemas use. `depth` bounds how
    many references are followed, so recursive definitions have a meaning at every depth.
   */
  ghost predicate Accepts(root: Json, schema: Json, v: Json, depth: nat)
    decreases depth, schema, 3
  {
    match schema
    case Bool(b) => b
    case Obj(f) => AssertionsHold(f, v) && InsideHolds(root, schema, v, depth) && InPlaceHolds(root, schema, v, depth)
    case _ => false
  }

  /** Section 10.3: keywords for a value's own members and items. */
  ghost predicate InsideHolds(root: Json, schema: Json, v: Json, depth: nat)
    requires schema.Obj?
    decreases depth, schema, 2
  {
    match schema
    case Obj(f) =>
      && ("properties" in f ==> ListedHold(root, f["properties"], v, depth))
      && ("additionalProperties" in f ==> ExtrasHold(root, f["additionalProperties"], ListedNames(f), v, depth))
      && ("items" in f ==> ItemsHold(root, f["items"], v, depth))
  }

  /** Section 10.2, and references: keywords that apply schemas to the value itself. */
  ghost predicate InPlaceHolds(root: Json, schema: Json, v: Json, depth: nat)
    requires schema.Obj?
    decreases depth, schema, 2
  {
    match schema
    case Obj(f) =>
      && ("allOf" in f ==> false !in Answers(root, f["allOf"], v, depth))
      && ("anyOf" in f ==> true in Answers(root, f["anyOf"], v, depth))
      && ("oneOf" in f ==> ExactlyOne(Answers(root, f["oneOf"], v, depth)))
      && ("not" in f ==> !Accepts(root, f["not"], v, depth))
      && ("$ref" in f ==> depth > 0 && Accepts(root, Definition(root, f["$ref"]), v, depth - 1))
  }

  function ListedNames(f: map<string, Json>): set<string> {
    if "properties" in f && f["properties"].Obj? then f["properties"].fields.Keys else {}
  }

  ghost predicate ListedHold(root: Json, listed: Json, v: Json, depth: nat)
    decreases depth, listed, 4
  {
    v.Obj? && listed.Obj? ==>
      forall k | k in v.fields && k in listed.fields :: Accepts(root, listed.fields[k], v.fields[k], depth)
  }

  ghost predicate ExtrasHold(root: Json, extra: Json, names: set<string>, v: Json, depth: nat)
    decreases depth, extra, 4
  {
    v.Obj? ==> forall k | k in v.fields && k !in names :: Accepts(root, extra, v.fields[k], depth)
  }

  ghost predicate ItemsHold(root: Json, item: Json, v: Json, depth: nat)
    decreases depth, item, 4
  {
    v.Arr? ==> forall i | 0 <= i < |v.items| :: Accepts(root, item, v.items[i], depth)
  }

  /** The answers of a list of branches, in order. */
  ghost function Answers(root: Json, branches: Json, v: Json, depth: nat): seq<bool>
    decreases depth, branches, 4
  {
    if branches.Arr?
    then seq(|branches.items|, i requires 0 <= i < |branches.items| => Accepts(root, branches.items[i], v, depth))
    else [false]
  }

  ghost predicate ExactlyOne(answers: seq<bool>) {
    exists i | 0 <= i < |answers| :: answers[i] && forall j | 0 <= j < |answers| && j != i :: !answers[j]
  }

  // ---- The rewrite keeps the meaning ------------------------------------------------------

  /**
    Documents the rewrite is meant for: schema positions hold schemas, data positions are data
    the rewrite leaves alone, and no map of names is itself an `additionalProperties: true` /
    empty `properties` pair.
   */
  ghost predicate WellShaped(schema: Json) {
    match schema
    case Bool(_) => true
    case Obj(f) =>
      && ("additionalProperties" in f ==> WellShaped(f["additionalProperties"]))
      && ("items" in f ==> WellShaped(f["items"]))
      && ("not" in f ==> WellShaped(f["not"]))
      && ("allOf" in f ==> f["allOf"].Arr? && forall i | 0 <= i < |f["allOf"].items| :: WellShaped(f["allOf"].items[i]))
      && ("anyOf" in f ==> f["anyOf"].Arr? && forall i | 0 <= i < |f["anyOf"].items| :: WellShaped(f["anyOf"].items[i]))
      && ("oneOf" in f ==> f["oneOf"].Arr? && forall i | 0 <= i < |f["oneOf"].items| :: WellShaped(f["oneOf"].items[i]))
      && ("properties" in f ==>
            && f["properties"].Obj? && !OpenAndEmpty(f["properties"].fields)
            && forall k | k in f["properties"].fields :: WellShaped(f["properties"].fields[k]))
      && ("$defs" in f ==>
            && f["$defs"].Obj? && !OpenAndEmpty(f["$defs"].fields)
            && forall k | k in f["$defs"].fields :: WellShaped(f["$defs"].fields[k]))
      && DataKept(f, "type") && DataKept(f, "enum") && DataKept(f, "const") && DataKept(f, "required")
      && DataKept(f, "minimum") && DataKept(f, "maximum") && DataKept(f, "$ref")
    case _ => false
  }

  /** The data under a keyword has nothing to remove, as no string or list of strings has. */
  ghost predicate DataKept(f: map<string, Json>, keyword: string) {
    keyword in f ==> Plain(f[keyword])
  }

  /** Only the empty object is rewritten to the empty object. */
  lemma {:induction false} EmptyOnlyFromEmpty(value: Json)
    ensures Normalized(value) == Obj(map[]) <==> value == Obj(map[])
  {
    if value.Obj? && value.fields != map[] {
      var k :| k in value.fields;
      var once := Members(value);
      assert k in once;
      assert "additionalProperties" in once ==> "additionalProperties" in Simplified(once);
      assert "enum" in once ==> "enum" in Simplified(once);
    } else if value == Obj(map[]) {
      assert Normalized(value).fields == map[];
    }
  }

  /** Rewriting the members of a map of names leaves its names alone. */
  lemma {:induction false} NamesKept(m: map<string, Json>)
    requires !OpenAndEmpty(m)
    requires forall k | k in m :: WellShaped(m[k])
    ensures Normalized(Obj(m)) == Obj(Members(Obj(m)))
  {
    var once := Members(Obj(m));
    if "properties" in m {
      EmptyOnlyFromEmpty(m["properties"]);
    }
    assert "additionalProperties" in m ==>
      (Normalized(m["additionalProperties"]) == Bool(true) <==> m["additionalProperties"] == Bool(true));
    assert !OpenAndEmpty(once);
    assert "enum" in m ==> !Normalized(m["enum"]).Arr?;
  }

  lemma {:induction false} DefinitionRewritten(root: Json, name: Json)
    requires WellShaped(root)
    ensures WellShaped(Definition(root, name))
    ensures Definition(Normalized(root), name) == Normalized(Definition(root, name))
  {
    if root.Obj? && "$defs" in root.fields {
      NamesKept(root.fields["$defs"].fields);
    }
  }

  lemma {:induction false} InPlaceIgnores(root: Json, f: map<string, Json>, k: string, v: Json, depth: nat)
    requires k == "properties" || k == "type"
    ensures InPlaceHolds(root, Obj(f - {k}), v, depth) == InPlaceHolds(root, Obj(f), v, depth)
  {
  }

  /** Dropping an empty `properties` beside `additionalProperties: true` changes no answer. */
  lemma {:induction false} PropertiesRedundant(root: Json, f: map<string, Json>, v: Json, depth: nat)
    ensures Accepts(root, Obj(DropProperties(f)), v, depth) == Accepts(root, Obj(f), v, depth)
  {
    if OpenAndEmpty(f) {
      InPlaceIgnores(root, f, "properties", v, depth);
      InsideWithoutProperties(root, f, v, depth);
      assert AssertionsHold(f - {"properties"}, v) == AssertionsHold(f, v);
    }
  }

  lemma {:induction false} InsideWithoutProperties(root: Json, f: map<string, Json>, v: Json, depth: nat)
    requires OpenAndEmpty(f)
    ensures InsideHolds(root, Obj(f - {"properties"}), v, depth) == InsideHolds(root, Obj(f), v, depth)
  {
    assert ListedHold(root, f["properties"], v, depth);
    assert ListedNames(f - {"properties"}) == ListedNames(f);
  }

  /** Dropping `type: "string"` beside an `enum` of strings changes no answer. */
  lemma {:induction false} TypeRedundant(root: Json, f: map<string, Json>, v: Json, depth: nat)
    ensures Accepts(root, Obj(DropStringType(f)), v, depth) == Accepts(root, Obj(f), v, depth)
  {
    if RedundantStringType(f) {
      InPlaceIgnores(root, f, "type", v, depth);
      InsideWithoutType(root, f, v, depth);
      assert AssertionsHold(f - {"type"}, v) == AssertionsHold(f, v);
    }
  }

  lemma {:induction false} InsideWithoutType(root: Json, f: map<string, Json>, v: Json, depth: nat)
    ensures InsideHolds(root, Obj(f - {"type"}), v, depth) == InsideHolds(root, Obj(f), v, depth)
  {
    assert ListedNames(f - {"type"}) == ListedNames(f);
  }

  lemma {:induction false} AssertionsRewritten(f: map<string, Json>, v: Json)
    requires WellShaped(Obj(f))
    ensures AssertionsHold(Members(Obj(f)), v) == AssertionsHold(f, v)
  {
    forall k | k in f { KeptIffPlain(f[k]); }
  }

  lemma {:induction false} ListedRewritten(root: Json, listed: Json, v: Json, depth: nat)
    requires WellShaped(root) && listed.Obj? && !OpenAndEmpty(listed.fields)
    requires forall k | k in listed.fields :: WellShaped(listed.fields[k])
    ensures Normalized(listed).Obj? && Normalized(listed).fields.Keys == listed.fields.Keys
    ensures ListedHold(Normalized(root), Normalized(listed), v, depth) == ListedHold(root, listed, v, depth)
    decreases depth, listed, 0
  {
    NamesKept(listed.fields);
    forall k | v.Obj? && k in v.fields && k in listed.fields
      ensures Accepts(Normalized(root), Normalized(listed).fields[k], v.fields[k], depth)
           == Accepts(root, listed.fields[k], v.fields[k], depth)
    {
      MeaningKept(root, listed.fields[k], v.fields[k], depth);
    }
  }

  lemma {:induction false} ExtrasRewritten(root: Json, extra: Json, names: set<string>, v: Json, depth: nat)
    requires WellShaped(root) && WellShaped(extra)
    ensures ExtrasHold(Normalized(root), Normalized(extra), names, v, depth) == ExtrasHold(root, extra, names, v, depth)
    decreases depth, extra, 2
  {
    forall k | v.Obj? && k in v.fields
      ensures Accepts(Normalized(root), Normalized(extra), v.fields[k], depth)
           == Accepts(root, extra, v.fields[k], depth)
    {
      MeaningKept(root, extra, v.fields[k], depth);
    }
  }

  lemma {:induction false} ItemsRewritten(root: Json, item: Json, v: Json, depth: nat)
    requires WellShaped(root) && WellShaped(item)
    ensures ItemsHold(Normalized(root), Normalized(item), v, depth) == ItemsHold(root, item, v, depth)
    decreases depth, item, 2
  {
    forall i | v.Arr? && 0 <= i < |v.items|
      ensures Accepts(Normalized(root), Normalized(item), v.items[i], depth) == Accepts(root, item, v.items[i], depth)
    {
      MeaningKept(root, item, v.items[i], depth);
    }
  }

  lemma {:induction false} BranchesRewritten(root: Json, branches: Json, v: Json, depth: nat)
    requires WellShaped(root) && branches.Arr?
    requires forall i | 0 <= i < |branches.items| :: WellShaped(branches.items[i])
    ensures Answers(Normalized(root), Normalized(branches), v, depth) == Answers(root, branches, v, depth)
    decreases depth, branches, 0
  {
    forall i | 0 <= i < |branches.items|
      ensures Accepts(Normalized(root), Normalized(branches).items[i], v, depth)
           == Accepts(root, branches.items[i], v, depth)
    {
      MeaningKept(root, branches.items[i], v, depth);
    }
    assert |Normalized(branches).items| == |branches.items|;
  }

  /** Two objects answer alike on the keywords for a value's own members and items. */
  ghost predicate AgreeInside(r1: Json, g: map<string, Json>, r2: Json, f: map<string, Json>, v: Json, depth: nat)
    requires g.Keys == f.Keys
  {
    && ("properties" in f ==> ListedHold(r1, g["properties"], v, depth) == ListedHold(r2, f["properties"], v, depth))
    && ("additionalProperties" in f ==>
          ExtrasHold(r1, g["additionalProperties"], ListedNames(g), v, depth)
          == ExtrasHold(r2, f["additionalProperties"], ListedNames(f), v, depth))
    && ("items" in f ==> ItemsHold(r1, g["items"], v, depth) == ItemsHold(r2, f["items"], v, depth))
  }

  /** Two objects answer alike on the keywords that apply schemas to the value itself. */
  ghost predicate AgreeInPlace(r1: Json, g: map<string, Json>, r2: Json, f: map<string, Json>, v: Json, depth: nat)
    requires g.Keys == f.Keys
  {
    && ("not" in f ==> Accepts(r1, g["not"], v, depth) == Accepts(r2, f["not"], v, depth))
    && ("allOf" in f ==> Answers(r1, g["allOf"], v, depth) == Answers(r2, f["allOf"], v, depth))
    && ("anyOf" in f ==> Answers(r1, g["anyOf"], v, depth) == Answers(r2, f["anyOf"], v, depth))
    && ("oneOf" in f ==> Answers(r1, g["oneOf"], v, depth) == Answers(r2, f["oneOf"], v, depth))
    && ("$ref" in f && depth > 0 ==>
          Accepts(r1, Definition(r1, g["$ref"]), v, depth - 1) == Accepts(r2, Definition(r2, f["$ref"]), v, depth - 1))
  }

  lemma {:induction false} InsideRewritten(root: Json, f: map<string, Json>, v: Json, depth: nat)
    requires WellShaped(root) && WellShaped(Obj(f))
    ensures AgreeInside(Normalized(root), Members(Obj(f)), root, f, v, depth)
    decreases depth, Obj(f), 0
  {
    if "properties" in f { ListedRewritten(root, f["properties"], v, depth); }
    assert ListedNames(Members(Obj(f))) == ListedNames(f);
    if "additionalProperties" in f { ExtrasRewritten(root, f["additionalProperties"], ListedNames(f), v, depth); }
    if "items" in f { ItemsRewritten(root, f["items"], v, depth); }
  }

  lemma {:induction false} InPlaceRewritten(root: Json, f: map<string, Json>, v: Json, depth: nat)
    requires WellShaped(root) && WellShaped(Obj(f))
    ensures AgreeInPlace(Normalized(root), Members(Obj(f)), root, f, v, depth)
    decreases depth, Obj(f), 0
  {
    if "not" in f { MeaningKept(root, f["not"], v, depth); }
    if "allOf" in f { BranchesRewritten(root, f["allOf"], v, depth); }
    if "anyOf" in f { BranchesRewritten(root, f["anyOf"], v, depth); }
    if "oneOf" in f { BranchesRewritten(root, f["oneOf"], v, depth); }
    if "$ref" in f && depth > 0 { ReferenceRewritten(root, f["$ref"], v, depth); }
  }

  lemma {:induction false} ReferenceRewritten(root: Json, name: Json, v: Json, depth: nat)
    requires WellShaped(root) && Plain(name) && depth > 0
    ensures Accepts(Normalized(root), Definition(Normalized(root), Normalized(name)), v, depth - 1)
         == Accepts(root, Definition(root, name), v, depth - 1)
    decreases depth, name, 0
  {
    KeptIffPlain(name);
    DefinitionRewritten(root, name);
    MeaningKept(root, Definition(root, name), v, depth - 1);
  }

  lemma {:induction false} AgreeingInside(
      r1: Json, g: map<string, Json>, r2: Json, f: map<string, Json>, v: Json, depth: nat)
    requires g.Keys == f.Keys && AgreeInside(r1, g, r2, f, v, depth)
    ensures InsideHolds(r1, Obj(g), v, depth) == InsideHolds(r2, Obj(f), v, depth)
  {
  }

  lemma {:induction false} AgreeingInPlace(
      r1: Json, g: map<string, Json>, r2: Json, f: map<string, Json>, v: Json, depth: nat)
    requires g.Keys == f.Keys && AgreeInPlace(r1, g, r2, f, v, depth)
    ensures InPlaceHolds(r1, Obj(g), v, depth) == InPlaceHolds(r2, Obj(f), v, depth)
  {
  }

  /** A value is accepted after the rewrite exactly when it was accepted before, at every depth. */
  lemma {:induction false} MeaningKept(root: Json, schema: Json, v: Json, depth: nat)
    requires WellShaped(root) && WellShaped(schema)
    ensures Accepts(Normalized(root), Normalized(schema), v, depth) == Accepts(root, schema, v, depth)
    decreases depth, schema, 1
  {
    if schema.Obj? {
      var g := Members(schema);
      AssertionsRewritten(schema.fields, v);
      InsideRewritten(root, schema.fields, v, depth);
      InPlaceRewritten(root, schema.fields, v, depth);
      AgreeingInside(Normalized(root), g, root, schema.fields, v, depth);
      AgreeingInPlace(Normalized(root), g, root, schema.fields, v, depth);
      PropertiesRedundant(Normalized(root), g, v, depth);
      TypeRedundant(Normalized(root), DropProperties(g), v, depth);
      assert Normalized(schema) == Obj(DropStringType(DropProperties(g)));
      assert schema == Obj(schema.fields);
    }
  }

  // ---- The whole document, and why the shape conditions stand -------------------------------

  /** The rewritten document accepts exactly the values the document accepts. */
  ghost predicate SameMeaning(document: Json) {
    forall v, depth ::
      Accepts(Normalized(document), Normalized(document), v, depth) == Accepts(document, document, v, depth)
  }

  lemma {:induction false} DocumentKept(document: Json)
    requires WellShaped(document)
    ensures SameMeaning(document)
  {
    forall v, depth
      ensures Accepts(Normalized(document), Normalized(document), v, depth) == Accepts(document, document, v, depth)
    {
      MeaningKept(document, document, v, depth);
    }
  }

  function ClosedObject(properties: map<string, Json>): Json {
    Obj(map["properties" := Obj(properties), "additionalProperties" := Bool(false)])
  }

  /** A closed object accepts an object whose members it all lists and accepts. */
  lemma {:induction false} ClosedObjectAccepts(root: Json, properties: map<string, Json>, v: Json, depth: nat)
    requires v.Obj?
    ensures Accepts(root, ClosedObject(properties), v, depth) <==>
      forall k | k in v.fields :: k in properties && Accepts(root, properties[k], v.fields[k], depth)
  {
    var s := ClosedObject(properties);
    assert AssertionsHold(s.fields, v) && InPlaceHolds(root, s, v, depth);
    assert InsideHolds(root, s, v, depth) <==>
      ListedHold(root, Obj(properties), v, depth) && ExtrasHold(root, Bool(false), properties.Keys, v, depth);
    assert forall k | k in v.fields :: !Accepts(root, Bool(false), v.fields[k], depth);
  }

  /** A closed object whose names are kept is rewritten name by name. */
  lemma {:induction false} ClosedObjectRewritten(properties: map<string, Json>)
    ensures Normalized(ClosedObject(properties)) == ClosedObject(Normalized(Obj(properties)).fields)
  {
    var s := ClosedObject(properties);
    var once := Members(s);
    assert Normalized(s.fields["additionalProperties"]) == Bool(false);
    assert once["properties"] == Normalized(Obj(properties));
    assert once == ClosedObject(Normalized(Obj(properties)).fields).fields;
    assert Simplified(once) == once;
  }

  /**
    A closed object keeps its meaning exactly when its property names do not form the pair the
    rewrite removes.
   */
  lemma {:induction false} ClosedObjectKeptIff(properties: map<string, Json>)
    requires forall k | k in properties :: WellShaped(properties[k])
    ensures SameMeaning(ClosedObject(properties)) <==> !OpenAndEmpty(properties)
  {
    if OpenAndEmpty(properties) {
      ImitatingNameRejected(properties);
    } else {
      ClosedObjectWellShaped(properties);
      DocumentKept(ClosedObject(properties));
    }
  }

  lemma {:induction false} ClosedObjectWellShaped(properties: map<string, Json>)
    requires !OpenAndEmpty(properties) && forall k | k in properties :: WellShaped(properties[k])
    ensures WellShaped(ClosedObject(properties))
  {
    assert WellShaped(Bool(false));
  }

  /** With imitating names the rewrite loses one: an object with just that member is then rejected. */
  lemma {:induction false} ImitatingNameRejected(properties: map<string, Json>)
    requires OpenAndEmpty(properties)
    ensures
      var s := ClosedObject(properties);
      var v := Obj(map["properties" := Null]);
      Accepts(s, s, v, 0) && !Accepts(Normalized(s), Normalized(s), v, 0)
  {
    var s := ClosedObject(properties);
    var v := Obj(map["properties" := Null]);
    ClosedObjectAccepts(s, properties, v, 0);
    EmptyAcceptsAll(s, Null, 0);
    EmptyOnlyFromEmpty(properties["properties"]);
    assert Normalized(properties["additionalProperties"]) == Bool(true);
    assert OpenAndEmpty(Members(Obj(properties)));
    var rewritten := Normalized(Obj(properties)).fields;
    assert "properties" !in rewritten;
    ClosedObjectRewritten(properties);
    ClosedObjectAccepts(Normalized(s), rewritten, v, 0);
    assert "properties" in v.fields;
  }

  lemma {:induction false} EmptyAcceptsAll(root: Json, v: Json, depth: nat)
    ensures Accepts(root, Obj(map[]), v, depth)
  {
    assert InsideHolds(root, Obj(map[]), v, depth) && InPlaceHolds(root, Obj(map[]), v, depth);
  }

  lemma {:induction false} ConstantAccepts(root: Json, c: Json, v: Json, depth: nat)
    ensures Accepts(root, Obj(map["const" := c]), v, depth) <==> v == c
  {
    var s := Obj(map["const" := c]);
    assert InsideHolds(root, s, v, depth) && InPlaceHolds(root, s, v, depth);
  }

  /** A constant keeps its meaning exactly when its data has nothing to remove. */
  lemma {:induction false} ConstantKeptIff(c: Json)
    ensures SameMeaning(Obj(map["const" := c])) <==> Plain(c)
  {
    KeptIffPlain(c);
    var s := Obj(map["const" := c]);
    var once := Members(s);
    assert once == map["const" := Normalized(c)];
    assert Simplified(once) == once;
    assert Normalized(s) == Obj(map["const" := Normalized(c)]);
    forall v, depth ensures Accepts(s, s, v, depth) <==> v == c {
      ConstantAccepts(s, c, v, depth);
    }
    forall v, depth ensures Accepts(Normalized(s), Normalized(s), v, depth) <==> v == Normalized(c) {
      ConstantAccepts(Normalized(s), Normalized(c), v, depth);
    }
    assert Accepts(s, s, c, 0);
  }

  lemma {:induction false} AnswersOf(root: Json, branches: seq<Json>, v: Json, depth: nat)
    ensures |Answers(root, Arr(branches), v, depth)| == |branches|
    ensures forall i | 0 <= i < |branches| ::
      Answers(root, Arr(branches), v, depth)[i] == Accepts(root, branches[i], v, depth)
  {
  }

  /** The evaluator's lists of branches: all accept. */
  lemma {:induction false} AllOfAccepts(root: Json, branches: seq<Json>, v: Json, depth: nat)
    ensures Accepts(root, Obj(map["allOf" := Arr(branches)]), v, depth) <==>
      forall i | 0 <= i < |branches| :: Accepts(root, branches[i], v, depth)
  {
    var s := Obj(map["allOf" := Arr(branches)]);
    AnswersOf(root, branches, v, depth);
    assert InsideHolds(root, s, v, depth);
    assert InPlaceHolds(root, s, v, depth) <==> false !in Answers(root, Arr(branches), v, depth);
  }

  /** Some branch accepts. */
  lemma {:induction false} AnyOfAccepts(root: Json, branches: seq<Json>, v: Json, depth: nat)
    ensures Accepts(root, Obj(map["anyOf" := Arr(branches)]), v, depth) <==>
      exists i | 0 <= i < |branches| :: Accepts(root, branches[i], v, depth)
  {
    var s := Obj(map["anyOf" := Arr(branches)]);
    AnswersOf(root, branches, v, depth);
    assert InsideHolds(root, s, v, depth);
    assert InPlaceHolds(root, s, v, depth) <==> true in Answers(root, Arr(branches), v, depth);
  }

  /** Exactly one branch accepts. */
  lemma {:induction false} OneOfAccepts(root: Json, branches: seq<Json>, v: Json, depth: nat)
    ensures Accepts(root, Obj(map["oneOf" := Arr(branches)]), v, depth) <==>
      exists i | 0 <= i < |branches| ::
        Accepts(root, branches[i], v, depth)
        && forall j | 0 <= j < |branches| && j != i :: !Accepts(root, branches[j], v, depth)
  {
    var s := Obj(map["oneOf" := Arr(branches)]);
    AnswersOf(root, branches, v, depth);
    assert InsideHolds(root, s, v, depth);
    assert InPlaceHolds(root, s, v, depth) <==> ExactlyOne(Answers(root, Arr(branches), v, depth));
  }

  lemma {:induction false} EnumAccepts(root: Json, items: seq<Json>, v: Json, depth: nat)
    ensures Accepts(root, Obj(map["enum" := Arr(items)]), v, depth) <==> v in items
  {
    var s := Obj(map["enum" := Arr(items)]);
    assert InsideHolds(root, s, v, depth) && InPlaceHolds(root, s, v, depth);
  }

  /** Every item of a rewritten list is plain, so an item that is not can no longer be among them. */
  lemma {:induction false} RewrittenItemsPlain(items: seq<Json>, v: Json)
    requires v in Normalized(Arr(items)).items
    ensures Plain(v)
  {
    var i :| 0 <= i < |items| && v == Normalized(items[i]);
    NormalizedTwice(items[i]);
    KeptIffPlain(v);
  }

  /** An enumeration keeps its meaning exactly when none of its items has anything to remove. */
  lemma {:induction false} EnumKeptIff(items: seq<Json>)
    ensures SameMeaning(Obj(map["enum" := Arr(items)])) <==> Plain(Arr(items))
  {
    var s := Obj(map["enum" := Arr(items)]);
    var rewritten := Normalized(Arr(items)).items;
    var once := Members(s);
    assert once == map["enum" := Arr(rewritten)];
    assert Simplified(once) == once;
    forall v, depth ensures Accepts(s, s, v, depth) <==> v in items {
      EnumAccepts(s, items, v, depth);
    }
    forall v, depth ensures Accepts(Normalized(s), Normalized(s), v, depth) <==> v in rewritten {
      EnumAccepts(Normalized(s), rewritten, v, depth);
    }
    KeptIffPlain(Arr(items));
    if !Plain(Arr(items)) {
      var i :| 0 <= i < |items| && !Plain(items[i]);
      assert Accepts(s, s, items[i], 0);
      if items[i] in rewritten {
        RewrittenItemsPlain(items, items[i]);
      }
    }
  }

  /** A document that is one of its own definitions. */
  function Referring(defs: map<string, Json>, name: string): Json {
    Obj(map["$defs" := Obj(defs), "$ref" := Str("#/$defs/" + name)])
  }

  lemma {:induction false} ReferringAccepts(defs: map<string, Json>, name: string, v: Json)
    requires name != ""
    ensures
      var s := Referring(defs, name);
      Accepts(s, s, v, 1) <==> name in defs && Accepts(s, defs[name], v, 0)
  {
    var s := Referring(defs, name);
    assert ("#/$defs/" + name)[..8] == "#/$defs/" && ("#/$defs/" + name)[8..] == name;
    assert Definition(s, Str("#/$defs/" + name)) == if name in defs then defs[name] else Bool(false);
    assert AssertionsHold(s.fields, v) && InsideHolds(s, s, v, 1);
    assert InPlaceHolds(s, s, v, 1) <==> Accepts(s, Definition(s, s.fields["$ref"]), v, 0);
  }

  lemma {:induction false} ReferringRewritten(defs: map<string, Json>, name: string)
    ensures Normalized(Referring(defs, name)) == Referring(Normalized(Obj(defs)).fields, name)
  {
    var s := Referring(defs, name);
    var once := Members(s);
    assert once["$defs"] == Normalized(Obj(defs)) && Normalized(s.fields["$ref"]) == s.fields["$ref"];
    assert once == Referring(Normalized(Obj(defs)).fields, name).fields;
    assert Simplified(once) == once;
  }

  lemma {:induction false} ReferringWellShaped(defs: map<string, Json>, name: string)
    requires !OpenAndEmpty(defs) && forall k | k in defs :: WellShaped(defs[k])
    ensures WellShaped(Referring(defs, name))
  {
  }

  /**
    The definitions of a document can be referred to as before exactly when their names do not form
    the pair the rewrite removes.
   */
  lemma {:induction false} DefinitionsKeptIff(defs: map<string, Json>)
    requires forall k | k in defs :: WellShaped(defs[k])
    ensures (forall name | name in defs :: SameMeaning(Referring(defs, name))) <==> !OpenAndEmpty(defs)
  {
    if OpenAndEmpty(defs) {
      ImitatingDefinitionLost(defs);
    } else {
      forall name | name in defs ensures SameMeaning(Referring(defs, name)) {
        ReferringWellShaped(defs, name);
        DocumentKept(Referring(defs, name));
      }
    }
  }

  /** With imitating names one definition is lost: what refers to it accepts nothing any more. */
  lemma {:induction false} ImitatingDefinitionLost(defs: map<string, Json>)
    requires OpenAndEmpty(defs)
    ensures
      var s := Referring(defs, "properties");
      Accepts(s, s, Null, 1) && !Accepts(Normalized(s), Normalized(s), Null, 1)
  {
    var s := Referring(defs, "properties");
    ReferringAccepts(defs, "properties", Null);
    EmptyAcceptsAll(s, Null, 0);
    EmptyOnlyFromEmpty(defs["properties"]);
    assert Normalized(defs["additionalProperties"]) == Bool(true);
    assert OpenAndEmpty(Members(Obj(defs)));
    var rewritten := Normalized(Obj(defs)).fields;
    assert "properties" !in rewritten;
    ReferringRewritten(defs, "properties");
    ReferringAccepts(rewritten, "properties", Null);
  }
}
