/**
What a validation report says, read off the JSON of the value and of the schema: which nodes a value reaches, and which
faults are reported at them.
*/
module SchemaMeaning {
  import opened Options
  import opened SchemaValidation

  // ---- Reading JSON ----

  /** The value of the first field of this name. */
  ghost predicate HasField(j: Json, key: string, value: Json) {
    && j.Obj?
    && exists i | 0 <= i < |j.fields| ::
         j.fields[i] == Field(key, value) && forall k | 0 <= k < i :: j.fields[k].key != key
  }

  ghost predicate LacksField(j: Json, key: string) {
    j.Obj? ==> forall i | 0 <= i < |j.fields| :: j.fields[i].key != key
  }

  lemma {:induction false} LookupFinds(fields: seq<Field>, n: nat, key: string)
    requires n <= |fields|
    ensures Lookup(fields, n, key).None? ==> forall i | 0 <= i < n :: fields[i].key != key
    ensures Lookup(fields, n, key).Some? ==>
              exists i | 0 <= i < n ::
                fields[i] == Field(key, Lookup(fields, n, key).value) && forall k | 0 <= k < i :: fields[k].key != key
  {
    if n > 0 {
      LookupFinds(fields, n - 1, key);
    }
  }

  lemma {:induction false} GetReads(j: Json, key: string)
    ensures forall v :: Get(j, key) == Some(v) <==> HasField(j, key, v)
    ensures Get(j, key).None? <==> LacksField(j, key)
  {
    if j.Obj? {
      LookupFinds(j.fields, |j.fields|, key);
    }
  }

  /** A value is accepted for the name of its kind, and any value for a name that is none of these six. */
  ghost predicate IsOfType(value: Json, name: string) {
    || (name != "string" && name != "number" && name != "integer" && name != "boolean" && name != "array"
        && name != "object")
    || (value.Str? && name == "string")
    || (value.Num? && name == "number")
    || (value.Num? && name == "integer" && exists n: int :: IsWhole(value.number, n))
    || (value.Bool? && name == "boolean")
    || (value.Arr? && name == "array")
    || (value.Obj? && name == "object")
  }

  predicate IsWhole(x: real, n: int) {
    x == n as real
  }

  lemma {:induction false} WholeNumbers(x: real)
    ensures x == x.Floor as real <==> exists n: int :: IsWhole(x, n)
  {
    if x == x.Floor as real {
      assert IsWhole(x, x.Floor);
    }
    if n: int :| IsWhole(x, n) {
      assert x.Floor == n;
    }
  }

  /** How a value is described in a message. */
  predicate IsDescribedAs(value: Json, name: string) {
    match value
    case Null => name == "null"
    case Bool(_) => name == "boolean"
    case Num(_) => name == "number"
    case Str(_) => name == "string"
    case Arr(_) => name == "array"
    case Obj(_) => name == "object"
  }

  // ---- One node ----

  /** If there is a list of variants, the value matches one of them. */
  ghost predicate FitsVariants(value: Json, schema: Json) {
    forall variants | HasField(schema, "oneOf", Arr(variants)) ::
      exists i | 0 <= i < |variants| :: MatchesSchema(value, variants[i])
  }

  /** If there is an enumeration, it has the value, which is then no array or object. */
  ghost predicate FitsEnum(value: Json, schema: Json) {
    forall options | HasField(schema, "enum", Arr(options)) :: value in options && !value.Arr? && !value.Obj?
  }

  ghost predicate FitsType(value: Json, schema: Json) {
    forall name | HasField(schema, "type", Str(name)) && name != "" :: IsOfType(value, name)
  }

  ghost predicate Fits(value: Json, schema: Json) {
    FitsVariants(value, schema) && FitsEnum(value, schema) && FitsType(value, schema)
  }

  lemma {:induction false} VariantsRead(value: Json, schema: Json)
    ensures FitsVariants(value, schema) <==> !NoVariantMatches(value, schema)
  {
    GetReads(schema, "oneOf");
    if Variants(schema).Some? {
      assert HasField(schema, "oneOf", Arr(Variants(schema).value));
    }
  }

  lemma {:induction false} EnumReads(value: Json, schema: Json)
    ensures FitsEnum(value, schema) <==> EnumAllows(value, schema)
    ensures forall options ::
              HasField(schema, "enum", Arr(options)) <==> HasEnum(schema) && options == EnumOptions(schema)
  {
    GetReads(schema, "enum");
    if HasEnum(schema) {
      assert HasField(schema, "enum", Arr(EnumOptions(schema)));
    }
  }

  lemma {:induction false} TypeNamesRead(value: Json, name: string)
    ensures MatchesExpectedType(value, name) <==> IsOfType(value, name)
  {
    if value.Num? {
      WholeNumbers(value.number);
    }
  }

  lemma {:induction false} TypeReads(value: Json, schema: Json)
    ensures FitsType(value, schema) <==> TypeAllows(value, schema)
    ensures forall name :: HasField(schema, "type", Str(name)) <==> SchemaType(schema) == Some(name)
  {
    GetReads(schema, "type");
    if SchemaType(schema).Some? {
      assert HasField(schema, "type", Str(SchemaType(schema).value));
      TypeNamesRead(value, SchemaType(schema).value);
    }
  }

  // ---- Findings ----

  datatype Finding = MissingOf(path: Path) | MismatchOf(mismatch: Mismatch) | ExtraOf(path: Path)

  function PathOf(f: Finding): Path {
    match f
    case MissingOf(path) => path
    case ExtraOf(path) => path
    case MismatchOf(NoVariant(path)) => path
    case MismatchOf(NotInEnum(path, _, _)) => path
    case MismatchOf(WrongType(path, _, _)) => path
    case MismatchOf(WrongRoot(_)) => []
  }

  predicate Reports(r: Report, f: Finding) {
    match f
    case MissingOf(path) => path in r.missingRequired
    case MismatchOf(mismatch) => mismatch in r.typeMismatches
    case ExtraOf(path) => path in r.extraFields
  }

  ghost predicate IsObjectType(schema: Json) {
    HasField(schema, "type", Str("object"))
  }

  /** The schema requires the field: its name is one of the texts listed under `required`. */
  ghost predicate Requires(schema: Json, key: string) {
    exists required :: HasField(schema, "required", Arr(required)) && Str(key) in required
  }

  /** There are properties, and the field is none of them. */
  ghost predicate Undeclared(schema: Json, key: string) {
    exists properties :: HasField(schema, "properties", Obj(properties)) && LacksField(Obj(properties), key)
  }

  /** The first of the three that the node does not fit is the mismatch. */
  ghost predicate IsMismatch(value: Json, schema: Json, m: Mismatch) {
    match m
    case NoVariant(_) => !FitsVariants(value, schema)
    case NotInEnum(_, options, received) =>
      && FitsVariants(value, schema) && !FitsEnum(value, schema)
      && HasField(schema, "enum", Arr(options)) && received == value
    case WrongType(_, expected, described) =>
      && FitsVariants(value, schema) && FitsEnum(value, schema) && !FitsType(value, schema)
      && HasField(schema, "type", Str(expected)) && IsDescribedAs(value, described)
    case WrongRoot(_) => false
  }

  /** The finding is one of this very node; `rest` is what its path says beyond the node's. */
  ghost predicate FoundHere(value: Json, schema: Json, rest: Path, f: Finding) {
    match f
    case MismatchOf(m) => rest == [] && IsMismatch(value, schema, m)
    case MissingOf(_) =>
      && Fits(value, schema) && value.Obj? && IsObjectType(schema)
      && |rest| == 1 && rest[0].Key? && Requires(schema, rest[0].name) && LacksField(value, rest[0].name)
    case ExtraOf(_) =>
      && Fits(value, schema) && value.Obj? && IsObjectType(schema)
      && |rest| == 1 && rest[0].Key? && Undeclared(schema, rest[0].name) && !LacksField(value, rest[0].name)
  }

  /** A node that fits leads to the items of an array, and to the declared fields an object has. */
  ghost predicate LeadsTo(value: Json, schema: Json, segment: Segment, inner: Json, innerSchema: Json) {
    match segment
    case Index(i) =>
      && value.Arr? && HasField(schema, "type", Str("array")) && HasField(schema, "items", innerSchema)
      && i < |value.items| && inner == value.items[i]
    case Key(key) =>
      && value.Obj? && IsObjectType(schema) && HasField(value, key, inner)
      && exists properties :: HasField(schema, "properties", Obj(properties)) && Field(key, innerSchema) in properties
  }

  /** The finding is one of the node at the end of the path, or of one its last step is about. */
  ghost predicate FoundAlong(value: Json, schema: Json, path: Path, f: Finding)
    decreases |path|
  {
    && schema.Obj?
    && (FoundHere(value, schema, path, f)
        || (path != [] && Fits(value, schema) && FoundBeyond(value, schema, path, f)))
  }

  ghost predicate FoundBeyond(value: Json, schema: Json, path: Path, f: Finding)
    requires path != []
    decreases |path|, 0
  {
    exists inner, innerSchema ::
      LeadsTo(value, schema, path[0], inner, innerSchema) && FoundAlong(inner, innerSchema, path[1..], f)
  }

  // ---- The report of one node ----

  /** The finding lies at or below the node at `base`, and is of a kind that is reported. */
  ghost predicate FoundFrom(value: Json, schema: Json, base: Path, extras: bool, f: Finding) {
    && (f.ExtraOf? ==> extras) && !IsRootMismatch(f)
    && base <= PathOf(f) && FoundAlong(value, schema, PathOf(f)[|base|..], f)
  }

  predicate IsRootMismatch(f: Finding) {
    f.MismatchOf? && f.mismatch.WrongRoot?
  }

  lemma {:induction false} PlusReports(a: Report, b: Report, f: Finding)
    ensures Reports(Plus(a, b), f) <==> Reports(a, f) || Reports(b, f)
  {
  }

  lemma {:induction false} SingleReports(m: Mismatch, path: Path, f: Finding)
    ensures !Reports(CLEAN, f)
    ensures Reports(Mismatched(m), f) <==> f == MismatchOf(m)
    ensures Reports(Missing(path), f) <==> f == MissingOf(path)
    ensures Reports(Extra(path), f) <==> f == ExtraOf(path)
  {
  }

  lemma {:induction false} StringsAre(items: seq<Json>, key: string)
    ensures key in Strings(items) <==> Str(key) in items
  {
    if items != [] {
      StringsAre(items[..|items| - 1], key);
      assert items == items[..|items| - 1] + [items[|items| - 1]];
    }
  }

  lemma {:induction false} RequiredRead(schema: Json, key: string)
    ensures key in RequiredFields(schema) <==> Requires(schema, key)
  {
    GetReads(schema, "required");
    var required := Get(schema, "required");
    if required.Some? && required.value.Arr? {
      StringsAre(required.value.items, key);
      assert HasField(schema, "required", Arr(required.value.items));
    }
  }

  lemma {:induction false} PropertiesRead(schema: Json)
    ensures forall fields :: HasField(schema, "properties", Obj(fields)) <==> Properties(schema) == Some(Obj(fields))
  {
    GetReads(schema, "properties");
  }

  /** The path is the base and one field name more. */
  ghost predicate OneFieldBelow(base: Path, path: Path) {
    base <= path && |path| == |base| + 1 && path[|base|].Key?
  }

  lemma {:induction false} MissingReports(value: Json, required: seq<string>, base: Path, f: Finding)
    requires value.Obj?
    ensures Reports(MissingReport(value, required, base), f) <==>
            && f.MissingOf? && OneFieldBelow(base, f.path)
            && f.path[|base|].name in required && LacksField(value, f.path[|base|].name)
  {
    SingleReports(NoVariant([]), base, f);
    if required != [] {
      var before, key := required[..|required| - 1], required[|required| - 1];
      assert required == before + [key];
      MissingReports(value, before, base, f);
      GetReads(value, key);
      SingleReports(NoVariant([]), base + [Key(key)], f);
      PlusReports(MissingReport(value, before, base), Missing(base + [Key(key)]), f);
      if f.MissingOf? && OneFieldBelow(base, f.path) {
        assert f.path == base + [f.path[|base|]];
      }
    }
  }

  lemma {:induction false} ExtraReports(fields: seq<Field>, properties: Json, base: Path, f: Finding)
    requires properties.Obj?
    ensures Reports(ExtraReport(fields, properties, base), f) <==>
            && f.ExtraOf? && OneFieldBelow(base, f.path)
            && LacksField(properties, f.path[|base|].name) && HasKey(fields, f.path[|base|].name)
  {
    SingleReports(NoVariant([]), base, f);
    if fields != [] {
      var before, key := fields[..|fields| - 1], fields[|fields| - 1].key;
      ExtraReports(before, properties, base, f);
      GetReads(properties, key);
      SingleReports(NoVariant([]), base + [Key(key)], f);
      PlusReports(ExtraReport(before, properties, base), Extra(base + [Key(key)]), f);
      if f.ExtraOf? && OneFieldBelow(base, f.path) {
        assert f.path == base + [f.path[|base|]];
        SplitLast(fields, f.path[|base|].name);
      }
    }
  }

  ghost predicate HasKey(fields: seq<Field>, key: string) {
    exists i | 0 <= i < |fields| :: fields[i].key == key
  }

  lemma {:induction false} SplitLast(fields: seq<Field>, key: string)
    requires fields != []
    ensures HasKey(fields, key) <==> HasKey(fields[..|fields| - 1], key) || fields[|fields| - 1].key == key
  {
    var before := fields[..|fields| - 1];
    assert forall i | 0 <= i < |before| :: before[i] == fields[i];
    if i :| 0 <= i < |fields| && fields[i].key == key && i < |before| {
      assert before[i].key == key;
    }
  }

  /** Stepping from a node to one it leads to. */
  lemma {:induction false} FoundOneStepOn(value: Json, schema: Json, base: Path, segment: Segment, extras: bool,
                                          f: Finding)
    ensures FoundFrom(value, schema, base + [segment], extras, f) <==>
            && (f.ExtraOf? ==> extras) && !IsRootMismatch(f)
            && base <= PathOf(f) && PathOf(f)[|base|..] != [] && PathOf(f)[|base|..][0] == segment
            && FoundAlong(value, schema, PathOf(f)[|base|..][1..], f)
  {
    var path := PathOf(f);
    if base <= path && |path| > |base| {
      assert path[|base|..][1..] == path[|base| + 1..];
      assert base + [segment] <= path <==> path[|base|] == segment;
    }
  }

  lemma {:induction false} FindingsOfAFittingNode(value: Json, schema: Json, base: Path, extras: bool, f: Finding)
    requires schema.Obj? && Fits(value, schema)
    ensures FoundFrom(value, schema, base, extras, f) <==>
            && (f.ExtraOf? ==> extras) && !IsRootMismatch(f) && base <= PathOf(f)
            && var rest := PathOf(f)[|base|..];
               FoundHere(value, schema, rest, f) || (rest != [] && FoundBeyond(value, schema, rest, f))
  {
  }

  lemma {:induction false} FindingsOfAMisfit(value: Json, schema: Json, base: Path, extras: bool, f: Finding)
    requires schema.Obj? && !Fits(value, schema)
    ensures FoundFrom(value, schema, base, extras, f) <==>
            f.MismatchOf? && PathOf(f) == base && IsMismatch(value, schema, f.mismatch)
  {
    if base <= PathOf(f) && PathOf(f)[|base|..] == [] {
      assert PathOf(f) == base;
    }
  }

  /** The one mismatch of a node that does not fit. */
  lemma {:induction false} MismatchIsReported(value: Json, schema: Json, base: Path, extras: bool, f: Finding)
    requires schema.Obj? && !Fits(value, schema)
    ensures Reports(Validate(value, schema, base, extras), f) <==> FoundFrom(value, schema, base, extras, f)
  {
    FindingsOfAMisfit(value, schema, base, extras, f);
    VariantsRead(value, schema);
    EnumReads(value, schema);
    TypeReads(value, schema);
    var m := MismatchOfNode(value, schema, base);
    SingleReports(m, base, f);
    MismatchIsUnique(value, schema, base, m);
    assert Validate(value, schema, base, extras) == Mismatched(m);
  }

  function MismatchOfNode(value: Json, schema: Json, base: Path): Mismatch
    requires NoVariantMatches(value, schema) || !EnumAllows(value, schema) || !TypeAllows(value, schema)
  {
    if NoVariantMatches(value, schema) then NoVariant(base)
    else if !EnumAllows(value, schema) then NotInEnum(base, EnumOptions(schema), value)
    else WrongType(base, SchemaType(schema).value, DescribeType(value))
  }

  lemma {:induction false} MismatchIsUnique(value: Json, schema: Json, base: Path, m: Mismatch)
    requires !Fits(value, schema)
    requires NoVariantMatches(value, schema) || !EnumAllows(value, schema) || !TypeAllows(value, schema)
    requires m == MismatchOfNode(value, schema, base)
    ensures forall n: Mismatch :: n == m <==> IsMismatch(value, schema, n) && PathOf(MismatchOf(n)) == base
  {
    VariantsRead(value, schema);
    EnumReads(value, schema);
    TypeReads(value, schema);
  }

  lemma {:induction false} TypesDiffer(schema: Json)
    ensures !(HasField(schema, "type", Str("array")) && HasField(schema, "type", Str("object")))
    ensures HasField(schema, "type", Str("array")) <==> SchemaType(schema) == Some("array")
    ensures IsObjectType(schema) <==> SchemaType(schema) == Some("object")
  {
    TypeReads(schema, schema);
    assert "array"[0] != "object"[0];
  }

  /** It holds of some number below n. */
  ghost predicate SomeBelow(n: nat, holds: nat -> bool) {
    exists i: nat :: i < n && holds(i)
  }

  lemma {:induction false} SomeBelowNext(n: nat, holds: nat -> bool)
    requires n > 0
    ensures SomeBelow(n, holds) <==> SomeBelow(n - 1, holds) || holds(n - 1)
  {
  }

  /** Whether something lies at or below a node with this value, schema and path. */
  type Finder = (Json, Json, Path) -> bool

  ghost predicate Finds(found: Finder, extras: bool, f: Finding) {
    forall v, s, b {:trigger FoundFrom(v, s, b, extras, f)} :: found(v, s, b) <==> FoundFrom(v, s, b, extras, f)
  }

  ghost function InItems(items: seq<Json>, schema: Json, base: Path, found: Finder): nat -> bool {
    (i: nat) => i < |items| && found(items[i], schema, base + [Index(i)])
  }

  lemma {:induction false} FindingsOfItems(value: Json, schema: Json, itemSchema: Json, base: Path, extras: bool,
                                           f: Finding, found: Finder)
    requires schema.Obj? && Fits(value, schema) && value.Arr? && Finds(found, extras, f)
    requires HasField(schema, "type", Str("array")) && HasField(schema, "items", itemSchema)
    ensures FoundFrom(value, schema, base, extras, f) <==>
            SomeBelow(|value.items|, InItems(value.items, itemSchema, base, found))
  {
    var holds := InItems(value.items, itemSchema, base, found);
    FindingsOfAFittingNode(value, schema, base, extras, f);
    TypesDiffer(schema);
    GetReads(schema, "items");
    if FoundFrom(value, schema, base, extras, f) {
      var rest := PathOf(f)[|base|..];
      var inner, innerSchema :|
        LeadsTo(value, schema, rest[0], inner, innerSchema) && FoundAlong(inner, innerSchema, rest[1..], f);
      FoundOneStepOn(inner, innerSchema, base, rest[0], extras, f);
      assert holds(rest[0].position);
    }
    if i: nat :| i < |value.items| && holds(i) {
      FoundOneStepOn(value.items[i], itemSchema, base, Index(i), extras, f);
      assert LeadsTo(value, schema, Index(i), value.items[i], itemSchema);
    }
  }

  ghost function InProperties(value: Json, fields: seq<Field>, base: Path, found: Finder): nat -> bool {
    (i: nat) => i < |fields| && Has(value, fields[i].key)
                && found(Get(value, fields[i].key).value, fields[i].value, base + [Key(fields[i].key)])
  }

  lemma {:induction false} PropertyHolds(value: Json, fields: seq<Field>, base: Path, found: Finder, i: nat)
    ensures InProperties(value, fields, base, found)(i) <==>
            && i < |fields| && Has(value, fields[i].key)
            && found(Get(value, fields[i].key).value, fields[i].value, base + [Key(fields[i].key)])
  {
  }

  /** A finding of an object node itself. */
  ghost predicate FoundInObject(value: Json, schema: Json, base: Path, extras: bool, f: Finding) {
    && !f.MismatchOf? && (f.ExtraOf? ==> extras) && OneFieldBelow(base, PathOf(f))
    && var key := PathOf(f)[|base|].name;
       if f.MissingOf? then Requires(schema, key) && LacksField(value, key)
       else Undeclared(schema, key) && !LacksField(value, key)
  }

  lemma {:induction false} FindingsHere(value: Json, schema: Json, base: Path, extras: bool, f: Finding)
    requires Fits(value, schema) && value.Obj? && IsObjectType(schema)
    ensures (f.ExtraOf? ==> extras) && base <= PathOf(f) && FoundHere(value, schema, PathOf(f)[|base|..], f) <==>
            FoundInObject(value, schema, base, extras, f)
  {
  }

  lemma {:induction false} BeyondIsInAProperty(value: Json, schema: Json, base: Path, extras: bool, f: Finding,
                                               found: Finder, fields: seq<Field>)
    requires schema.Obj? && value.Obj? && HasField(schema, "properties", Obj(fields)) && Finds(found, extras, f)
    requires (f.ExtraOf? ==> extras) && !IsRootMismatch(f) && base <= PathOf(f) && PathOf(f)[|base|..] != []
    requires FoundBeyond(value, schema, PathOf(f)[|base|..], f)
    ensures SomeBelow(|fields|, InProperties(value, fields, base, found))
  {
    PropertiesRead(schema);
    var rest := PathOf(f)[|base|..];
    var inner, innerSchema :|
      LeadsTo(value, schema, rest[0], inner, innerSchema) && FoundAlong(inner, innerSchema, rest[1..], f);
    var i: nat :| i < |fields| && fields[i] == Field(rest[0].name, innerSchema);
    GetReads(value, rest[0].name);
    DeclaredHolds(value, base, extras, f, found, fields, i, inner);
  }

  lemma {:induction false} DeclaredHolds(value: Json, base: Path, extras: bool, f: Finding, found: Finder,
                                         fields: seq<Field>, i: nat, inner: Json)
    requires Finds(found, extras, f) && i < |fields| && Get(value, fields[i].key) == Some(inner)
    requires (f.ExtraOf? ==> extras) && !IsRootMismatch(f) && base <= PathOf(f) && PathOf(f)[|base|..] != []
    requires PathOf(f)[|base|..][0] == Key(fields[i].key)
    requires FoundAlong(inner, fields[i].value, PathOf(f)[|base|..][1..], f)
    ensures SomeBelow(|fields|, InProperties(value, fields, base, found))
  {
    FoundOneStepOn(inner, fields[i].value, base, Key(fields[i].key), extras, f);
    PropertyHolds(value, fields, base, found, i);
  }

  lemma {:induction false} InAPropertyIsBeyond(value: Json, schema: Json, base: Path, extras: bool, f: Finding,
                                               found: Finder, fields: seq<Field>)
    requires schema.Obj? && value.Obj? && IsObjectType(schema) && HasField(schema, "properties", Obj(fields))
    requires Finds(found, extras, f) && SomeBelow(|fields|, InProperties(value, fields, base, found))
    ensures (f.ExtraOf? ==> extras) && !IsRootMismatch(f) && base <= PathOf(f) && PathOf(f)[|base|..] != []
    ensures FoundBeyond(value, schema, PathOf(f)[|base|..], f)
  {
    var i: nat :| i < |fields| && InProperties(value, fields, base, found)(i);
    PropertyHolds(value, fields, base, found, i);
    var key := fields[i].key;
    var inner := Get(value, key).value;
    GetReads(value, key);
    FoundOneStepOn(inner, fields[i].value, base, Key(key), extras, f);
    assert Field(key, fields[i].value) in fields;
    assert LeadsTo(value, schema, Key(key), inner, fields[i].value);
  }

  ghost predicate FoundInProperties(value: Json, schema: Json, base: Path, found: Finder) {
    && Properties(schema).Some?
    && var fields := Properties(schema).value.fields;
       SomeBelow(|fields|, InProperties(value, fields, base, found))
  }

  lemma {:induction false} BeyondAnObject(value: Json, schema: Json, base: Path, extras: bool, f: Finding,
                                          found: Finder)
    requires schema.Obj? && value.Obj? && IsObjectType(schema) && Finds(found, extras, f)
    ensures FoundInProperties(value, schema, base, found) <==>
            && (f.ExtraOf? ==> extras) && !IsRootMismatch(f) && base <= PathOf(f)
            && PathOf(f)[|base|..] != [] && FoundBeyond(value, schema, PathOf(f)[|base|..], f)
  {
    PropertiesRead(schema);
    if Properties(schema).Some? {
      var fields := Properties(schema).value.fields;
      assert HasField(schema, "properties", Obj(fields));
      if FoundInProperties(value, schema, base, found) {
        InAPropertyIsBeyond(value, schema, base, extras, f, found, fields);
      } else if && (f.ExtraOf? ==> extras) && !IsRootMismatch(f) && base <= PathOf(f)
                && PathOf(f)[|base|..] != [] && FoundBeyond(value, schema, PathOf(f)[|base|..], f) {
        BeyondIsInAProperty(value, schema, base, extras, f, found, fields);
      }
    }
  }

  lemma {:induction false} FindingsOfAnObject(value: Json, schema: Json, base: Path, extras: bool, f: Finding,
                                              found: Finder)
    requires schema.Obj? && Fits(value, schema) && value.Obj? && IsObjectType(schema) && Finds(found, extras, f)
    ensures FoundFrom(value, schema, base, extras, f) <==>
            FoundInObject(value, schema, base, extras, f) || FoundInProperties(value, schema, base, found)
  {
    FindingsOfAFittingNode(value, schema, base, extras, f);
    FindingsHere(value, schema, base, extras, f);
    BeyondAnObject(value, schema, base, extras, f, found);
  }

  // ---- Whole reports ----

  lemma {:induction false} OneMoreReport(before: Report, last: Report, f: Finding, n: nat, holds: nat -> bool)
    requires n > 0 && (Reports(before, f) <==> SomeBelow(n - 1, holds)) && (Reports(last, f) <==> holds(n - 1))
    ensures Reports(Plus(before, last), f) <==> SomeBelow(n, holds)
  {
    PlusReports(before, last, f);
    SomeBelowNext(n, holds);
  }

  lemma {:induction false} NoneMoreReport(before: Report, f: Finding, n: nat, holds: nat -> bool)
    requires n > 0 && (Reports(before, f) <==> SomeBelow(n - 1, holds)) && !holds(n - 1)
    ensures Reports(before, f) <==> SomeBelow(n, holds)
  {
    SomeBelowNext(n, holds);
  }

  lemma {:induction false} ItemsAreReported(items: seq<Json>, n: nat, schema: Json, base: Path, extras: bool,
                                            f: Finding, found: Finder)
    requires n <= |items| && Finds(found, extras, f)
    ensures Reports(ItemReports(items, n, schema, base, extras), f) <==>
            SomeBelow(n, InItems(items, schema, base, found))
    decreases schema, 3, n
  {
    if n == 0 {
      SingleReports(NoVariant([]), base, f);
    } else {
      ItemsAreReported(items, n - 1, schema, base, extras, f, found);
      NodeIsFound(items[n - 1], schema, base + [Index(n - 1)], extras, f, found);
      OneMoreReport(ItemReports(items, n - 1, schema, base, extras),
                    Validate(items[n - 1], schema, base + [Index(n - 1)], extras), f, n,
                    InItems(items, schema, base, found));
    }
  }

  lemma {:induction false} PropertiesAreReported(value: Json, properties: Json, n: nat, base: Path, extras: bool,
                                                 f: Finding, found: Finder)
    requires properties.Obj? && n <= |properties.fields| && Finds(found, extras, f)
    ensures Reports(PropertyReports(value, properties, n, base, extras), f) <==>
            SomeBelow(n, InProperties(value, properties.fields, base, found))
    decreases properties, 3, n
  {
    if n == 0 {
      SingleReports(NoVariant([]), base, f);
    } else {
      var p := properties.fields[n - 1];
      PropertiesAreReported(value, properties, n - 1, base, extras, f, found);
      var before := PropertyReports(value, properties, n - 1, base, extras);
      if Has(value, p.key) {
        var inner := Get(value, p.key).value;
        NodeIsFound(inner, p.value, base + [Key(p.key)], extras, f, found);
        OneMoreReport(before, Validate(inner, p.value, base + [Key(p.key)], extras), f, n,
                      InProperties(value, properties.fields, base, found));
      } else {
        NoneMoreReport(before, f, n, InProperties(value, properties.fields, base, found));
      }
    }
  }

  lemma {:induction false} NodeIsFound(value: Json, schema: Json, base: Path, extras: bool, f: Finding, found: Finder)
    requires Finds(found, extras, f)
    ensures Reports(Validate(value, schema, base, extras), f) <==> found(value, schema, base)
    decreases schema, 2, 1
  {
    NodesAreReported(value, schema, base, extras, f, found);
  }

  lemma {:induction false} ShallowReports(value: Json, schema: Json, properties: Json, base: Path, extras: bool,
                                          f: Finding)
    requires value.Obj? && (Properties(schema).Some? ==> Properties(schema).value == properties)
    ensures var missing := MissingReport(value, RequiredFields(schema), base);
            var unexpected := if Properties(schema).Some? && extras then ExtraReport(value.fields, properties, base)
                              else CLEAN;
            Reports(Plus(missing, unexpected), f) <==> FoundInObject(value, schema, base, extras, f)
  {
    var missing := MissingReport(value, RequiredFields(schema), base);
    MissingReports(value, RequiredFields(schema), base, f);
    if !f.MismatchOf? && OneFieldBelow(base, f.path) {
      RequiredRead(schema, f.path[|base|].name);
    }
    PropertiesRead(schema);
    SingleReports(NoVariant([]), base, f);
    if Properties(schema).Some? {
      ExtraReports(value.fields, properties, base, f);
      PlusReports(missing, if extras then ExtraReport(value.fields, properties, base) else CLEAN, f);
      assert HasField(schema, "properties", properties);
    } else {
      PlusReports(missing, CLEAN, f);
    }
  }

  lemma {:induction false} ObjectsAreReported(value: Json, schema: Json, base: Path, extras: bool, f: Finding,
                                              found: Finder)
    requires value.Obj? && Finds(found, extras, f)
    ensures Reports(ObjectReport(value, schema, base, extras), f) <==>
            FoundInObject(value, schema, base, extras, f) || FoundInProperties(value, schema, base, found)
    decreases schema, 0
  {
    var missing := MissingReport(value, RequiredFields(schema), base);
    if Properties(schema).Some? {
      var properties := Properties(schema).value;
      ShallowReports(value, schema, properties, base, extras, f);
      var unexpected := if extras then ExtraReport(value.fields, properties, base) else CLEAN;
      PropertiesAreReported(value, properties, |properties.fields|, base, extras, f, found);
      PlusReports(Plus(missing, unexpected), PropertyReports(value, properties, |properties.fields|, base, extras), f);
    } else {
      ShallowReports(value, schema, Null, base, extras, f);
      PlusClean(missing);
    }
  }

  /** The report of a node holds exactly what is found at it and below it. */
  lemma {:induction false} NodesAreReported(value: Json, schema: Json, base: Path, extras: bool, f: Finding,
                                            found: Finder)
    requires Finds(found, extras, f)
    ensures Reports(Validate(value, schema, base, extras), f) <==> FoundFrom(value, schema, base, extras, f)
    decreases schema, 2, 0
  {
    SingleReports(NoVariant([]), base, f);
    if schema.Obj? {
      VariantsRead(value, schema);
      EnumReads(value, schema);
      TypeReads(value, schema);
      if !Fits(value, schema) {
        MismatchIsReported(value, schema, base, extras, f);
      } else if ItemSchema(value, schema).Some? {
        GetReads(schema, "items");
        TypesDiffer(schema);
        FindingsOfItems(value, schema, ItemSchema(value, schema).value, base, extras, f, found);
        ItemsAreReported(value.items, |value.items|, ItemSchema(value, schema).value, base, extras, f, found);
      } else if IsObjectNode(value, schema) {
        TypesDiffer(schema);
        FindingsOfAnObject(value, schema, base, extras, f, found);
        ObjectsAreReported(value, schema, base, extras, f, found);
      } else {
        NothingBelow(value, schema, base, extras, f);
      }
    }
  }

  lemma {:induction false} NothingBelow(value: Json, schema: Json, base: Path, extras: bool, f: Finding)
    requires schema.Obj? && Fits(value, schema)
    requires ItemSchema(value, schema).None? && !IsObjectNode(value, schema)
    ensures !FoundFrom(value, schema, base, extras, f)
  {
    FindingsOfAFittingNode(value, schema, base, extras, f);
    TypesDiffer(schema);
    GetReads(schema, "items");
  }

  ghost function FinderOf(extras: bool, f: Finding): (found: Finder)
    ensures Finds(found, extras, f)
  {
    (v: Json, s: Json, b: Path) => FoundFrom(v, s, b, extras, f)
  }

  /**
  What the whole report says, for every input and schema: each mismatch, missing field and unexpected field that is
  found along some path from the root, and nothing else; but a root that is no object where one is expected is reported
  as just that.
  */
  lemma {:induction false} ReportsAreExact(input: Json, schema: Json, f: Finding)
    ensures Reports(ValidateToolInput(input, schema), f) <==>
            if schema.Obj? && IsObjectType(schema) && !input.Obj? then
              f.MismatchOf? && f.mismatch.WrongRoot? && IsDescribedAs(input, f.mismatch.described)
            else !IsRootMismatch(f) && FoundAlong(input, schema, PathOf(f), f)
  {
    SingleReports(WrongRoot(DescribeType(input)), [], f);
    TypesDiffer(schema);
    if !(schema.Obj? && IsObjectType(schema) && !input.Obj?) {
      NodesAreReported(input, schema, [], true, f, FinderOf(true, f));
      assert PathOf(f)[0..] == PathOf(f);
    }
  }
}
