/**
Validating the input of a tool against its JSON schema: one interpreter says yes or no, the other collects
messages. The two were written separately; this module says how they relate.
*/
module SchemaValidation {
  import opened Options

  /** JSON values; the fields of an object are listed in the order of their insertion. */
  datatype Json =
    | Null
    | Bool(value: bool)
    | Num(number: real)
    | Str(text: string)
    | Arr(items: seq<Json>)
    | Obj(fields: seq<Field>)

  datatype Field = Field(key: string, value: Json)

  datatype Segment = Key(name: string) | Index(position: nat)

  type Path = seq<Segment>

  datatype Mismatch =
    | NoVariant(path: Path)
    | NotInEnum(path: Path, options: seq<Json>, received: Json)
    | WrongType(path: Path, expected: string, described: string)
    | WrongRoot(described: string)

  datatype Error = TypeMismatch(mismatch: Mismatch) | MissingField(path: Path)

  datatype Warning = UnexpectedField(path: Path)

  datatype Report = Report(
    errors: seq<Error>,
    warnings: seq<Warning>,
    missingRequired: seq<Path>,
    typeMismatches: seq<Mismatch>,
    extraFields: seq<Path>)

  const CLEAN := Report([], [], [], [], [])

  function Plus(a: Report, b: Report): Report {
    Report(a.errors + b.errors, a.warnings + b.warnings, a.missingRequired + b.missingRequired,
           a.typeMismatches + b.typeMismatches, a.extraFields + b.extraFields)
  }

  function Mismatched(m: Mismatch): Report {
    Report([TypeMismatch(m)], [], [], [m], [])
  }

  function Missing(path: Path): Report {
    Report([MissingField(path)], [], [path], [], [])
  }

  function Extra(path: Path): Report {
    Report([], [UnexpectedField(path)], [], [], [path])
  }

  // ---- Reading a schema ----

  /** Field lookup; anything but an object has no fields. */
  function Get(j: Json, key: string): (r: Option<Json>)
    ensures r.Some? ==> r.value < j
  {
    if !j.Obj? then None else Lookup(j.fields, |j.fields|, key)
  }

  function Lookup(fields: seq<Field>, n: nat, key: string): (r: Option<Json>)
    requires n <= |fields|
    ensures r.Some? ==> exists i | 0 <= i < n :: r.value == fields[i].value
  {
    if n == 0 then None
    else
      var before := Lookup(fields, n - 1, key);
      if before.Some? then before else if fields[n - 1].key == key then Some(fields[n - 1].value) else None
  }

  predicate Has(j: Json, key: string) {
    Get(j, key).Some?
  }

  function Variants(schema: Json): (r: Option<seq<Json>>)
    ensures r.Some? ==> forall i | 0 <= i < |r.value| :: r.value[i] < schema
  {
    var oneOf := Get(schema, "oneOf");
    if oneOf.Some? && oneOf.value.Arr? then Some(oneOf.value.items) else None
  }

  /** `Object.is` on JSON: scalars by value, while two arrays or objects are never the same one. */
  predicate Identical(a: Json, b: Json) {
    !a.Arr? && !a.Obj? && a == b
  }

  predicate HasEnum(schema: Json) {
    Has(schema, "enum") && Get(schema, "enum").value.Arr?
  }

  function EnumOptions(schema: Json): seq<Json> {
    if HasEnum(schema) then Get(schema, "enum").value.items else []
  }

  predicate EnumAllows(value: Json, schema: Json) {
    HasEnum(schema) ==> exists i | 0 <= i < |EnumOptions(schema)| :: Identical(EnumOptions(schema)[i], value)
  }

  function SchemaType(schema: Json): Option<string> {
    var t := Get(schema, "type");
    if t.Some? && t.value.Str? then Some(t.value.text) else None
  }

  predicate MatchesExpectedType(value: Json, expected: string) {
    if expected == "string" then value.Str?
    else if expected == "number" then value.Num?
    else if expected == "integer" then value.Num? && value.number == value.number.Floor as real
    else if expected == "boolean" then value.Bool?
    else if expected == "array" then value.Arr?
    else if expected == "object" then value.Obj?
    else true
  }

  predicate TypeAllows(value: Json, schema: Json) {
    SchemaType(schema).Some? && SchemaType(schema).value != "" ==> MatchesExpectedType(value, SchemaType(schema).value)
  }

  /** The schema for array items, when it applies to this value. */
  function ItemSchema(value: Json, schema: Json): (r: Option<Json>)
    ensures r.Some? ==> r.value < schema && value.Arr?
  {
    if SchemaType(schema) == Some("array") && value.Arr? then Get(schema, "items") else None
  }

  predicate IsObjectNode(value: Json, schema: Json) {
    SchemaType(schema) == Some("object") && value.Obj?
  }

  function Strings(items: seq<Json>): seq<string> {
    if items == [] then []
    else Strings(items[..|items| - 1]) + if items[|items| - 1].Str? then [items[|items| - 1].text] else []
  }

  function RequiredFields(schema: Json): seq<string> {
    var required := Get(schema, "required");
    if required.Some? && required.value.Arr? then Strings(required.value.items) else []
  }

  predicate HasRequired(value: Json, schema: Json) {
    forall i | 0 <= i < |RequiredFields(schema)| :: Has(value, RequiredFields(schema)[i])
  }

  /** The `properties` object; None when there is none. */
  function Properties(schema: Json): (r: Option<Json>)
    ensures r.Some? ==> r.value < schema && r.value.Obj?
  {
    var p := Get(schema, "properties");
    if p.Some? && p.value.Obj? then p else None
  }

  // ---- The first interpreter: yes or no ----

  /** With `oneOf` nothing else in the node is looked at. */
  predicate MatchesSchema(value: Json, schema: Json)
    decreases schema
  {
    if !schema.Obj? then true
    else if Variants(schema).Some? then
      var variants := Variants(schema).value;
      exists i | 0 <= i < |variants| :: MatchesSchema(value, variants[i])
    else if !EnumAllows(value, schema) || !TypeAllows(value, schema) then false
    else if ItemSchema(value, schema).Some? then
      forall i | 0 <= i < |value.items| :: MatchesSchema(value.items[i], ItemSchema(value, schema).value)
    else if IsObjectNode(value, schema) then
      && HasRequired(value, schema)
      && (Properties(schema).Some? ==>
            var properties := Properties(schema).value.fields;
            forall i | 0 <= i < |properties| && Has(value, properties[i].key) ::
              MatchesSchema(Get(value, properties[i].key).value, properties[i].value))
    else true
  }

  // ---- The second interpreter: all messages ----

  function MissingReport(value: Json, required: seq<string>, path: Path): Report {
    if required == [] then CLEAN
    else
      var before, field := MissingReport(value, required[..|required| - 1], path), required[|required| - 1];
      if Has(value, field) then before else Plus(before, Missing(path + [Key(field)]))
  }

  function ExtraReport(fields: seq<Field>, properties: Json, path: Path): Report {
    if fields == [] then CLEAN
    else
      var before, key := ExtraReport(fields[..|fields| - 1], properties, path), fields[|fields| - 1].key;
      if Has(properties, key) then before else Plus(before, Extra(path + [Key(key)]))
  }

  predicate NoVariantMatches(value: Json, schema: Json) {
    Variants(schema).Some? &&
    forall i | 0 <= i < |Variants(schema).value| :: !MatchesSchema(value, Variants(schema).value[i])
  }

  function DescribeType(value: Json): string {
    match value
    case Null => "null"
    case Bool(_) => "boolean"
    case Num(_) => "number"
    case Str(_) => "string"
    case Arr(_) => "array"
    case Obj(_) => "object"
  }

  /** A failing variant list, enumeration or type ends the work on a node; `oneOf` does not excuse its siblings. */
  function Validate(value: Json, schema: Json, path: Path, extras: bool): Report
    decreases schema, 2
  {
    if !schema.Obj? then CLEAN
    else if NoVariantMatches(value, schema) then Mismatched(NoVariant(path))
    else if !EnumAllows(value, schema) then Mismatched(NotInEnum(path, EnumOptions(schema), value))
    else if !TypeAllows(value, schema) then Mismatched(WrongType(path, SchemaType(schema).value, DescribeType(value)))
    else if ItemSchema(value, schema).Some? then
      ItemReports(value.items, |value.items|, ItemSchema(value, schema).value, path, extras)
    else if IsObjectNode(value, schema) then ObjectReport(value, schema, path, extras)
    else CLEAN
  }

  function ObjectReport(value: Json, schema: Json, path: Path, extras: bool): Report
    requires value.Obj?
    decreases schema, 0
  {
    var missing := MissingReport(value, RequiredFields(schema), path);
    if Properties(schema).None? then missing
    else
      var properties := Properties(schema).value;
      var unexpected := if extras then ExtraReport(value.fields, properties, path) else CLEAN;
      Plus(Plus(missing, unexpected), PropertyReports(value, properties, |properties.fields|, path, extras))
  }

  /** The reports of the first n items, in order. */
  function ItemReports(items: seq<Json>, n: nat, schema: Json, path: Path, extras: bool): Report
    requires n <= |items|
    decreases schema, 3, n
  {
    if n == 0 then CLEAN
    else Plus(ItemReports(items, n - 1, schema, path, extras),
        Validate(items[n - 1], schema, path + [Index(n - 1)], extras))
  }

  /** The reports of the first n properties that the value has, in order. */
  function PropertyReports(value: Json, properties: Json, n: nat, path: Path, extras: bool): Report
    requires properties.Obj? && n <= |properties.fields|
    decreases properties, 3, n
  {
    if n == 0 then CLEAN
    else
      var before, p := PropertyReports(value, properties, n - 1, path, extras), properties.fields[n - 1];
      if !Has(value, p.key) then before
      else Plus(before, Validate(Get(value, p.key).value, p.value, path + [Key(p.key)], extras))
  }

  function ValidateToolInput(input: Json, schema: Json): Report {
    if !schema.Obj? then CLEAN
    else if SchemaType(schema) == Some("object") && !input.Obj? then Mismatched(WrongRoot(DescribeType(input)))
    else Validate(input, schema, [], true)
  }

  lemma {:induction false} PlusAssociates(a: Report, b: Report, c: Report)
    ensures Plus(Plus(a, b), c) == Plus(a, Plus(b, c))
  {
    assert a.errors + b.errors + c.errors == a.errors + (b.errors + c.errors);
    assert a.warnings + b.warnings + c.warnings == a.warnings + (b.warnings + c.warnings);
    assert a.missingRequired + b.missingRequired + c.missingRequired ==
        a.missingRequired + (b.missingRequired + c.missingRequired);
    assert a.typeMismatches + b.typeMismatches + c.typeMismatches ==
        a.typeMismatches + (b.typeMismatches + c.typeMismatches);
    assert a.extraFields + b.extraFields + c.extraFields == a.extraFields + (b.extraFields + c.extraFields);
  }

  lemma {:induction false} PlusClean(a: Report)
    ensures Plus(a, CLEAN) == a && Plus(CLEAN, a) == a
  {
  }

  /** The arrays the second interpreter pushes into, shared by all its recursive calls. */
  class ValidationState {
    var errors: seq<Error>
    var warnings: seq<Warning>
    var missingRequired: seq<Path>
    var typeMismatches: seq<Mismatch>
    var extraFields: seq<Path>

    constructor ()
      ensures Contents() == CLEAN
    {
      errors, warnings, missingRequired, typeMismatches, extraFields := [], [], [], [], [];
    }

    function Contents(): Report
      reads this
    {
      Report(errors, warnings, missingRequired, typeMismatches, extraFields)
    }

    method AddTypeMismatch(m: Mismatch)
      modifies this
      ensures Contents() == Plus(old(Contents()), Mismatched(m))
    {
      typeMismatches := typeMismatches + [m];
      errors := errors + [TypeMismatch(m)];
    }

    method AddMissing(path: Path)
      modifies this
      ensures Contents() == Plus(old(Contents()), Missing(path))
    {
      missingRequired := missingRequired + [path];
      errors := errors + [MissingField(path)];
    }

    method AddExtra(path: Path)
      modifies this
      ensures Contents() == Plus(old(Contents()), Extra(path))
    {
      extraFields := extraFields + [path];
      warnings := warnings + [UnexpectedField(path)];
    }

    method ReportMissing(value: Json, required: seq<string>, path: Path)
      modifies this
      ensures Contents() == Plus(old(Contents()), MissingReport(value, required, path))
    {
      PlusClean(Contents());
      for i := 0 to |required|
        invariant Contents() == Plus(old(Contents()), MissingReport(value, required[..i], path))
      {
        assert required[..i + 1][..i] == required[..i];
        if !Has(value, required[i]) {
          PlusAssociates(old(Contents()), MissingReport(value, required[..i], path),
              Missing(path + [Key(required[i])]));
          AddMissing(path + [Key(required[i])]);
        }
      }
      assert required[..|required|] == required;
    }

    method ReportExtras(fields: seq<Field>, properties: Json, path: Path)
      modifies this
      ensures Contents() == Plus(old(Contents()), ExtraReport(fields, properties, path))
    {
      PlusClean(Contents());
      for i := 0 to |fields|
        invariant Contents() == Plus(old(Contents()), ExtraReport(fields[..i], properties, path))
      {
        assert fields[..i + 1][..i] == fields[..i];
        if !Has(properties, fields[i].key) {
          PlusAssociates(old(Contents()), ExtraReport(fields[..i], properties, path),
              Extra(path + [Key(fields[i].key)]));
          AddExtra(path + [Key(fields[i].key)]);
        }
      }
      assert fields[..|fields|] == fields;
    }

    method ValidateItems(items: seq<Json>, schema: Json, path: Path, extras: bool)
      modifies this
      ensures Contents() == Plus(old(Contents()), ItemReports(items, |items|, schema, path, extras))
      decreases schema, 3
    {
      PlusClean(Contents());
      for i := 0 to |items|
        invariant Contents() == Plus(old(Contents()), ItemReports(items, i, schema, path, extras))
      {
        PlusAssociates(old(Contents()), ItemReports(items, i, schema, path, extras),
                       Validate(items[i], schema, path + [Index(i)], extras));
        ValidateValue(items[i], schema, path + [Index(i)], extras);
      }
    }

    method ValidateProperties(value: Json, properties: Json, path: Path, extras: bool)
      requires properties.Obj?
      modifies this
      ensures Contents() == Plus(old(Contents()), PropertyReports(value, properties, |properties.fields|, path, extras))
      decreases properties, 3
    {
      PlusClean(Contents());
      for i := 0 to |properties.fields|
        invariant Contents() == Plus(old(Contents()), PropertyReports(value, properties, i, path, extras))
      {
        var p := properties.fields[i];
        if Has(value, p.key) {
          PlusAssociates(old(Contents()), PropertyReports(value, properties, i, path, extras),
                         Validate(Get(value, p.key).value, p.value, path + [Key(p.key)], extras));
          ValidateValue(Get(value, p.key).value, p.value, path + [Key(p.key)], extras);
        }
      }
    }

    method ValidateObject(value: Json, schema: Json, path: Path, extras: bool)
      requires value.Obj?
      modifies this
      ensures Contents() == Plus(old(Contents()), ObjectReport(value, schema, path, extras))
      decreases schema, 0
    {
      ghost var start := Contents();
      ghost var missing := MissingReport(value, RequiredFields(schema), path);
      ReportMissing(value, RequiredFields(schema), path);
      var declared := Properties(schema);
      if declared.None? {
        return;
      }
      var properties := declared.value;
      if extras {
        ReportExtras(value.fields, properties, path);
        PlusAssociates(start, missing, ExtraReport(value.fields, properties, path));
      } else {
        PlusClean(missing);
      }
      ghost var shallow := Plus(missing, if extras then ExtraReport(value.fields, properties, path) else CLEAN);
      assert Contents() == Plus(start, shallow);
      ValidateProperties(value, properties, path, extras);
      PlusAssociates(start, shallow, PropertyReports(value, properties, |properties.fields|, path, extras));
    }

    method ValidateValue(value: Json, schema: Json, path: Path, extras: bool)
      modifies this
      ensures Contents() == Plus(old(Contents()), Validate(value, schema, path, extras))
      decreases schema, 2
    {
      PlusClean(Contents());
      if !schema.Obj? {
        return;
      }
      if NoVariantMatches(value, schema) {
        AddTypeMismatch(NoVariant(path));
        return;
      }
      if !EnumAllows(value, schema) {
        AddTypeMismatch(NotInEnum(path, EnumOptions(schema), value));
        return;
      }
      if !TypeAllows(value, schema) {
        AddTypeMismatch(WrongType(path, SchemaType(schema).value, DescribeType(value)));
        return;
      }
      if ItemSchema(value, schema).Some? {
        ValidateItems(value.items, ItemSchema(value, schema).value, path, extras);
        return;
      }
      if IsObjectNode(value, schema) {
        ValidateObject(value, schema, path, extras);
      }
    }
  }

  method ValidateToolInputAgainstSchema(input: Json, schema: Json) returns (result: Report)
    ensures result == ValidateToolInput(input, schema)
  {
    var state := new ValidationState();
    if !schema.Obj? {
      return state.Contents();
    }
    if SchemaType(schema) == Some("object") && !input.Obj? {
      state.AddTypeMismatch(WrongRoot(DescribeType(input)));
      PlusClean(Mismatched(WrongRoot(DescribeType(input))));
      return state.Contents();
    }
    state.ValidateValue(input, schema, [], true);
    PlusClean(Validate(input, schema, [], true));
    return state.Contents();
  }

  // ---- How the two relate ----

  /** What an empty error list means: each node's variants, enumeration, type and contents all accept. */
  ghost predicate Accepts(value: Json, schema: Json)
    decreases schema, 2
  {
    schema.Obj? ==>
      && !NoVariantMatches(value, schema) && EnumAllows(value, schema) && TypeAllows(value, schema)
      && (ItemSchema(value, schema).Some? ==>
            forall i | 0 <= i < |value.items| :: Accepts(value.items[i], ItemSchema(value, schema).value))
      && (IsObjectNode(value, schema) ==> HasRequired(value, schema) && PropertiesAccept(value, schema))
  }

  ghost predicate PropertiesAccept(value: Json, schema: Json)
    decreases schema, 0
  {
    Properties(schema).Some? ==>
      var properties := Properties(schema).value.fields;
      forall i | 0 <= i < |properties| && Has(value, properties[i].key) ::
        Accepts(Get(value, properties[i].key).value, properties[i].value)
  }

  lemma {:induction false} MissingIffErrors(value: Json, required: seq<string>, path: Path)
    ensures MissingReport(value, required, path).errors == [] <==>
        forall i | 0 <= i < |required| :: Has(value, required[i])
  {
    if required != [] {
      MissingIffErrors(value, required[..|required| - 1], path);
      assert forall i | 0 <= i < |required| - 1 :: required[..|required| - 1][i] == required[i];
    }
  }

  lemma {:induction false} ExtrasAreNoErrors(fields: seq<Field>, properties: Json, path: Path)
    ensures ExtraReport(fields, properties, path).errors == []
  {
    if fields != [] {
      ExtrasAreNoErrors(fields[..|fields| - 1], properties, path);
    }
  }

  lemma {:induction false} ItemErrors(items: seq<Json>, n: nat, schema: Json, path: Path, extras: bool)
    requires n <= |items|
    ensures ItemReports(items, n, schema, path, extras).errors == [] <==>
        forall i | 0 <= i < n :: Accepts(items[i], schema)
    decreases schema, 3, n
  {
    if n > 0 {
      ItemErrors(items, n - 1, schema, path, extras);
      ErrorsIffRejected(items[n - 1], schema, path + [Index(n - 1)], extras);
    }
  }

  lemma {:induction false} PropertyErrors(value: Json, properties: Json, n: nat, path: Path, extras: bool)
    requires properties.Obj? && n <= |properties.fields|
    ensures PropertyReports(value, properties, n, path, extras).errors == [] <==>
            forall i | 0 <= i < n && Has(value, properties.fields[i].key) ::
              Accepts(Get(value, properties.fields[i].key).value, properties.fields[i].value)
    decreases properties, 3, n
  {
    if n > 0 {
      PropertyErrors(value, properties, n - 1, path, extras);
      var p := properties.fields[n - 1];
      if Has(value, p.key) {
        ErrorsIffRejected(Get(value, p.key).value, p.value, path + [Key(p.key)], extras);
      }
    }
  }

  lemma {:induction false} ObjectErrors(value: Json, schema: Json, path: Path, extras: bool)
    requires value.Obj?
    ensures ObjectReport(value, schema, path, extras).errors == [] <==>
        HasRequired(value, schema) && PropertiesAccept(value, schema)
    decreases schema, 0
  {
    MissingIffErrors(value, RequiredFields(schema), path);
    if Properties(schema).Some? {
      var properties := Properties(schema).value;
      ExtrasAreNoErrors(value.fields, properties, path);
      PropertyErrors(value, properties, |properties.fields|, path, extras);
    }
  }

  /**
  The error list is empty exactly when every node accepts, wherever the value sits and whether or not extras are
  reported.
  */
  lemma {:induction false} ErrorsIffRejected(value: Json, schema: Json, path: Path, extras: bool)
    ensures Validate(value, schema, path, extras).errors == [] <==> Accepts(value, schema)
    decreases schema, 2
  {
    if ItemSchema(value, schema).Some? {
      ItemErrors(value.items, |value.items|, ItemSchema(value, schema).value, path, extras);
    } else if IsObjectNode(value, schema) {
      ObjectErrors(value, schema, path, extras);
    }
  }

  /** Acceptance is at least as strict as matching. */
  lemma {:induction false} AcceptedMatches(value: Json, schema: Json)
    requires Accepts(value, schema)
    ensures MatchesSchema(value, schema)
    decreases schema
  {
    if schema.Obj? && Variants(schema).None? {
      if ItemSchema(value, schema).Some? {
        forall i | 0 <= i < |value.items| ensures MatchesSchema(value.items[i], ItemSchema(value, schema).value) {
          AcceptedMatches(value.items[i], ItemSchema(value, schema).value);
        }
      } else if IsObjectNode(value, schema) && Properties(schema).Some? {
        var properties := Properties(schema).value.fields;
        forall i | 0 <= i < |properties| && Has(value, properties[i].key)
          ensures MatchesSchema(Get(value, properties[i].key).value, properties[i].value)
        {
          AcceptedMatches(Get(value, properties[i].key).value, properties[i].value);
        }
      }
    }
  }

  /** Soundness of the message list: no errors means the value matches. */
  lemma {:induction false} NoErrorsMeansMatching(input: Json, schema: Json)
    requires ValidateToolInput(input, schema).errors == []
    ensures MatchesSchema(input, schema)
  {
    if schema.Obj? {
      ErrorsIffRejected(input, schema, [], true);
      AcceptedMatches(input, schema);
    }
  }

  /** No node reached through `items` and `properties` combines `oneOf` with `enum` or `type`. */
  ghost predicate OneOfStandsAlone(schema: Json)
    decreases schema
  {
    schema.Obj? ==>
      && (Variants(schema).Some? ==> !HasEnum(schema) && SchemaType(schema).None?)
      && (Get(schema, "items").Some? ==> OneOfStandsAlone(Get(schema, "items").value))
      && (Properties(schema).Some? ==>
            forall i | 0 <= i < |Properties(schema).value.fields| ::
                OneOfStandsAlone(Properties(schema).value.fields[i].value))
  }

  lemma {:induction false} MatchingIsAccepted(value: Json, schema: Json)
    requires MatchesSchema(value, schema) && OneOfStandsAlone(schema)
    ensures Accepts(value, schema)
    decreases schema
  {
    if schema.Obj? && Variants(schema).None? {
      if ItemSchema(value, schema).Some? {
        forall i | 0 <= i < |value.items| ensures Accepts(value.items[i], ItemSchema(value, schema).value) {
          MatchingIsAccepted(value.items[i], ItemSchema(value, schema).value);
        }
      } else if IsObjectNode(value, schema) && Properties(schema).Some? {
        var properties := Properties(schema).value.fields;
        forall i | 0 <= i < |properties| && Has(value, properties[i].key)
          ensures Accepts(Get(value, properties[i].key).value, properties[i].value)
        {
          MatchingIsAccepted(Get(value, properties[i].key).value, properties[i].value);
        }
      }
    }
  }

  /** For such schemas the two interpreters agree on every value. */
  lemma {:induction false} InterpretersAgree(input: Json, schema: Json)
    requires OneOfStandsAlone(schema)
    ensures ValidateToolInput(input, schema).errors == [] <==> MatchesSchema(input, schema)
  {
    if schema.Obj? {
      ErrorsIffRejected(input, schema, [], true);
      if MatchesSchema(input, schema) {
        MatchingIsAccepted(input, schema);
      } else if Accepts(input, schema) {
        AcceptedMatches(input, schema);
      }
    }
  }

  /** Enumeration, type and contents of a node accept, its variants aside. */
  ghost predicate RestAccepts(value: Json, schema: Json)
    decreases schema, 1
  {
    && EnumAllows(value, schema) && TypeAllows(value, schema)
    && (ItemSchema(value, schema).Some? ==>
          forall i | 0 <= i < |value.items| :: Accepts(value.items[i], ItemSchema(value, schema).value))
    && (IsObjectNode(value, schema) ==> HasRequired(value, schema) && PropertiesAccept(value, schema))
  }

  /**
  At every node with `oneOf` that the value reaches through `items` and `properties`, the rest of the node accepts
  too.
  */
  ghost predicate SiblingsAccept(value: Json, schema: Json)
    decreases schema
  {
    schema.Obj? ==>
      if Variants(schema).Some? then RestAccepts(value, schema)
      else
        && (ItemSchema(value, schema).Some? ==>
              forall i | 0 <= i < |value.items| :: SiblingsAccept(value.items[i], ItemSchema(value, schema).value))
        && (IsObjectNode(value, schema) && Properties(schema).Some? ==>
              var properties := Properties(schema).value.fields;
              forall i | 0 <= i < |properties| && Has(value, properties[i].key) ::
                SiblingsAccept(Get(value, properties[i].key).value, properties[i].value))
  }

  lemma {:induction false} ItemsAcceptExactly(value: Json, schema: Json)
    requires ItemSchema(value, schema).Some?
    requires forall i | 0 <= i < |value.items| :: MatchesSchema(value.items[i], ItemSchema(value, schema).value)
    ensures (forall i | 0 <= i < |value.items| :: Accepts(value.items[i], ItemSchema(value, schema).value)) <==>
            forall i | 0 <= i < |value.items| :: SiblingsAccept(value.items[i], ItemSchema(value, schema).value)
    decreases schema, 0
  {
    forall i | 0 <= i < |value.items|
      ensures Accepts(value.items[i], ItemSchema(value, schema).value)
              <==> SiblingsAccept(value.items[i], ItemSchema(value, schema).value)
    {
      MatchedAcceptsExactly(value.items[i], ItemSchema(value, schema).value);
    }
  }

  lemma {:induction false} PropertiesAcceptExactly(value: Json, schema: Json, properties: seq<Field>)
    requires Properties(schema).Some? && properties == Properties(schema).value.fields
    requires forall i | 0 <= i < |properties| && Has(value, properties[i].key) ::
               MatchesSchema(Get(value, properties[i].key).value, properties[i].value)
    ensures PropertiesAccept(value, schema) <==>
            forall i | 0 <= i < |properties| && Has(value, properties[i].key) ::
              SiblingsAccept(Get(value, properties[i].key).value, properties[i].value)
    decreases schema, 0
  {
    forall i | 0 <= i < |properties| && Has(value, properties[i].key)
      ensures Accepts(Get(value, properties[i].key).value, properties[i].value)
              <==> SiblingsAccept(Get(value, properties[i].key).value, properties[i].value)
    {
      MatchedAcceptsExactly(Get(value, properties[i].key).value, properties[i].value);
    }
  }

  lemma {:induction false} MatchedAcceptsExactly(value: Json, schema: Json)
    requires MatchesSchema(value, schema)
    ensures Accepts(value, schema) <==> SiblingsAccept(value, schema)
    decreases schema, 1
  {
    if schema.Obj? && Variants(schema).None? {
      if ItemSchema(value, schema).Some? {
        ItemsAcceptExactly(value, schema);
      } else if IsObjectNode(value, schema) && Properties(schema).Some? {
        PropertiesAcceptExactly(value, schema, Properties(schema).value.fields);
      }
    }
  }

  /**
  When the two interpreters differ, for every value and schema: the error list is empty exactly when the value matches
  and, at every reached node with `oneOf`, the node's enumeration, type and contents accept as well.
  */
  lemma {:induction false} InterpretersDifferExactly(input: Json, schema: Json)
    ensures ValidateToolInput(input, schema).errors == [] <==>
        MatchesSchema(input, schema) && SiblingsAccept(input, schema)
  {
    if schema.Obj? {
      ErrorsIffRejected(input, schema, [], true);
      if MatchesSchema(input, schema) {
        MatchedAcceptsExactly(input, schema);
      } else if Accepts(input, schema) {
        AcceptedMatches(input, schema);
      }
    }
  }

  /**
  In general they do not: a matching variant silences the node's own type for one interpreter and not for the other.
  */
  lemma {:induction false} SiblingsOfOneOfDisagree()
    ensures var schema := Obj([Field("oneOf", Arr([Obj([])])), Field("type", Str("string"))]);
            MatchesSchema(Null, schema) && ValidateToolInput(Null, schema).errors != []
  {
    var schema := Obj([Field("oneOf", Arr([Obj([])])), Field("type", Str("string"))]);
    assert schema.fields[0] == Field("oneOf", Arr([Obj([])])) && schema.fields[1] == Field("type", Str("string"));
    assert Lookup(schema.fields, 1, "oneOf") == Some(Arr([Obj([])]));
    assert Lookup(schema.fields, 1, "type") == None;
    assert Variants(schema) == Some([Obj([])]);
    assert MatchesSchema(Null, [Obj([])][0]);
    assert SchemaType(schema) == Some("string") && "string"[0] != "object"[0];
    assert !TypeAllows(Null, schema);
  }

  // ---- The lists of the report ----

  function MismatchesIn(errors: seq<Error>): seq<Mismatch> {
    if errors == [] then []
    else
      MismatchesIn(errors[..|errors| - 1])
      + if errors[|errors| - 1].TypeMismatch? then [errors[|errors| - 1].mismatch] else []
  }

  function MissingIn(errors: seq<Error>): seq<Path> {
    if errors == [] then []
    else
      MissingIn(errors[..|errors| - 1])
      + if errors[|errors| - 1].MissingField? then [errors[|errors| - 1].path] else []
  }

  /**
  The errors are the type mismatches and the missing fields, each list in its order; each extra field has its warning.
  */
  predicate Consistent(r: Report) {
    && r.typeMismatches == MismatchesIn(r.errors) && r.missingRequired == MissingIn(r.errors)
    && |r.warnings| == |r.extraFields|
    && forall i | 0 <= i < |r.warnings| :: r.warnings[i] == UnexpectedField(r.extraFields[i])
  }

  lemma {:induction false} ErrorsSplit(a: seq<Error>, b: seq<Error>)
    ensures MismatchesIn(a + b) == MismatchesIn(a) + MismatchesIn(b) && MissingIn(a + b) == MissingIn(a) + MissingIn(b)
  {
    if b == [] {
      assert a + b == a;
    } else {
      ErrorsSplit(a, b[..|b| - 1]);
      assert (a + b)[..|a + b| - 1] == a + b[..|b| - 1];
    }
  }

  lemma {:induction false} PlusKeepsConsistent(a: Report, b: Report)
    requires Consistent(a) && Consistent(b)
    ensures Consistent(Plus(a, b))
  {
    ErrorsSplit(a.errors, b.errors);
  }

  lemma {:induction false} SingleReportsAreConsistent(m: Mismatch, path: Path)
    ensures Consistent(CLEAN) && Consistent(Mismatched(m)) && Consistent(Missing(path)) && Consistent(Extra(path))
  {
    assert [TypeMismatch(m)][..0] == [] && [MissingField(path)][..0] == [];
  }

  lemma {:induction false} MissingIsConsistent(value: Json, required: seq<string>, path: Path)
    ensures Consistent(MissingReport(value, required, path))
  {
    if required == [] {
      SingleReportsAreConsistent(WrongRoot(""), path);
    } else {
      var before := required[..|required| - 1];
      MissingIsConsistent(value, before, path);
      SingleReportsAreConsistent(WrongRoot(""), path + [Key(required[|required| - 1])]);
      PlusKeepsConsistent(MissingReport(value, before, path), Missing(path + [Key(required[|required| - 1])]));
    }
  }

  lemma {:induction false} ExtrasAreConsistent(fields: seq<Field>, properties: Json, path: Path)
    ensures Consistent(ExtraReport(fields, properties, path))
  {
    if fields == [] {
      SingleReportsAreConsistent(WrongRoot(""), path);
    } else {
      var before := fields[..|fields| - 1];
      ExtrasAreConsistent(before, properties, path);
      SingleReportsAreConsistent(WrongRoot(""), path + [Key(fields[|fields| - 1].key)]);
      PlusKeepsConsistent(ExtraReport(before, properties, path), Extra(path + [Key(fields[|fields| - 1].key)]));
    }
  }

  lemma {:induction false} ItemsAreConsistent(items: seq<Json>, n: nat, schema: Json, path: Path, extras: bool)
    requires n <= |items|
    ensures Consistent(ItemReports(items, n, schema, path, extras))
    decreases schema, 3, n
  {
    SingleReportsAreConsistent(WrongRoot(""), path);
    if n > 0 {
      ItemsAreConsistent(items, n - 1, schema, path, extras);
      ValueIsConsistent(items[n - 1], schema, path + [Index(n - 1)], extras);
      PlusKeepsConsistent(ItemReports(items, n - 1, schema, path, extras),
                          Validate(items[n - 1], schema, path + [Index(n - 1)], extras));
    }
  }

  lemma {:induction false} PropertiesAreConsistent(value: Json, properties: Json, n: nat, path: Path, extras: bool)
    requires properties.Obj? && n <= |properties.fields|
    ensures Consistent(PropertyReports(value, properties, n, path, extras))
    decreases properties, 3, n
  {
    SingleReportsAreConsistent(WrongRoot(""), path);
    if n > 0 {
      PropertiesAreConsistent(value, properties, n - 1, path, extras);
      var p := properties.fields[n - 1];
      if Has(value, p.key) {
        ValueIsConsistent(Get(value, p.key).value, p.value, path + [Key(p.key)], extras);
        PlusKeepsConsistent(PropertyReports(value, properties, n - 1, path, extras),
                            Validate(Get(value, p.key).value, p.value, path + [Key(p.key)], extras));
      }
    }
  }

  lemma {:induction false} ObjectIsConsistent(value: Json, schema: Json, path: Path, extras: bool)
    requires value.Obj?
    ensures Consistent(ObjectReport(value, schema, path, extras))
    decreases schema, 0
  {
    SingleReportsAreConsistent(WrongRoot(""), path);
    var missing := MissingReport(value, RequiredFields(schema), path);
    MissingIsConsistent(value, RequiredFields(schema), path);
    if Properties(schema).Some? {
      var properties := Properties(schema).value;
      ExtrasAreConsistent(value.fields, properties, path);
      var unexpected := if extras then ExtraReport(value.fields, properties, path) else CLEAN;
      PlusKeepsConsistent(missing, unexpected);
      PropertiesAreConsistent(value, properties, |properties.fields|, path, extras);
      PlusKeepsConsistent(Plus(missing, unexpected),
          PropertyReports(value, properties, |properties.fields|, path, extras));
    }
  }

  lemma {:induction false} ValueIsConsistent(value: Json, schema: Json, path: Path, extras: bool)
    ensures Consistent(Validate(value, schema, path, extras))
    decreases schema, 2
  {
    SingleReportsAreConsistent(NoVariant(path), path);
    SingleReportsAreConsistent(NotInEnum(path, EnumOptions(schema), value), path);
    if SchemaType(schema).Some? {
      SingleReportsAreConsistent(WrongType(path, SchemaType(schema).value, DescribeType(value)), path);
    }
    if ItemSchema(value, schema).Some? {
      ItemsAreConsistent(value.items, |value.items|, ItemSchema(value, schema).value, path, extras);
    } else if IsObjectNode(value, schema) {
      ObjectIsConsistent(value, schema, path, extras);
    }
  }

  lemma {:induction false} ListsAdd(errors: seq<Error>)
    ensures |errors| == |MismatchesIn(errors)| + |MissingIn(errors)|
  {
    if errors != [] {
      ListsAdd(errors[..|errors| - 1]);
    }
  }

  /** On every input and schema the four lists account for exactly the errors and the warnings. */
  lemma {:induction false} ReportsAddUp(input: Json, schema: Json)
    ensures var r := ValidateToolInput(input, schema);
            && Consistent(r)
            && |r.errors| == |r.missingRequired| + |r.typeMismatches| && |r.warnings| == |r.extraFields|
  {
    SingleReportsAreConsistent(WrongRoot(DescribeType(input)), []);
    if schema.Obj? {
      ValueIsConsistent(input, schema, [], true);
    }
    ListsAdd(ValidateToolInput(input, schema).errors);
  }
}
