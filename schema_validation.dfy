/**
 * Schema validation (frontend/src/utils/schemaValidation.ts): the first
 * problem found in a depth-first walk of the schema, reported with the
 * dotted key path of the offending level or field.
 */
module SchemaValidation {
  import opened Base
  import opened SchemaModel

  datatype Validation = Validation(isValid: bool, error: Option<string>)

  const Passed := Validation(true, None)

  function Invalid(message: string): Validation {
    Validation(false, Some(message))
  }

  function Dotted(path: seq<string>): string {
    Join(path, ".")
  }

  function EmptyMessage(path: seq<string>): string {
    "Schema at " + Dotted(path) + " is empty"
  }

  function MissingTypeMessage(path: seq<string>): string {
    "Field \"" + Dotted(path) + "\" is missing a type"
  }

  function NoOptionsMessage(path: seq<string>): string {
    "Select field \"" + Dotted(path) + "\" must have at least one option"
  }

  function NoSchemaMessage(path: seq<string>): string {
    "Schema field \"" + Dotted(path) + "\" has no schema defined"
  }

  // ---------------------------------------------------------------------
  // What a valid schema is, stated directly

  /** A field is acceptable when it has a (non-empty) type, a select has at
      least one option, and a container has a nested schema that is itself
      acceptable. */
  predicate FieldOk(e: Entry)
    decreases e, 0
  {
    && Truthy(e.kind)
    && (e.kind == Some("select") ==> e.options.Some? && |e.options.value| > 0)
    && (e.kind == Some("schema") ==> e.schema.Some? && SchemaOk(e.schema.value))
  }

  /** Every level is non-empty and every field is acceptable. */
  predicate SchemaOk(s: Schema)
    decreases s, 1
  {
    |s.fields| > 0 && forall i | 0 <= i < |s.fields| :: FieldOk(s.fields[i].1)
  }

  // ---------------------------------------------------------------------
  // validateSchema

  /** `validateSchema(s, path)`: an empty level is reported at its own
      path; otherwise the fields are checked in insertion order and the
      first failure, nested ones included, is returned unchanged. */
  function ValidateSchema(s: Schema, path: seq<string>): (v: Validation)
    ensures v.isValid <==> v.error.None?
    ensures v.isValid ==> v == Passed
    decreases s, 2
  {
    if |s.fields| == 0 then Invalid(EmptyMessage(path))
    else ValidateFrom(s, path, 0)
  }

  function ValidateFrom(s: Schema, path: seq<string>, i: nat): (v: Validation)
    ensures v.isValid <==> v.error.None?
    ensures v.isValid ==> v == Passed
    decreases s, 1, |s.fields| - i
  {
    if i >= |s.fields| then Passed
    else
      var v := ValidateField(s.fields[i].1, path + [s.fields[i].0]);
      if !v.isValid then v else ValidateFrom(s, path, i + 1)
  }

  /** The checks on one field at `fieldPath`. */
  function ValidateField(e: Entry, fieldPath: seq<string>): (v: Validation)
    ensures v.isValid <==> v.error.None?
    ensures v.isValid ==> v == Passed
    decreases e, 0
  {
    if !Truthy(e.kind) then Invalid(MissingTypeMessage(fieldPath))
    else if e.kind == Some("select") && (e.options.None? || |e.options.value| == 0) then
      Invalid(NoOptionsMessage(fieldPath))
    else if e.kind == Some("schema") then
      match e.schema
      case None => Invalid(NoSchemaMessage(fieldPath))
      case Some(c) => ValidateSchema(c, fieldPath)
    else Passed
  }

  // ---------------------------------------------------------------------
  // Properties

  /** Validation accepts exactly the schemas that are acceptable, whatever
      the path it starts from. */
  lemma {:induction false} ValidateSchemaSound(s: Schema, path: seq<string>)
    ensures ValidateSchema(s, path).isValid <==> SchemaOk(s)
    decreases s, 2
  {
    if |s.fields| > 0 {
      ValidateFromSound(s, path, 0);
    }
  }

  lemma {:induction false} ValidateFromSound(s: Schema, path: seq<string>, i: nat)
    ensures ValidateFrom(s, path, i).isValid <==> forall j | i <= j < |s.fields| :: FieldOk(s.fields[j].1)
    decreases s, 1, |s.fields| - i
  {
    if i < |s.fields| {
      ValidateFieldSound(s.fields[i].1, path + [s.fields[i].0]);
      ValidateFromSound(s, path, i + 1);
    }
  }

  lemma {:induction false} ValidateFieldSound(e: Entry, fieldPath: seq<string>)
    ensures ValidateField(e, fieldPath).isValid <==> FieldOk(e)
    decreases e, 0
  {
    if Truthy(e.kind) && e.kind == Some("schema") && e.schema.Some? {
      ValidateSchemaSound(e.schema.value, fieldPath);
    }
  }

  /** The reported problem is the first one in insertion order: every field
      before the reported one is acceptable, and the result is exactly the
      report of that field. */
  lemma {:induction false} FirstFailureReported(s: Schema, path: seq<string>, i: nat)
    requires !ValidateFrom(s, path, i).isValid
    ensures exists j | i <= j < |s.fields| ::
      && (forall m | i <= m < j :: FieldOk(s.fields[m].1))
      && !FieldOk(s.fields[j].1)
      && ValidateFrom(s, path, i) == ValidateField(s.fields[j].1, path + [s.fields[j].0])
    decreases |s.fields| - i
  {
    var v := ValidateField(s.fields[i].1, path + [s.fields[i].0]);
    ValidateFieldSound(s.fields[i].1, path + [s.fields[i].0]);
    if v.isValid {
      FirstFailureReported(s, path, i + 1);
      var j :| i + 1 <= j < |s.fields|
        && (forall m | i + 1 <= m < j :: FieldOk(s.fields[m].1))
        && !FieldOk(s.fields[j].1)
        && ValidateFrom(s, path, i + 1) == ValidateField(s.fields[j].1, path + [s.fields[j].0]);
      assert forall m | i <= m < j :: FieldOk(s.fields[m].1);
    }
  }

  /** The messages validation can produce. */
  predicate IsMessageAt(m: string, p: seq<string>) {
    m == EmptyMessage(p) || m == MissingTypeMessage(p) || m == NoOptionsMessage(p) || m == NoSchemaMessage(p)
  }

  /** A reported error is one of the four messages, naming a path that
      extends the path validation started from. */
  lemma {:induction false} ErrorNamesPath(s: Schema, path: seq<string>)
    requires !ValidateSchema(s, path).isValid
    ensures exists q: seq<string> :: IsMessageAt(ValidateSchema(s, path).error.value, path + q)
    decreases s, 2
  {
    if |s.fields| == 0 {
      assert path + [] == path;
    } else {
      ErrorFromNamesPath(s, path, 0);
    }
  }

  lemma {:induction false} ErrorFromNamesPath(s: Schema, path: seq<string>, i: nat)
    requires !ValidateFrom(s, path, i).isValid
    ensures exists q: seq<string> :: IsMessageAt(ValidateFrom(s, path, i).error.value, path + q)
    decreases s, 1, |s.fields| - i
  {
    var k := s.fields[i].0;
    var e := s.fields[i].1;
    var v := ValidateField(e, path + [k]);
    if !v.isValid {
      ErrorFieldNamesPath(e, path + [k]);
      var q :| IsMessageAt(v.error.value, path + [k] + q);
      assert path + [k] + q == path + ([k] + q);
    } else {
      ErrorFromNamesPath(s, path, i + 1);
    }
  }

  lemma {:induction false} ErrorFieldNamesPath(e: Entry, fieldPath: seq<string>)
    requires !ValidateField(e, fieldPath).isValid
    ensures exists q: seq<string> :: IsMessageAt(ValidateField(e, fieldPath).error.value, fieldPath + q)
    decreases e, 0
  {
    if Truthy(e.kind) && !(e.kind == Some("select") && (e.options.None? || |e.options.value| == 0))
      && e.kind == Some("schema") && e.schema.Some? {
      ErrorNamesPath(e.schema.value, fieldPath);
    } else {
      assert fieldPath + [] == fieldPath;
    }
  }
}
