/**
 * The original renderer (src/formGenerator.ts): no sorting, options only
 * as `[value, label]` tuples, the leading option only for a placeholder,
 * a plain hint block, and fieldsets without hints.
 */
module RootFormGenerator {
  import opened Base
  import opened SchemaModel
  import opened SchemaValidation
  import R = FormRendering

  const Original := R.Variant(
    sortTopLevel := false, styledHint := false, alwaysEmptyOption := false,
    controlStyle := false, fieldsetHint := false, tupleOptionsOnly := true)

  /** `generateForm`: the top-level fields in insertion order, each
      rendered and joined by "\n". */
  function GenerateForm(s: Schema): (html: string)
    requires R.Renderable(Original, s)
    ensures html == Join(R.RenderedFields(Original, None, s), "\n")
  {
    R.FormText(Original, s, "", None);
    R.GenerateForm(Original, s)
  }

  /** One control per non-container entry, named by its full bracket path,
      in insertion order at every level. */
  lemma FormControls(s: Schema)
    requires R.Renderable(Original, s)
    ensures R.ControlNames(R.FormPieces(Original, s)) == R.PathNames(None, LeafPaths(s))
    ensures |R.ControlNames(R.FormPieces(Original, s))| == LeafCount(s)
  {
    R.FormControls(Original, s);
  }

  /** A field with a hint renders its label, its control, then the hint
      as a bare <div>, in that order. */
  lemma PlainHintAfterControl(name: string, e: Entry)
    requires R.EntryRenderable(Original, e) && e.kind != Some("schema") && Truthy(e.hint)
    ensures R.Flatten(R.FieldPieces(Original, name, e))
      == "\n    <div>\n      " + R.GenerateLabel(name, e.labelText) + "\n      "
         + R.ControlHtml(Original, name, e)
         + "\n      " + ("<div>" + e.hint.value + "</div>") + "\n    </div>\n  "
  {
    var a := "\n    <div>\n      " + R.GenerateLabel(name, e.labelText) + "\n      ";
    var c := R.ControlHtml(Original, name, e);
    var h := R.HintPart(Original, e.hint);
    assert R.FieldPieces(Original, name, e) == R.InputPieces(Original, name, e);
    InputText(name, e);
    assert h == "<div>" + e.hint.value + "</div>";
    Regroup(a, c, "\n      ", h, "\n    </div>\n  ");
  }

  lemma Regroup(a: string, c: string, x: string, h: string, w: string)
    ensures a + c + (x + h + w) == a + c + x + h + w
  {
  }

  lemma InputText(name: string, e: Entry)
    requires e.kind == Some("select") ==> e.options.Some?
    ensures R.Flatten(R.InputPieces(Original, name, e))
      == "\n    <div>\n      " + R.GenerateLabel(name, e.labelText) + "\n      "
         + R.ControlHtml(Original, name, e)
         + "\n      " + R.HintPart(Original, e.hint) + "\n    </div>\n  "
  {
    ThreePieces("\n    <div>\n      " + R.GenerateLabel(name, e.labelText) + "\n      ",
      name, R.ControlHtml(Original, name, e), "\n      " + R.HintPart(Original, e.hint) + "\n    </div>\n  ");
  }

  lemma ThreePieces(a: string, name: string, h: string, b: string)
    ensures R.Flatten([R.Text(a), R.Control(name, h), R.Text(b)]) == a + h + b
  {
    var ps := [R.Text(a), R.Control(name, h), R.Text(b)];
    assert ps[1..] == [R.Control(name, h), R.Text(b)];
    assert ps[1..][1..] == [R.Text(b)];
    assert ps[1..][1..][1..] == [];
    assert R.Flatten(ps[1..][1..]) == b + "";
    assert R.Flatten(ps[1..]) == h + (b + "");
  }

  /** A schema the validator accepts renders when all its options are
      tuples; a select holding a `{value, label}` option cannot be
      destructured and does not render. */
  lemma TupleOptionsRequired(s: Schema, e: Entry, i: nat)
    requires SchemaOk(s) && R.TupleOptionsOnly(s)
    requires e.kind == Some("select") && e.options.Some? && i < |e.options.value| && e.options.value[i].ObjectOption?
    ensures R.Renderable(Original, s)
    ensures !R.EntryRenderable(Original, e)
  {
    R.ValidIsRenderable(Original, s);
  }
}
