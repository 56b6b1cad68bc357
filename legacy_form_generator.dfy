/**
 * The older server renderer (server/src/formGenerator.ts): no sorting, the
 * leading option only for a placeholder, an inline width on every
 * control, and fieldsets without hints.
 */
module LegacyFormGenerator {
  import opened Base
  import opened SchemaModel
  import R = FormRendering

  const Legacy := R.Variant(
    sortTopLevel := false, styledHint := true, alwaysEmptyOption := false,
    controlStyle := true, fieldsetHint := false, tupleOptionsOnly := false)

  /** `generateForm`: the top-level fields in insertion order, each
      rendered and joined by "\n". */
  function GenerateForm(s: Schema): (html: string)
    requires R.Renderable(Legacy, s)
    ensures html == Join(R.RenderedFields(Legacy, None, s), "\n")
  {
    R.FormText(Legacy, s, "", None);
    R.GenerateForm(Legacy, s)
  }

  /** One control per non-container entry, named by its full bracket path,
      in insertion order at every level. */
  lemma FormControls(s: Schema)
    requires R.Renderable(Legacy, s)
    ensures R.ControlNames(R.FormPieces(Legacy, s)) == R.PathNames(None, LeafPaths(s))
    ensures |R.ControlNames(R.FormPieces(Legacy, s))| == LeafCount(s)
  {
    R.FormControls(Legacy, s);
  }

  /** `generateFieldset` takes no hint: legend, then the children, and a
      container renders the same with or without a hint. */
  lemma FieldsetDropsHint(name: string, e: Entry)
    requires R.EntryRenderable(Legacy, e) && e.kind == Some("schema")
    ensures R.FieldPieces(Legacy, name, e) == R.FieldPieces(Legacy, name, e.(hint := None))
    ensures R.Flatten(R.FieldPieces(Legacy, name, e))
      == "\n    <fieldset>\n      <legend>" + Capitalize(name) + "</legend>\n      "
         + Join(R.RenderedFields(Legacy, Some(name), e.schema.value), "\n") + "\n    </fieldset>\n  "
  {
    R.FieldsetIgnoresHint(Legacy, name, e);
    R.FormText(Legacy, e.schema.value, name, e.hint);
  }

  /** The leading option appears only for a truthy placeholder. */
  lemma PlaceholderOnlyWhenSet(placeholder: Option<string>)
    ensures R.LeadingOption(Legacy, placeholder) == if Truthy(placeholder) then "<option value=\"\">" + placeholder.value + "</option>" else ""
  {
    R.LeadingOptionCases(Legacy, placeholder);
  }

  const MaxWidthStyle := " style=\"max-width: 400px;\""

  predicate StyleAt(h: string, i: int) {
    0 <= i <= |h| - |MaxWidthStyle| && h[i..i + |MaxWidthStyle|] == MaxWidthStyle
  }

  /** Every control, whatever its kind, carries the inline width. */
  lemma ControlsStyled(name: string, e: Entry)
    requires e.kind == Some("select") ==> e.options.Some?
    ensures var h := R.ControlHtml(Legacy, name, e);
      exists i :: StyleAt(h, i)
  {
    var h := R.ControlHtml(Legacy, name, e);
    var pre := if e.kind == Some("select") then "<select name=\"" + name + "\" id=\"" + name + "\" " + R.Attrs(e)
      else if e.kind == Some("textarea") then "<textarea name=\"" + name + "\" id=\"" + name + "\" " + R.Attrs(e)
      else "<input type=\"" + R.KindText(e.kind) + "\" name=\"" + name + "\" id=\"" + name + "\" " + R.Attrs(e);
    var post := h[|pre| + |MaxWidthStyle|..];
    assert h == pre + MaxWidthStyle + post;
    assert h[|pre|..|pre| + |MaxWidthStyle|] == MaxWidthStyle;
    assert StyleAt(h, |pre|);
  }
}
