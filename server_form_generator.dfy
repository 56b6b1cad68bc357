/**
 * The renderer the server routes use (server/src/utils/formGenerator.ts):
 * top-level fields in position order, a select always opening with an
 * empty option, fieldsets showing their hint.
 */
module ServerFormGenerator {
  import opened Base
  import opened SchemaModel
  import R = FormRendering

  const Production := R.Variant(
    sortTopLevel := true, styledHint := true, alwaysEmptyOption := true,
    controlStyle := false, fieldsetHint := true, tupleOptionsOnly := false)

  /** `generateForm`: the top-level fields, stably sorted by position
      (missing counting as 0), each rendered and joined by "\n". */
  function GenerateForm(s: Schema): (html: string)
    requires R.Renderable(Production, s)
    ensures R.Renderable(Production, Schema(SortByPosition(s.fields)))
    ensures html == Join(R.RenderedFields(Production, None, Schema(SortByPosition(s.fields))), "\n")
  {
    R.FormText(Production, s, "", None);
    R.GenerateForm(Production, s)
  }

  /** The top level is in ascending position, ties in insertion order;
      one control is emitted per non-container entry, named by its full
      bracket path, with nested levels in insertion order. */
  lemma FormOrderAndControls(s: Schema, p: int)
    requires R.Renderable(Production, s)
    ensures SortedBy(SortByPosition(s.fields), PositionKey)
    ensures WithKey(SortByPosition(s.fields), PositionKey, p) == WithKey(s.fields, PositionKey, p)
    ensures R.ControlNames(R.FormPieces(Production, s)) == R.PathNames(None, LeafPaths(Schema(SortByPosition(s.fields))))
    ensures |R.ControlNames(R.FormPieces(Production, s))| == LeafCount(s)
  {
    R.TopLevelOrder(Production, s, p);
    R.FormControls(Production, s);
  }

  /** `generateFieldset`: legend, then the hint when there is one, then the
      children. */
  lemma FieldsetShowsHint(name: string, c: Schema, hint: Option<string>)
    requires R.Renderable(Production, c)
    ensures R.Flatten(R.FieldsetPieces(Production, name, c, hint))
      == "\n    <fieldset>\n      <legend>" + Capitalize(name) + "</legend>\n      "
         + R.HintPart(Production, hint) + "\n      "
         + Join(R.RenderedFields(Production, Some(name), c), "\n") + "\n    </fieldset>\n  "
  {
    R.FormText(Production, c, name, hint);
    var open := "\n    <fieldset>\n      <legend>" + Capitalize(name) + "</legend>\n      ";
    var h := R.HintPart(Production, hint);
    assert R.FieldsetOpen(Production, name, hint) == open + (h + "\n      ");
    ConcatAssoc(open, h, "\n      ");
  }

  /** Without a placeholder the select still opens with an empty option
      reading "Select...". */
  lemma DefaultEmptyOption(placeholder: Option<string>)
    requires !Truthy(placeholder)
    ensures R.LeadingOption(Production, placeholder) == "<option value=\"\">Select...</option>"
  {
    R.LeadingOptionCases(Production, placeholder);
  }
}
