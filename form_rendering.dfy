/**
 * Schema to HTML form, as the three renderers build it
 * (server/src/utils/formGenerator.ts, server/src/formGenerator.ts and
 * src/formGenerator.ts). The three share every function and template and
 * differ only in the switches collected in `Variant`.
 *
 * A rendering is a sequence of pieces: template text, or one emitted form
 * control together with the name it was built for. Flattening the pieces
 * gives exactly the string the source assembles; keeping the controls
 * apart lets the lemmas count and name the controls the renderer emits,
 * which the flat text cannot tell from interpolated user text (nothing is
 * escaped).
 */
module FormRendering {
  import opened Base
  import opened SchemaModel
  import opened SchemaValidation

  /** What tells the three renderers apart. */
  datatype Variant = Variant(
    sortTopLevel: bool,        // top-level fields in `position` order
    styledHint: bool,          // hint as the styled "Hint: ..." block, else a plain <div>
    alwaysEmptyOption: bool,   // a select always opens with an empty option
    controlStyle: bool,        // every control carries style="max-width: 400px;"
    fieldsetHint: bool,        // a fieldset shows the hint of its entry
    tupleOptionsOnly: bool)    // options are destructured as [value, label] tuples

  datatype Piece = Text(text: string) | Control(name: string, html: string)

  function Flatten(ps: seq<Piece>): string {
    if ps == [] then ""
    else (match ps[0] case Text(t) => t case Control(_, h) => h) + Flatten(ps[1..])
  }

  /** The names of the emitted controls, in document order. */
  function ControlNames(ps: seq<Piece>): seq<string> {
    if ps == [] then []
    else (if ps[0].Control? then [ps[0].name] else []) + ControlNames(ps[1..])
  }

  lemma FlattenConcat(a: seq<Piece>, b: seq<Piece>)
    ensures Flatten(a + b) == Flatten(a) + Flatten(b)
    ensures ControlNames(a + b) == ControlNames(a) + ControlNames(b)
  {
    FlattenAppend(a, b);
    ControlNamesAppend(a, b);
  }

  lemma {:induction false} FlattenAppend(a: seq<Piece>, b: seq<Piece>)
    ensures Flatten(a + b) == Flatten(a) + Flatten(b)
    decreases |a|
  {
    if a != [] {
      assert (a + b)[1..] == a[1..] + b;
      FlattenAppend(a[1..], b);
      var h := match a[0] case Text(t) => t case Control(_, x) => x;
      ConcatAssoc(h, Flatten(a[1..]), Flatten(b));
    } else {
      assert a + b == b;
    }
  }

  lemma {:induction false} ControlNamesAppend(a: seq<Piece>, b: seq<Piece>)
    ensures ControlNames(a + b) == ControlNames(a) + ControlNames(b)
    decreases |a|
  {
    if a != [] {
      assert (a + b)[1..] == a[1..] + b;
      ControlNamesAppend(a[1..], b);
      var h := if a[0].Control? then [a[0].name] else [];
      ConcatAssoc(h, ControlNames(a[1..]), ControlNames(b));
    } else {
      assert a + b == b;
    }
  }

  // ---------------------------------------------------------------------
  // Names and labels

  /** `"[k1][k2]..."` */
  function Brackets(ks: seq<string>): string {
    if ks == [] then "" else "[" + ks[0] + "]" + Brackets(ks[1..])
  }

  lemma {:induction false} BracketsAppend(ks: seq<string>, k: string)
    ensures Brackets(ks + [k]) == Brackets(ks) + "[" + k + "]"
    decreases |ks|
  {
    if ks == [] {
      assert ks + [k] == [k];
    } else {
      assert (ks + [k])[1..] == ks[1..] + [k];
      BracketsAppend(ks[1..], k);
    }
  }

  /** The name a control at key path `p` gets: `p0[p1][p2]...`. */
  function BracketName(p: seq<string>): string
    requires p != []
  {
    p[0] + Brackets(p[1..])
  }

  /** The name handed to a field: its own key at the top level,
      `parent[key]` below a fieldset. */
  function ChildName(parent: Option<string>, k: string): string {
    match parent
    case None => k
    case Some(n) => n + "[" + k + "]"
  }

  /** What follows the last `c` in `s` (all of `s` when there is none). */
  function AfterLast(s: string, c: char): string {
    if s == [] then []
    else if c in s[1..] then AfterLast(s[1..], c)
    else if s[0] == c then s[1..]
    else s
  }

  /** `s.replace(c, '')` with a one-character string pattern: only the first
      occurrence goes. */
  function RemoveFirst(s: string, c: char): string {
    if s == [] then []
    else if s[0] == c then s[1..]
    else [s[0]] + RemoveFirst(s[1..], c)
  }

  /** `name.split('[').pop()?.replace(']', '') || name` */
  function LastSegment(name: string): string {
    var parts := Split(name, '[');
    var seg := RemoveFirst(parts[|parts| - 1], ']');
    if seg == "" then name else seg
  }

  /** `label || fieldName.charAt(0).toUpperCase() + fieldName.slice(1)` */
  function LabelText(name: string, labelOpt: Option<string>): string {
    if Truthy(labelOpt) then labelOpt.value else Capitalize(LastSegment(name))
  }

  function GenerateLabel(name: string, labelOpt: Option<string>): string {
    "<label for=\"" + name + "\">" + LabelText(name, labelOpt) + "</label>"
  }

  lemma {:induction false} SplitLast(s: string, c: char)
    ensures var parts := Split(s, c); parts[|parts| - 1] == AfterLast(s, c)
    decreases |s|
  {
    if s != [] {
      SplitLast(s[1..], c);
      var rest := Split(s[1..], c);
      var parts := Split(s, c);
      if c !in s[1..] {
        SplitWithoutSep(s[1..], c);
        AfterLastNone(s[1..], c);
        if s[0] != c {
          assert s == [s[0]] + s[1..];
        }
      } else if s[0] != c {
        CountCharPresent(s[1..], c);
        assert parts == [[s[0]] + rest[0]] + rest[1..];
        assert parts[|parts| - 1] == rest[|rest| - 1];
      }
    }
  }

  lemma AfterLastNone(s: string, c: char)
    requires c !in s
    ensures AfterLast(s, c) == s
  {
    if s != [] {
      assert c !in s[1..];
    }
  }

  lemma {:induction false} CountCharPresent(s: string, c: char)
    requires c in s
    ensures CountChar(s, c) >= 1
    decreases |s|
  {
    if s[0] != c {
      assert c in s[1..];
      CountCharPresent(s[1..], c);
    }
  }

  lemma {:induction false} AfterLastAppend(x: string, c: char, y: string)
    requires c !in y
    ensures AfterLast(x + [c] + y, c) == y
    decreases |x|
  {
    var s := x + [c] + y;
    if x == [] {
      assert s == [c] + y;
      assert s[1..] == y;
    } else {
      assert s[1..] == x[1..] + [c] + y;
      assert c in s[1..];
      AfterLastAppend(x[1..], c, y);
    }
  }

  lemma {:induction false} RemoveFirstAppend(x: string, c: char)
    requires c !in x
    ensures RemoveFirst(x + [c], c) == x
    decreases |x|
  {
    if x == [] {
      assert x + [c] == [c];
    } else {
      assert (x + [c])[1..] == x[1..] + [c];
      RemoveFirstAppend(x[1..], c);
    }
  }

  predicate PlainKey(k: string) {
    '[' !in k && ']' !in k
  }

  /** The default label names the field by its own key: for keys without
      brackets, the last segment of `p0[p1]...[pn]` is `pn`, so the label
      reads `pn` capitalised. An empty last key falls back to the full
      name. */
  lemma DefaultLabelIsLastKey(p: seq<string>)
    requires p != [] && p[|p| - 1] != ""
    requires forall i | 0 <= i < |p| :: PlainKey(p[i])
    ensures LastSegment(BracketName(p)) == p[|p| - 1]
    ensures LabelText(BracketName(p), None) == Capitalize(p[|p| - 1])
  {
    if |p| == 1 {
      LastSegmentOfKey(p[0]);
    } else {
      LastSegmentOfPath(p);
    }
  }

  lemma LastSegmentOfKey(k: string)
    requires PlainKey(k) && k != ""
    ensures LastSegment(BracketName([k])) == k
  {
    assert BracketName([k]) == k + "" == k;
    SplitWithoutSep(k, '[');
    RemoveFirstNone(k, ']');
  }

  lemma LastSegmentOfPath(p: seq<string>)
    requires |p| > 1 && p[|p| - 1] != ""
    requires forall i | 0 <= i < |p| :: PlainKey(p[i])
    ensures LastSegment(BracketName(p)) == p[|p| - 1]
  {
    var last := p[|p| - 1];
    var init := p[..|p| - 1];
    BracketNameSnoc(p);
    SplitLast(BracketName(p), '[');
    AfterLastAppend(BracketName(init), '[', last + [']']);
    RemoveFirstAppend(last, ']');
  }

  /** The name of a longer path is the name of its front, then `[`, the
      last key and `]`. */
  lemma BracketNameSnoc(p: seq<string>)
    requires |p| > 1
    ensures BracketName(p) == BracketName(p[..|p| - 1]) + ['['] + (p[|p| - 1] + [']'])
  {
    var last := p[|p| - 1];
    var init := p[..|p| - 1];
    assert p[1..] == init[1..] + [last];
    BracketsAppend(init[1..], last);
    var b := Brackets(init[1..]);
    assert "[" + last + "]" == ['['] + (last + [']']);
    ConcatAssoc(p[0], b, ['['] + (last + [']']));
    ConcatAssoc(p[0] + b, ['['], last + [']']);
  }

  lemma {:induction false} RemoveFirstNone(x: string, c: char)
    requires c !in x
    ensures RemoveFirst(x, c) == x
    decreases |x|
  {
    if x != [] {
      RemoveFirstNone(x[1..], c);
      assert x == [x[0]] + x[1..];
    }
  }

  // ---------------------------------------------------------------------
  // Controls

  function GenerateHint(v: Variant, hint: string): string {
    if v.styledHint then
      "<div style=\"margin-top: -0.5rem; margin-bottom: 1rem; font-style: italic; color: #666;\">Hint: " + hint + "</div>"
    else "<div>" + hint + "</div>"
  }

  /** `${hint ? generateHint(hint) : ''}` */
  function HintPart(v: Variant, hint: Option<string>): string {
    if Truthy(hint) then GenerateHint(v, hint.value) else ""
  }

  /** The pass-through attributes: everything but type, label, hint,
      schema, options and placeholder. The model lists `position`, then
      `optionsRaw`, then the remaining properties in their own order. */
  function AttrPairs(e: Entry): seq<(string, string)> {
    (match e.position case Some(p) => [("position", IntToString(p))] case None => [])
    + (match e.optionsRaw case Some(r) => [("optionsRaw", r)] case None => [])
    + e.extras
  }

  function AttrText(kvs: seq<(string, string)>): string {
    Join(seq(|kvs|, i requires 0 <= i < |kvs| => kvs[i].0 + "=\"" + kvs[i].1 + "\""), " ")
  }

  function Attrs(e: Entry): string {
    AttrText(AttrPairs(e))
  }

  function OptionHtml(o: SelectOption): string {
    match o
    case TupleOption(value, text) => "<option value=\"" + value + "\">" + text + "</option>"
    case ObjectOption(value, text) => "<option value=\"" + value + "\">" + text + "</option>"
  }

  /** `options.map(...).join('')` */
  function OptionsHtml(os: seq<SelectOption>): string {
    if os == [] then "" else OptionHtml(os[0]) + OptionsHtml(os[1..])
  }

  /** The option before the listed ones. */
  function LeadingOption(v: Variant, placeholder: Option<string>): string {
    if v.alwaysEmptyOption then
      "<option value=\"\">" + (if Truthy(placeholder) then placeholder.value else "Select...") + "</option>"
    else if Truthy(placeholder) then "<option value=\"\">" + placeholder.value + "</option>"
    else ""
  }

  function StyleText(v: Variant): string {
    if v.controlStyle then " style=\"max-width: 400px;\"" else ""
  }

  /** `${type}` of an absent type reads "undefined". */
  function KindText(kind: Option<string>): string {
    match kind
    case Some(t) => t
    case None => "undefined"
  }

  /** The control itself: a select, a textarea, or an input of the entry's
      type. */
  function ControlHtml(v: Variant, name: string, e: Entry): string
    requires e.kind == Some("select") ==> e.options.Some?
  {
    if e.kind == Some("select") then
      "<select name=\"" + name + "\" id=\"" + name + "\" " + Attrs(e) + StyleText(v) + ">"
      + LeadingOption(v, e.placeholder) + OptionsHtml(e.options.value) + "</select>"
    else if e.kind == Some("textarea") then
      "<textarea name=\"" + name + "\" id=\"" + name + "\" " + Attrs(e) + StyleText(v) + "></textarea>"
    else
      "<input type=\"" + KindText(e.kind) + "\" name=\"" + name + "\" id=\"" + name + "\" "
      + Attrs(e) + StyleText(v) + ">"
  }

  // ---------------------------------------------------------------------
  // What a renderer needs of its input

  /** A select has options (the renderers read `options.map`), a container
      has a nested schema (they read `Object.entries(schema)`), and where
      options are destructured as tuples every option is one. */
  predicate EntryRenderable(v: Variant, e: Entry)
    decreases e, 0
  {
    && (e.kind == Some("select") ==>
          e.options.Some? && (v.tupleOptionsOnly ==> forall i | 0 <= i < |e.options.value| :: e.options.value[i].TupleOption?))
    && (e.kind == Some("schema") ==> e.schema.Some? && Renderable(v, e.schema.value))
  }

  predicate Renderable(v: Variant, s: Schema)
    decreases s, 1
  {
    forall i | 0 <= i < |s.fields| :: EntryRenderable(v, s.fields[i].1)
  }

  /** Only `[value, label]` tuples anywhere in the tree. */
  predicate TupleOptionsOnly(s: Schema)
    decreases s, 1
  {
    forall i | 0 <= i < |s.fields| :: EntryTupleOptionsOnly(s.fields[i].1)
  }

  predicate EntryTupleOptionsOnly(e: Entry)
    decreases e, 0
  {
    && (e.options.Some? ==> forall i | 0 <= i < |e.options.value| :: e.options.value[i].TupleOption?)
    && (e.schema.Some? ==> TupleOptionsOnly(e.schema.value))
  }

  /** A schema the validator accepts can be rendered (by the tuple-only
      renderer when its options are tuples). */
  lemma {:induction false} ValidIsRenderable(v: Variant, s: Schema)
    requires SchemaOk(s)
    requires v.tupleOptionsOnly ==> TupleOptionsOnly(s)
    ensures Renderable(v, s)
    decreases s, 1
  {
    forall i | 0 <= i < |s.fields| ensures EntryRenderable(v, s.fields[i].1) {
      ValidEntryIsRenderable(v, s.fields[i].1);
    }
  }

  lemma {:induction false} ValidEntryIsRenderable(v: Variant, e: Entry)
    requires FieldOk(e)
    requires v.tupleOptionsOnly ==> EntryTupleOptionsOnly(e)
    ensures EntryRenderable(v, e)
    decreases e, 0
  {
    if e.kind == Some("schema") {
      ValidIsRenderable(v, e.schema.value);
    }
  }

  // ---------------------------------------------------------------------
  // The renderer

  /** `generateInput`: the label, the control and the hint in a <div>. */
  function InputPieces(v: Variant, name: string, e: Entry): seq<Piece>
    requires e.kind == Some("select") ==> e.options.Some?
  {
    [ Text("\n    <div>\n      " + GenerateLabel(name, e.labelText) + "\n      "),
      Control(name, ControlHtml(v, name, e)),
      Text("\n      " + HintPart(v, e.hint) + "\n    </div>\n  ") ]
  }

  function FieldsetOpen(v: Variant, name: string, hint: Option<string>): string {
    "\n    <fieldset>\n      <legend>" + Capitalize(name) + "</legend>\n      "
    + (if v.fieldsetHint then HintPart(v, hint) + "\n      " else "")
  }

  const FieldsetClose := "\n    </fieldset>\n  "

  /** `generateFieldset`: the legend (the full name capitalised), the hint
      where the variant shows it, then the children in insertion order,
      each named `name[key]`. */
  function FieldsetPieces(v: Variant, name: string, s: Schema, hint: Option<string>): seq<Piece>
    requires Renderable(v, s)
    decreases s, 2
  {
    [Text(FieldsetOpen(v, name, hint))] + JoinedFields(v, Some(name), s, 0) + [Text(FieldsetClose)]
  }

  /** The fields of `s` from index `i` on, rendered and joined by "\n". */
  function JoinedFields(v: Variant, parent: Option<string>, s: Schema, i: nat): seq<Piece>
    requires Renderable(v, s)
    decreases s, 1, |s.fields| - i
  {
    if i >= |s.fields| then []
    else
      var here := FieldPieces(v, ChildName(parent, s.fields[i].0), s.fields[i].1);
      if i + 1 == |s.fields| then here else here + [Text("\n")] + JoinedFields(v, parent, s, i + 1)
  }

  /** `generateFormField`: a container becomes a fieldset, anything else an
      input block. */
  function FieldPieces(v: Variant, name: string, e: Entry): seq<Piece>
    requires EntryRenderable(v, e)
    decreases e, 0
  {
    if e.kind == Some("schema") then FieldsetPieces(v, name, e.schema.value, e.hint)
    else InputPieces(v, name, e)
  }

  /** The top level as the renderer walks it. */
  function TopLevel(v: Variant, s: Schema): Schema {
    if v.sortTopLevel then Schema(SortByPosition(s.fields)) else s
  }

  lemma TopLevelRenderable(v: Variant, s: Schema)
    requires Renderable(v, s)
    ensures Renderable(v, TopLevel(v, s))
  {
    var t := TopLevel(v, s);
    forall i | 0 <= i < |t.fields| ensures EntryRenderable(v, t.fields[i].1) {
      assert t.fields[i] in multiset(s.fields);
      var j := MemberIndex(s.fields, t.fields[i]);
    }
  }

  function FormPieces(v: Variant, s: Schema): seq<Piece>
    requires Renderable(v, s)
  {
    TopLevelRenderable(v, s);
    JoinedFields(v, None, TopLevel(v, s), 0)
  }

  /** `generateForm` */
  function GenerateForm(v: Variant, s: Schema): string
    requires Renderable(v, s)
  {
    Flatten(FormPieces(v, s))
  }

  // ---------------------------------------------------------------------
  // The text, as the templates write it

  /** Each field of a level rendered on its own. */
  function RenderedFields(v: Variant, parent: Option<string>, s: Schema): seq<string>
    requires Renderable(v, s)
  {
    seq(|s.fields|, j requires 0 <= j < |s.fields| =>
      Flatten(FieldPieces(v, ChildName(parent, s.fields[j].0), s.fields[j].1)))
  }

  lemma {:induction false} JoinedFieldsText(v: Variant, parent: Option<string>, s: Schema, i: nat)
    requires Renderable(v, s)
    requires i <= |s.fields|
    ensures Flatten(JoinedFields(v, parent, s, i)) == Join(RenderedFields(v, parent, s)[i..], "\n")
    decreases |s.fields| - i
  {
    var all := RenderedFields(v, parent, s);
    if i < |s.fields| {
      var here := FieldPieces(v, ChildName(parent, s.fields[i].0), s.fields[i].1);
      assert all[i] == Flatten(here);
      if i + 1 < |s.fields| {
        JoinedFieldsText(v, parent, s, i + 1);
        SeparatedText(here, JoinedFields(v, parent, s, i + 1));
        JoinStep(all, i, "\n");
      } else {
        assert all[i..] == [all[i]];
      }
    }
  }

  /** Two runs of pieces with a "\n" text between them read as their texts
      with a "\n" between them. */
  lemma SeparatedText(a: seq<Piece>, b: seq<Piece>)
    ensures Flatten(a + [Text("\n")] + b) == Flatten(a) + "\n" + Flatten(b)
  {
    FlattenAppend(a, [Text("\n")]);
    FlattenAppend(a + [Text("\n")], b);
    assert Flatten([Text("\n")]) == "\n";
  }

  /** The whole form is its top-level fields, each rendered, joined by
      "\n"; a fieldset is its opening (legend, and hint where shown), its
      children joined by "\n", and its closing. */
  lemma FormText(v: Variant, s: Schema, name: string, hint: Option<string>)
    requires Renderable(v, s)
    ensures Renderable(v, TopLevel(v, s))
    ensures GenerateForm(v, s) == Join(RenderedFields(v, None, TopLevel(v, s)), "\n")
    ensures Flatten(FieldsetPieces(v, name, s, hint))
      == FieldsetOpen(v, name, hint) + Join(RenderedFields(v, Some(name), s), "\n") + FieldsetClose
  {
    TopLevelRenderable(v, s);
    var t := TopLevel(v, s);
    JoinedFieldsText(v, None, t, 0);
    assert RenderedFields(v, None, t)[0..] == RenderedFields(v, None, t);
    JoinedFieldsText(v, Some(name), s, 0);
    assert RenderedFields(v, Some(name), s)[0..] == RenderedFields(v, Some(name), s);
    var mid := JoinedFields(v, Some(name), s, 0);
    FlattenConcat([Text(FieldsetOpen(v, name, hint))], mid);
    FlattenConcat([Text(FieldsetOpen(v, name, hint))] + mid, [Text(FieldsetClose)]);
    assert Flatten([Text(FieldsetClose)]) == FieldsetClose;
    assert Flatten([Text(FieldsetOpen(v, name, hint))]) == FieldsetOpen(v, name, hint);
  }

  // ---------------------------------------------------------------------
  // Which controls are emitted, and under which names

  function Drop1(p: seq<string>): seq<string> {
    if p == [] then [] else p[1..]
  }

  /** The name for leaf path `p` below `parent`. */
  function PathName(parent: Option<string>, p: seq<string>): string {
    match parent
    case None => if p == [] then "" else BracketName(p)
    case Some(n) => n + Brackets(p)
  }

  /** The names of leaf paths `ps` below `parent`. */
  function PathNames(parent: Option<string>, ps: seq<seq<string>>): seq<string> {
    seq(|ps|, j requires 0 <= j < |ps| => PathName(parent, ps[j]))
  }

  /** The names of leaf paths `ps` relative to a field named `name`: the
      first key of each path is the field's own. */
  function RelativeNames(name: string, ps: seq<seq<string>>): seq<string> {
    seq(|ps|, j requires 0 <= j < |ps| => name + Brackets(Drop1(ps[j])))
  }

  lemma PathNamesConcat(parent: Option<string>, a: seq<seq<string>>, b: seq<seq<string>>)
    ensures PathNames(parent, a + b) == PathNames(parent, a) + PathNames(parent, b)
  {
  }

  lemma RelativeIsPathName(parent: Option<string>, k: string, p: seq<string>)
    requires |p| >= 1 && p[0] == k
    ensures ChildName(parent, k) + Brackets(Drop1(p)) == PathName(parent, p)
  {
    assert p == [k] + p[1..];
    assert Brackets(p) == "[" + k + "]" + Brackets(p[1..]);
  }

  lemma RelativeIsPathNames(parent: Option<string>, k: string, ps: seq<seq<string>>)
    requires forall p | p in ps :: |p| >= 1 && p[0] == k
    ensures RelativeNames(ChildName(parent, k), ps) == PathNames(parent, ps)
  {
    forall j | 0 <= j < |ps|
      ensures RelativeNames(ChildName(parent, k), ps)[j] == PathNames(parent, ps)[j]
    {
      assert ps[j] in ps;
      RelativeIsPathName(parent, k, ps[j]);
    }
  }

  /** A field emits one control per leaf below it, in depth-first insertion
      order, the control of the leaf at relative path `q` being named
      `name` followed by `q` in brackets. */
  lemma {:induction false} FieldControlNames(v: Variant, name: string, k: string, e: Entry)
    requires EntryRenderable(v, e)
    ensures ControlNames(FieldPieces(v, name, e)) == RelativeNames(name, EntryLeafPaths(k, e))
    decreases e, 0
  {
    if e.kind == Some("schema") {
      var c := e.schema.value;
      JoinedControlNames(v, Some(name), c, 0);
      FieldsetControlNames(v, name, e.hint, c);
      PrefixedRelative(name, k, LeafPaths(c));
    } else {
      InputControlNames(v, name, e);
      assert EntryLeafPaths(k, e) == [[k]];
      assert Drop1([k]) == [];
      assert name + Brackets([]) == name;
    }
  }

  /** A fieldset's controls are its children's, in order. */
  lemma FieldsetControlNames(v: Variant, name: string, hint: Option<string>, c: Schema)
    requires Renderable(v, c)
    ensures ControlNames(FieldsetPieces(v, name, c, hint)) == ControlNames(JoinedFields(v, Some(name), c, 0))
  {
    var mid := JoinedFields(v, Some(name), c, 0);
    ControlNamesAppend([Text(FieldsetOpen(v, name, hint))], mid);
    ControlNamesAppend([Text(FieldsetOpen(v, name, hint))] + mid, [Text(FieldsetClose)]);
    assert ControlNames([Text(FieldsetClose)]) == [];
    assert ControlNames([Text(FieldsetOpen(v, name, hint))]) == [];
  }

  /** An input block emits the one control named after the field. */
  lemma InputControlNames(v: Variant, name: string, e: Entry)
    requires e.kind == Some("select") ==> e.options.Some?
    ensures ControlNames(InputPieces(v, name, e)) == [name]
  {
    var ps := InputPieces(v, name, e);
    assert ControlNames(ps[2..]) == [];
    assert ControlNames(ps[1..]) == [name];
  }

  /** Names relative to a field below key `k` drop the `k` again. */
  lemma PrefixedRelative(name: string, k: string, inner: seq<seq<string>>)
    ensures RelativeNames(name, Prefixed(k, inner)) == PathNames(Some(name), inner)
  {
    var leaves := Prefixed(k, inner);
    forall j | 0 <= j < |leaves| ensures Drop1(leaves[j]) == inner[j] {
      assert leaves[j] == [k] + inner[j];
    }
  }

  lemma {:induction false} JoinedControlNames(v: Variant, parent: Option<string>, s: Schema, i: nat)
    requires Renderable(v, s)
    ensures ControlNames(JoinedFields(v, parent, s, i)) == PathNames(parent, LeafPathsFrom(s, i))
    decreases s, 1, |s.fields| - i
  {
    if i < |s.fields| {
      var k := s.fields[i].0;
      var e := s.fields[i].1;
      var mine := EntryLeafPaths(k, e);
      var later := LeafPathsFrom(s, i + 1);
      assert LeafPathsFrom(s, i) == mine + later;
      JoinedFieldsStep(v, parent, s, i);
      FieldControlNames(v, ChildName(parent, k), k, e);
      EntryLeafPathsStart(k, e);
      RelativeIsPathNames(parent, k, mine);
      PathNamesConcat(parent, mine, later);
      JoinedControlNames(v, parent, s, i + 1);
    } else {
      assert LeafPathsFrom(s, i) == [];
    }
  }

  /** One field, then the rest. */
  lemma JoinedFieldsStep(v: Variant, parent: Option<string>, s: Schema, i: nat)
    requires Renderable(v, s) && i < |s.fields|
    ensures ControlNames(JoinedFields(v, parent, s, i))
      == ControlNames(FieldPieces(v, ChildName(parent, s.fields[i].0), s.fields[i].1))
         + ControlNames(JoinedFields(v, parent, s, i + 1))
  {
    var here := FieldPieces(v, ChildName(parent, s.fields[i].0), s.fields[i].1);
    if i + 1 < |s.fields| {
      FlattenConcat(here, [Text("\n")]);
      FlattenConcat(here + [Text("\n")], JoinedFields(v, parent, s, i + 1));
      assert ControlNames([Text("\n")]) == [];
    } else {
      assert ControlNames(here) + [] == ControlNames(here);
    }
  }

  /** Every leaf path of a field starts with the field's key. */
  lemma EntryLeafPathsStart(k: string, e: Entry)
    ensures forall p | p in EntryLeafPaths(k, e) :: |p| >= 1 && p[0] == k
  {
  }

  function EntryLeafSum(f: (string, Entry)): nat {
    EntryLeafCount(f.1)
  }

  lemma {:induction false} LeafCountIsSum(s: Schema, i: nat)
    requires i <= |s.fields|
    ensures |LeafPathsFrom(s, i)| == SumBy(s.fields[i..], EntryLeafSum)
    decreases |s.fields| - i
  {
    if i < |s.fields| {
      LeafCountIsSum(s, i + 1);
      assert s.fields[i..][1..] == s.fields[i + 1..];
      assert |EntryLeafPaths(s.fields[i].0, s.fields[i].1)| == EntryLeafCount(s.fields[i].1);
    }
  }

  /** The form emits exactly one control per non-container entry, counted
      through every level, named by its full bracket path, in the order of
      the (possibly sorted) top level and insertion order below it. */
  lemma FormControls(v: Variant, s: Schema)
    requires Renderable(v, s)
    ensures var leaves := LeafPaths(TopLevel(v, s));
      && (forall j | 0 <= j < |leaves| :: leaves[j] != [])
      && ControlNames(FormPieces(v, s)) == PathNames(None, leaves)
    ensures |ControlNames(FormPieces(v, s))| == LeafCount(s)
  {
    TopLevelRenderable(v, s);
    var t := TopLevel(v, s);
    var leaves := LeafPaths(t);
    JoinedControlNames(v, None, t, 0);
    LeafPathsShape(t, 0);
    forall j | 0 <= j < |leaves| ensures leaves[j] != [] {
      assert leaves[j] in LeafPathsFrom(t, 0);
    }
    LeafCountIsSum(t, 0);
    LeafCountIsSum(s, 0);
    assert t.fields[0..] == t.fields && s.fields[0..] == s.fields;
    if v.sortTopLevel {
      SumBySort(s.fields, PositionKey, EntryLeafSum);
    }
  }

  // ---------------------------------------------------------------------
  // Where the renderers differ

  /** A renderer that does not show fieldset hints renders a container the
      same with or without one. */
  lemma FieldsetIgnoresHint(v: Variant, name: string, e: Entry)
    requires !v.fieldsetHint
    requires EntryRenderable(v, e) && e.kind == Some("schema")
    ensures FieldPieces(v, name, e) == FieldPieces(v, name, e.(hint := None))
  {
  }

  /** Options read the same in both accepted shapes. */
  lemma OptionShapesAgree(value: string, text: string)
    ensures OptionHtml(TupleOption(value, text)) == OptionHtml(ObjectOption(value, text))
    ensures OptionHtml(TupleOption(value, text)) == "<option value=\"" + value + "\">" + text + "</option>"
  {
  }

  /** With a placeholder every variant opens the select with it; without
      one only a renderer that always emits the empty option writes
      "Select...", the others write nothing. */
  lemma LeadingOptionCases(v: Variant, placeholder: Option<string>)
    ensures Truthy(placeholder) ==> LeadingOption(v, placeholder) == "<option value=\"\">" + placeholder.value + "</option>"
    ensures !Truthy(placeholder) && v.alwaysEmptyOption ==> LeadingOption(v, placeholder) == "<option value=\"\">Select...</option>"
    ensures !Truthy(placeholder) && !v.alwaysEmptyOption ==> LeadingOption(v, placeholder) == ""
  {
  }

  /** The pass-through attributes depend on `position`, `optionsRaw` and
      the remaining properties only, and a present position is always
      written out. */
  lemma AttrsIgnoreDisplayProperties(e: Entry, e': Entry)
    requires e.position == e'.position && e.optionsRaw == e'.optionsRaw && e.extras == e'.extras
    ensures Attrs(e) == Attrs(e')
    ensures e.position.Some? ==> ("position", IntToString(e.position.value)) in AttrPairs(e)
    ensures forall kv | kv in AttrPairs(e) :: kv.0 == "position" || kv.0 == "optionsRaw" || kv in e.extras
  {
    if e.position.Some? {
      assert AttrPairs(e)[0] == ("position", IntToString(e.position.value));
    }
  }

  /** A top level already in position order is rendered in insertion
      order. */
  lemma SortedTopLevelUnchanged(v: Variant, s: Schema)
    requires SortedBy(s.fields, PositionKey)
    ensures TopLevel(v, s) == s
  {
    SortBySortedIdentity(s.fields, PositionKey);
  }

  /** The sorted top level is in ascending position, and fields with equal
      positions keep their insertion order. */
  lemma TopLevelOrder(v: Variant, s: Schema, p: int)
    requires v.sortTopLevel
    ensures SortedBy(TopLevel(v, s).fields, PositionKey)
    ensures WithKey(TopLevel(v, s).fields, PositionKey, p) == WithKey(s.fields, PositionKey, p)
  {
    SortBySorted(s.fields, PositionKey);
    SortByStable(s.fields, PositionKey, p);
  }
}
