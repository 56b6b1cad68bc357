/**
 * The schema builder component (frontend/src/components/SchemaBuilder.tsx):
 * its `schema`, `title` and `error` state, the edits that replace the
 * schema, the option-text normalisation run before validation, and the
 * checks of `handleSave`.
 */
module SchemaBuilderComponent {
  import opened Base
  import opened SchemaModel
  import opened SchemaOperations
  import opened SchemaValidation
  import opened SchemaEditing

  // ---------------------------------------------------------------------
  // Option text: one `value,label` pair per line

  /** `optionsRaw.split("\n").filter(Boolean)` */
  function OptionLines(raw: string): (lines: seq<string>)
    ensures forall i | 0 <= i < |lines| :: lines[i] != ""
  {
    NonEmpty(Split(raw, '\n'))
  }

  /** The lines are exactly the non-empty pieces between newlines. */
  lemma OptionLinesPieces(raw: string)
    ensures forall i | 0 <= i < |OptionLines(raw)| :: '\n' !in OptionLines(raw)[i] && OptionLines(raw)[i] in Split(raw, '\n')
    ensures forall x | x in Split(raw, '\n') && x != "" :: x in OptionLines(raw)
  {
    NonEmptyKeeps(Split(raw, '\n'));
  }

  /** One line: exactly two comma-separated parts, each trimmed. */
  function ParseLine(line: string): (o: Option<SelectOption>)
  {
    var parts := Split(line, ',');
    if |parts| != 2 then None
    else Some(ObjectOption(Trim(parts[0]), Trim(parts[1])))
  }

  /** A line parses exactly when it holds one comma; what it gives has no
      comma and no surrounding space, so writing it out and parsing again
      gives it back. */
  lemma ParseLineAccepts(line: string)
    ensures ParseLine(line).Some? <==> CountChar(line, ',') == 1
    ensures ParseLine(line).Some? ==>
      var o := ParseLine(line).value;
      && ',' !in o.value && ',' !in o.labelText
      && Trim(o.value) == o.value && Trim(o.labelText) == o.labelText
  {
    var parts := Split(line, ',');
    if |parts| == 2 {
      TrimIsSlice(parts[0]);
      TrimIsSlice(parts[1]);
      TrimIdempotent(parts[0]);
      TrimIdempotent(parts[1]);
    }
  }

  /** A trimmed value and label without commas, written as a line, parse
      back to themselves. */
  lemma {:induction false} ParseLineRoundTrip(value: string, labelText: string)
    requires ',' !in value && ',' !in labelText
    requires Trim(value) == value && Trim(labelText) == labelText
    ensures ParseLine(value + "," + labelText) == Some(ObjectOption(value, labelText))
  {
    var line := value + "," + labelText;
    assert line == value + [','] + labelText;
    SplitAtFirst(value, ',', labelText);
    SplitWithoutSep(labelText, ',');
    assert Split(line, ',') == [value, labelText];
  }

  function OptionFormatError(fieldPath: seq<string>, lineNumber: nat, line: string): string {
    "Select field \"" + Dotted(fieldPath) + "\" has invalid option format on line "
      + NatToString(lineNumber) + ": \"" + line + "\". Each line must be value,label."
  }

  /** The first line from `i` on that does not parse. */
  function FirstBadLine(lines: seq<string>, i: nat): (r: Option<nat>)
    requires i <= |lines|
    ensures r.None? <==> forall j | i <= j < |lines| :: ParseLine(lines[j]).Some?
    ensures r.Some? ==> i <= r.value < |lines| && ParseLine(lines[r.value]).None?
    ensures r.Some? ==> forall j | i <= j < r.value :: ParseLine(lines[j]).Some?
    decreases |lines| - i
  {
    if i == |lines| then None
    else if ParseLine(lines[i]).None? then Some(i)
    else FirstBadLine(lines, i + 1)
  }

  function ParsedLines(lines: seq<string>): (options: seq<SelectOption>)
    requires forall j | 0 <= j < |lines| :: ParseLine(lines[j]).Some?
    ensures |options| == |lines|
  {
    seq(|lines|, j requires 0 <= j < |lines| => ParseLine(lines[j]).value)
  }

  /** The loop over the lines of one select field: the options read, or
      the message for the first bad line, counted from 1 among the
      non-empty lines. */
  method ParseOptionsRaw(raw: string, fieldPath: seq<string>) returns (options: seq<SelectOption>, err: Option<string>)
    ensures var lines := OptionLines(raw);
      && (err.None? <==> FirstBadLine(lines, 0).None?)
      && (err.None? ==> options == ParsedLines(lines))
      && (err.Some? ==> var b := FirstBadLine(lines, 0).value; err.value == OptionFormatError(fieldPath, b + 1, lines[b]))
  {
    var lines := OptionLines(raw);
    options := [];
    err := None;
    var i := 0;
    while i < |lines|
      invariant 0 <= i <= |lines|
      invariant err.None?
      invariant forall j | 0 <= j < i :: ParseLine(lines[j]).Some?
      invariant |options| == i
      invariant forall j | 0 <= j < i :: options[j] == ParseLine(lines[j]).value
      invariant FirstBadLine(lines, 0) == FirstBadLine(lines, i)
    {
      var parts := Split(lines[i], ',');
      if |parts| != 2 {
        err := Some(OptionFormatError(fieldPath, i + 1, lines[i]));
        break;
      }
      var option := ObjectOption(Trim(parts[0]), Trim(parts[1]));
      assert ParseLine(lines[i]) == Some(option);
      FirstBadPast(lines, i);
      ParsedStep(lines, options, i, option);
      options := options + [option];
      i := i + 1;
    }
    if err.None? {
      assert options == ParsedLines(lines);
    } else {
      assert FirstBadLine(lines, i) == Some(i);
    }
  }

  /** One more good line extends the options read so far by its option. */
  lemma ParsedStep(lines: seq<string>, options: seq<SelectOption>, i: nat, option: SelectOption)
    requires i < |lines| && |options| == i && ParseLine(lines[i]) == Some(option)
    requires forall j | 0 <= j < i :: ParseLine(lines[j]).Some? && options[j] == ParseLine(lines[j]).value
    ensures forall j | 0 <= j < i + 1 :: ParseLine(lines[j]).Some? && (options + [option])[j] == ParseLine(lines[j]).value
  {
  }

  /** A good line does not change where the first bad line is. */
  lemma FirstBadPast(lines: seq<string>, i: nat)
    requires i < |lines| && ParseLine(lines[i]).Some?
    ensures FirstBadLine(lines, i) == FirstBadLine(lines, i + 1)
  {
  }

  // ---------------------------------------------------------------------
  // processSchema: the walk over a deep copy, threading `optionsError`

  /** One field of the walk: the field as it ends up in the copy, the
      error afterwards, and whether the level's loop stops here. A select
      field with option text stops the loop once an error is set, by it or
      before it; a container is walked with the error as it stands. */
  function ProcessEntry(f: Entry, fieldPath: seq<string>, err: Option<string>): (r: (Entry, Option<string>, bool))
    ensures r.2 ==> r.1.Some? && r.0 == f
    ensures err.Some? ==> r.1.Some?
    decreases f, 0
  {
    if f.kind == Some("select") && f.optionsRaw.Some? then
      var lines := OptionLines(f.optionsRaw.value);
      var bad := FirstBadLine(lines, 0);
      var err' := if bad.Some? then Some(OptionFormatError(fieldPath, bad.value + 1, lines[bad.value])) else err;
      if err'.Some? then (f, err', true)
      else (f.(options := Some(ParsedLines(lines))), None, false)
    else if f.kind == Some("schema") && f.schema.Some? then
      var r := ProcessLevel(f.schema.value, fieldPath, err);
      (f.(schema := Some(r.0)), r.1, false)
    else (f, err, false)
  }

  /** The fields from `i` on as the walk leaves them, and the error. */
  function ProcessFrom(s: Schema, path: seq<string>, i: nat, err: Option<string>): (r: (seq<(string, Entry)>, Option<string>))
    requires i <= |s.fields|
    ensures |r.0| == |s.fields| - i
    ensures err.Some? ==> r.1.Some?
    decreases s, 1, |s.fields| - i
  {
    if i == |s.fields| then ([], err)
    else
      var step := ProcessEntry(s.fields[i].1, path + [s.fields[i].0], err);
      if step.2 then (s.fields[i..], step.1)
      else
        var rest := ProcessFrom(s, path, i + 1, step.1);
        ([(s.fields[i].0, step.0)] + rest.0, rest.1)
  }

  function ProcessLevel(s: Schema, path: seq<string>, err: Option<string>): (r: (Schema, Option<string>))
    ensures err.Some? ==> r.1.Some?
    decreases s, 2
  {
    var r := ProcessFrom(s, path, 0, err);
    (Schema(r.0), r.1)
  }

  /** `processSchema(s, path)`: a recursive walk whose loop updates the
      copy field by field and stops at the `break`. It ends with an error
      exactly when one was set before or a reachable select field has a
      bad line, and that error is the earlier one or names such a field's
      path and first bad line; without one, the copy is the normalised
      schema. */
  method ProcessSchema(s: Schema, path: seq<string>, err: Option<string>) returns (r: Schema, errOut: Option<string>)
    ensures r == ProcessLevel(s, path, err).0 && errOut == ProcessLevel(s, path, err).1
    ensures errOut.None? <==> err.None? && !HasBadOptions(s)
    ensures errOut == err || (errOut.Some? && errOut.value in BadOptionMessages(s, path))
    ensures errOut.None? ==> !HasBadOptions(s) && r == Normalised(s)
    decreases s, 2
  {
    var fields;
    fields, errOut := ProcessFields(s, path, err);
    r := Schema(fields);
    ProcessSummary(s, path, err);
  }

  /** The loop of `processSchema`: the copy's fields, updated one by one
      until the `break`, and the error afterwards. Nothing follows the
      loop, so the `break` is a `return` here. */
  method ProcessFields(s: Schema, path: seq<string>, err: Option<string>) returns (fields: seq<(string, Entry)>, errOut: Option<string>)
    ensures fields == ProcessFrom(s, path, 0, err).0 && errOut == ProcessFrom(s, path, 0, err).1
    decreases s, 1
  {
    fields := s.fields;
    errOut := err;
    var i := 0;
    ghost var target := ProcessFrom(s, path, 0, err);
    ProcessStart(s, path, err, target);
    while i < |fields|
      invariant 0 <= i <= |fields| == |s.fields|
      invariant fields[i..] == s.fields[i..]
      invariant target.0 == fields[..i] + ProcessFrom(s, path, i, errOut).0
      invariant target.1 == ProcessFrom(s, path, i, errOut).1
    {
      var key := s.fields[i].0;
      ghost var errBefore := errOut;
      var field, stop;
      field, errOut, stop := ProcessField(s.fields[i].1, path + [key], errOut);
      if stop {
        ProcessStopped(s, path, i, errBefore, fields, target);
        return;
      }
      ProcessAdvance(s, path, i, errBefore, fields, target, field, errOut);
      fields := fields[i := (key, field)];
      i := i + 1;
    }
    ProcessDone(s, path, errOut, fields, target);
  }

  /** Before the loop nothing is processed yet. */
  lemma ProcessStart(s: Schema, path: seq<string>, err: Option<string>, target: (seq<(string, Entry)>, Option<string>))
    requires target == ProcessFrom(s, path, 0, err)
    ensures target.0 == s.fields[..0] + ProcessFrom(s, path, 0, err).0
  {
    assert s.fields[..0] == [];
  }

  /** What the walk's result means, gathered for the method. */
  lemma ProcessSummary(s: Schema, path: seq<string>, err: Option<string>)
    ensures var r := ProcessLevel(s, path, err);
      && (r.1.None? <==> err.None? && !HasBadOptions(s))
      && (r.1 == err || (r.1.Some? && r.1.value in BadOptionMessages(s, path)))
      && (r.1.None? ==> !HasBadOptions(s) && r.0 == Normalised(s))
  {
    ProcessLevelFails(s, path, err);
    ProcessLevelReports(s, path, err);
    if err.None? && !HasBadOptions(s) {
      ProcessLevelClean(s, path);
    }
  }

  /** A field that stops the walk leaves the rest of the level as it was. */
  lemma ProcessStopped(s: Schema, path: seq<string>, i: nat, err: Option<string>,
                       fields: seq<(string, Entry)>, target: (seq<(string, Entry)>, Option<string>))
    requires i < |s.fields| == |fields|
    requires fields[i..] == s.fields[i..]
    requires target.0 == fields[..i] + ProcessFrom(s, path, i, err).0
    requires target.1 == ProcessFrom(s, path, i, err).1
    requires ProcessEntry(s.fields[i].1, path + [s.fields[i].0], err).2
    ensures target == (fields, ProcessEntry(s.fields[i].1, path + [s.fields[i].0], err).1)
  {
    ProcessFromStep(s, path, i, err);
    assert fields == fields[..i] + fields[i..];
  }

  /** Past the last field the walk has nothing left to change. */
  lemma ProcessDone(s: Schema, path: seq<string>, err: Option<string>,
                    fields: seq<(string, Entry)>, target: (seq<(string, Entry)>, Option<string>))
    requires |fields| == |s.fields|
    requires target.0 == fields[..|fields|] + ProcessFrom(s, path, |fields|, err).0
    requires target.1 == ProcessFrom(s, path, |fields|, err).1
    ensures target == (fields, err)
  {
    assert ProcessFrom(s, path, |s.fields|, err) == ([], err);
    assert fields[..|fields|] + [] == fields;
    assert target.0 == fields && target.1 == err;
  }

  lemma ProcessFromStep(s: Schema, path: seq<string>, i: nat, err: Option<string>)
    requires i < |s.fields|
    ensures var step := ProcessEntry(s.fields[i].1, path + [s.fields[i].0], err);
      && (step.2 ==> ProcessFrom(s, path, i, err).0 == s.fields[i..] && ProcessFrom(s, path, i, err).1 == step.1)
      && (!step.2 ==>
           && ProcessFrom(s, path, i, err).0 == [(s.fields[i].0, step.0)] + ProcessFrom(s, path, i + 1, step.1).0
           && ProcessFrom(s, path, i, err).1 == ProcessFrom(s, path, i + 1, step.1).1)
  {
  }

  /** The loop's invariant survives a field that does not stop the walk. */
  lemma ProcessAdvance(s: Schema, path: seq<string>, i: nat, err: Option<string>,
                       fields: seq<(string, Entry)>, target: (seq<(string, Entry)>, Option<string>),
                       field: Entry, errAfter: Option<string>)
    requires i < |s.fields| == |fields|
    requires fields[i..] == s.fields[i..]
    requires target.0 == fields[..i] + ProcessFrom(s, path, i, err).0
    requires target.1 == ProcessFrom(s, path, i, err).1
    requires ProcessEntry(s.fields[i].1, path + [s.fields[i].0], err) == (field, errAfter, false)
    ensures fields[i := (s.fields[i].0, field)][i + 1..] == s.fields[i + 1..]
    ensures target.0 == fields[i := (s.fields[i].0, field)][..i + 1] + ProcessFrom(s, path, i + 1, errAfter).0
    ensures target.1 == ProcessFrom(s, path, i + 1, errAfter).1
  {
    ProcessFromStep(s, path, i, err);
    WriteThenTake(fields, i, (s.fields[i].0, field), ProcessFrom(s, path, i + 1, errAfter).0);
  }

  /** The body of the walk's loop for one field. */
  method ProcessField(f: Entry, fieldPath: seq<string>, err: Option<string>) returns (field: Entry, errOut: Option<string>, stop: bool)
    ensures field == ProcessEntry(f, fieldPath, err).0
    ensures errOut == ProcessEntry(f, fieldPath, err).1
    ensures stop == ProcessEntry(f, fieldPath, err).2
    decreases f, 0
  {
    field := f;
    errOut := err;
    stop := false;
    if field.kind == Some("select") && field.optionsRaw.Some? {
      var options, lineErr := ParseOptionsRaw(field.optionsRaw.value, fieldPath);
      if lineErr.Some? {
        errOut := lineErr;
      }
      if errOut.Some? {
        stop := true;
        return;
      }
      field := field.(options := Some(options));
    }
    if field.kind == Some("schema") && field.schema.Some? {
      var c;
      c, errOut := ProcessSchema(field.schema.value, fieldPath, errOut);
      field := field.(schema := Some(c));
    }
  }

  /** Some select field, at any depth the walk reaches, has a line that
      does not parse. */
  predicate HasBadOptions(s: Schema)
    decreases s, 1
  {
    exists i | 0 <= i < |s.fields| :: EntryHasBadOptions(s.fields[i].1)
  }

  predicate EntryHasBadOptions(e: Entry)
    decreases e, 0
  {
    || (e.kind == Some("select") && e.optionsRaw.Some? && FirstBadLine(OptionLines(e.optionsRaw.value), 0).Some?)
    || (e.kind == Some("schema") && e.schema.Some? && HasBadOptions(e.schema.value))
  }

  /** The copy the walk produces when no line is bad: every select field
      with option text gets the options it reads, level by level. */
  function Normalised(s: Schema): (r: Schema)
    requires !HasBadOptions(s)
    ensures Keys(r) == Keys(s)
    decreases s, 1
  {
    var r := Schema(seq(|s.fields|, i requires 0 <= i < |s.fields| => (s.fields[i].0, NormalisedEntry(s.fields[i].1))));
    assert forall i | 0 <= i < |s.fields| :: Keys(r)[i] == Keys(s)[i];
    r
  }

  function NormalisedEntry(e: Entry): Entry
    requires !EntryHasBadOptions(e)
    decreases e, 0
  {
    if e.kind == Some("select") && e.optionsRaw.Some? then
      e.(options := Some(ParsedLines(OptionLines(e.optionsRaw.value))))
    else if e.kind == Some("schema") && e.schema.Some? then
      e.(schema := Some(Normalised(e.schema.value)))
    else e
  }

  /** The walk ends with an error exactly when one was set on entry or
      some reachable select field has a bad line. */
  lemma {:induction false} ProcessLevelFails(s: Schema, path: seq<string>, err: Option<string>)
    ensures ProcessLevel(s, path, err).1.None? <==> err.None? && !HasBadOptions(s)
    decreases s, 2
  {
    ProcessFromFails(s, path, 0, err);
  }

  lemma {:induction false} ProcessFromFails(s: Schema, path: seq<string>, i: nat, err: Option<string>)
    requires i <= |s.fields|
    ensures ProcessFrom(s, path, i, err).1.None?
      <==> err.None? && forall j | i <= j < |s.fields| :: !EntryHasBadOptions(s.fields[j].1)
    decreases s, 1, |s.fields| - i
  {
    if i < |s.fields| {
      ProcessEntryFails(s.fields[i].1, path + [s.fields[i].0], err);
      var step := ProcessEntry(s.fields[i].1, path + [s.fields[i].0], err);
      ghost var restClean := forall j | i + 1 <= j < |s.fields| :: !EntryHasBadOptions(s.fields[j].1);
      assert (forall j | i <= j < |s.fields| :: !EntryHasBadOptions(s.fields[j].1))
        <==> !EntryHasBadOptions(s.fields[i].1) && restClean;
      if !step.2 {
        ProcessFromFails(s, path, i + 1, step.1);
        assert ProcessFrom(s, path, i, err).1 == ProcessFrom(s, path, i + 1, step.1).1;
      } else {
        assert ProcessFrom(s, path, i, err).1 == step.1;
      }
    }
  }

  lemma {:induction false} ProcessEntryFails(f: Entry, fieldPath: seq<string>, err: Option<string>)
    ensures ProcessEntry(f, fieldPath, err).1.None? <==> err.None? && !EntryHasBadOptions(f)
    decreases f, 0
  {
    if !(f.kind == Some("select") && f.optionsRaw.Some?) && f.kind == Some("schema") && f.schema.Some? {
      ProcessLevelFails(f.schema.value, fieldPath, err);
    }
  }

  /** The messages the walk can report: one for each select field with
      option text and a bad line, at any depth the walk reaches, naming
      that field's path and its first bad line, counted from 1. */
  function BadOptionMessages(s: Schema, path: seq<string>): set<string>
    decreases s, 2
  {
    BadOptionMessagesFrom(s, path, 0)
  }

  function BadOptionMessagesFrom(s: Schema, path: seq<string>, i: nat): set<string>
    decreases s, 1, |s.fields| - i
  {
    if i >= |s.fields| then {}
    else EntryBadOptionMessages(s.fields[i].1, path + [s.fields[i].0]) + BadOptionMessagesFrom(s, path, i + 1)
  }

  function EntryBadOptionMessages(f: Entry, fieldPath: seq<string>): set<string>
    decreases f, 0
  {
    if f.kind == Some("select") && f.optionsRaw.Some? then
      var lines := OptionLines(f.optionsRaw.value);
      match FirstBadLine(lines, 0)
      case None => {}
      case Some(b) => {OptionFormatError(fieldPath, b + 1, lines[b])}
    else if f.kind == Some("schema") && f.schema.Some? then BadOptionMessages(f.schema.value, fieldPath)
    else {}
  }

  /** The walk reports the error it started with, or the message of some
      reachable select field's first bad line. Which one it reports when
      several fields are bad is not the first in walk order: see
      `LaterSelectOverwritesNestedError`. */
  lemma {:induction false} ProcessLevelReports(s: Schema, path: seq<string>, err: Option<string>)
    ensures ProcessLevel(s, path, err).1 == err
      || (ProcessLevel(s, path, err).1.Some? && ProcessLevel(s, path, err).1.value in BadOptionMessages(s, path))
    decreases s, 2
  {
    ProcessFromReports(s, path, 0, err);
  }

  lemma {:induction false} ProcessFromReports(s: Schema, path: seq<string>, i: nat, err: Option<string>)
    requires i <= |s.fields|
    ensures ProcessFrom(s, path, i, err).1 == err
      || (ProcessFrom(s, path, i, err).1.Some? && ProcessFrom(s, path, i, err).1.value in BadOptionMessagesFrom(s, path, i))
    decreases s, 1, |s.fields| - i
  {
    if i < |s.fields| {
      var fieldPath := path + [s.fields[i].0];
      ProcessEntryReports(s.fields[i].1, fieldPath, err);
      var step := ProcessEntry(s.fields[i].1, fieldPath, err);
      if step.2 {
        assert ProcessFrom(s, path, i, err).1 == step.1;
      } else {
        ProcessFromReports(s, path, i + 1, step.1);
        assert ProcessFrom(s, path, i, err).1 == ProcessFrom(s, path, i + 1, step.1).1;
      }
    }
  }

  lemma {:induction false} ProcessEntryReports(f: Entry, fieldPath: seq<string>, err: Option<string>)
    ensures ProcessEntry(f, fieldPath, err).1 == err
      || (ProcessEntry(f, fieldPath, err).1.Some? && ProcessEntry(f, fieldPath, err).1.value in EntryBadOptionMessages(f, fieldPath))
    decreases f, 0
  {
    if !(f.kind == Some("select") && f.optionsRaw.Some?) && f.kind == Some("schema") && f.schema.Some? {
      ProcessLevelReports(f.schema.value, fieldPath, err);
    }
  }

  /** A select field whose only option line is `x`. */
  const BadSelect := NoProperties.(kind := Some("select"), optionsRaw := Some("x"))
  const InnerLevel := Schema([("x", BadSelect)])
  const TwoBadSelects := Schema([("a", Container(InnerLevel)), ("b", BadSelect)])

  /** The line `x` has no comma, so the field stops its level's loop with
      the message for line 1, whatever error came before. */
  lemma BadSelectStops(fieldPath: seq<string>, err: Option<string>)
    ensures ProcessEntry(BadSelect, fieldPath, err) == (BadSelect, Some(OptionFormatError(fieldPath, 1, "x")), true)
  {
    SplitWithoutSep("x", '\n');
    SplitWithoutSep("x", ',');
    assert OptionLines("x") == ["x"];
    assert ParseLine("x").None?;
    assert FirstBadLine(["x"], 0) == Some(0);
  }

  /** A nested select's error does not stop the enclosing level: a later
      bad select at the top level overwrites it. In `{a: {x: …}, b: …}`
      with both selects bad, the walk reports `b`, not `a.x`, although
      `a.x`'s message is one it could report and comes first. */
  lemma LaterSelectOverwritesNestedError()
    ensures OptionFormatError(["a", "x"], 1, "x") in BadOptionMessages(TwoBadSelects, [])
    ensures ProcessLevel(TwoBadSelects, [], None).1 == Some(OptionFormatError(["b"], 1, "x"))
  {
    NestedErrorReachable();
    NestedErrorOverwritten();
  }

  /** The select at `a.x` is bad and nested, so its message is the nested
      walk's error and one the whole walk can report. */
  lemma NestedSelectFails()
    ensures ProcessLevel(InnerLevel, ["a"], None).1 == Some(OptionFormatError(["a", "x"], 1, "x"))
    ensures BadOptionMessages(InnerLevel, ["a"]) == {OptionFormatError(["a", "x"], 1, "x")}
  {
    var nestedError := OptionFormatError(["a", "x"], 1, "x");
    assert ["a"] + ["x"] == ["a", "x"];
    BadSelectStops(["a", "x"], None);
    SplitWithoutSep("x", '\n');
    SplitWithoutSep("x", ',');
    assert FirstBadLine(OptionLines("x"), 0) == Some(0);
    assert EntryBadOptionMessages(BadSelect, ["a", "x"]) == {nestedError};
    assert BadOptionMessagesFrom(InnerLevel, ["a"], 1) == {};
    assert BadOptionMessagesFrom(InnerLevel, ["a"], 0)
      == EntryBadOptionMessages(BadSelect, ["a", "x"]) + BadOptionMessagesFrom(InnerLevel, ["a"], 1);
  }

  lemma NestedErrorReachable()
    ensures OptionFormatError(["a", "x"], 1, "x") in BadOptionMessages(TwoBadSelects, [])
  {
    NestedSelectFails();
    assert [] + ["a"] == ["a"];
    assert EntryBadOptionMessages(Container(InnerLevel), ["a"]) == {OptionFormatError(["a", "x"], 1, "x")};
    assert BadOptionMessagesFrom(TwoBadSelects, [], 0)
      == EntryBadOptionMessages(Container(InnerLevel), ["a"]) + BadOptionMessagesFrom(TwoBadSelects, [], 1);
  }

  lemma NestedErrorOverwritten()
    ensures ProcessLevel(TwoBadSelects, [], None).1 == Some(OptionFormatError(["b"], 1, "x"))
  {
    var nestedError := OptionFormatError(["a", "x"], 1, "x");
    NestedSelectFails();
    assert [] + ["a"] == ["a"] && [] + ["b"] == ["b"];
    BadSelectStops(["b"], Some(nestedError));
    var first := ProcessEntry(Container(InnerLevel), ["a"], None);
    assert first.1 == Some(nestedError) && !first.2;
    assert ProcessFrom(TwoBadSelects, [], 1, Some(nestedError)).1 == Some(OptionFormatError(["b"], 1, "x"));
  }

  /** Without a bad line the walk produces the normalised copy, wherever
      it starts. */
  lemma {:induction false} ProcessLevelClean(s: Schema, path: seq<string>)
    requires !HasBadOptions(s)
    ensures ProcessLevel(s, path, None) == (Normalised(s), None)
    decreases s, 2
  {
    ProcessFromClean(s, path, 0);
    assert ProcessFrom(s, path, 0, None).0 == Normalised(s).fields[0..];
  }

  lemma {:induction false} ProcessFromClean(s: Schema, path: seq<string>, i: nat)
    requires !HasBadOptions(s) && i <= |s.fields|
    ensures ProcessFrom(s, path, i, None).0 == Normalised(s).fields[i..]
    ensures ProcessFrom(s, path, i, None).1 == None
    decreases s, 1, |s.fields| - i
  {
    assert |Normalised(s).fields| == |Keys(Normalised(s))| == |s.fields|;
    if i < |s.fields| {
      assert !EntryHasBadOptions(s.fields[i].1);
      ProcessEntryClean(s.fields[i].1, path + [s.fields[i].0]);
      ProcessFromClean(s, path, i + 1);
      assert Normalised(s).fields[i..] == [Normalised(s).fields[i]] + Normalised(s).fields[i + 1..];
    }
  }

  lemma {:induction false} ProcessEntryClean(f: Entry, fieldPath: seq<string>)
    requires !EntryHasBadOptions(f)
    ensures ProcessEntry(f, fieldPath, None).0 == NormalisedEntry(f)
    ensures ProcessEntry(f, fieldPath, None).1 == None && !ProcessEntry(f, fieldPath, None).2
    decreases f, 0
  {
    if !(f.kind == Some("select") && f.optionsRaw.Some?) && f.kind == Some("schema") && f.schema.Some? {
      ProcessLevelClean(f.schema.value, fieldPath);
    }
  }

  // ---------------------------------------------------------------------
  // processAndValidateSchema and handleSave

  datatype SaveCheck = SaveCheck(valid: bool, error: Option<string>, copy: Schema)

  const TitleMessage := "Please enter a title for your form."

  // ---------------------------------------------------------------------
  // The component state

  /** Adding a fresh field at the end of a reachable level keeps the whole
      schema well-formed, and the level then reads back as the new one. */
  lemma AddedLastAt(s: Schema, parentPath: seq<string>, name: string)
    requires WellFormed(s) && Walkable(s, parentPath)
    requires !Has(NestedAt(s, parentPath), name)
    ensures WellFormed(UpdatedAt(s, parentPath, AddedLast(NestedAt(s, parentPath), name)))
    ensures NestedAt(UpdatedAt(s, parentPath, AddedLast(NestedAt(s, parentPath), name)), parentPath)
      == AddedLast(NestedAt(s, parentPath), name)
  {
    var level := AddedLast(NestedAt(s, parentPath), name);
    NestedWellFormed(s, parentPath);
    AddedLastWellFormed(NestedAt(s, parentPath), name);
    UpdatePreservesWellFormed(s, parentPath, level);
    UpdateThenGet(s, parentPath, level);
  }

  class SchemaBuilder {
    var schema: Schema
    var title: string
    var error: Option<string>

    /** Every level keeps its keys unique and no extra property shadows a
        known one. */
    ghost predicate Valid()
      reads this
    {
      WellFormed(schema)
    }

    constructor ()
      ensures schema == EmptySchema && title == "" && error == None
      ensures Valid()
    {
      schema := EmptySchema;
      title := "";
      error := None;
    }

    method SetTitle(t: string)
      modifies this`title
      ensures title == t
    {
      title := t;
    }

    /** `addField(parentPath)`: a `text` field under the first free
        `fieldN` name, last in the level and positioned after every
        sibling. Returns the key it added. */
    method AddField(parentPath: seq<string>) returns (name: string)
      requires Valid() && Walkable(schema, parentPath)
      modifies this`schema
      ensures Valid()
      ensures !Has(NestedAt(old(schema), parentPath), name)
      ensures exists n: nat | n >= 1 ::
        name == FieldName(n) && forall m: nat | 1 <= m < n :: Has(NestedAt(old(schema), parentPath), FieldName(m))
      ensures schema == UpdatedAt(old(schema), parentPath, AddedLast(NestedAt(old(schema), parentPath), name))
      ensures NestedAt(schema, parentPath) == AddedLast(NestedAt(old(schema), parentPath), name)
    {
      var parent := GetNestedSchema(schema, parentPath);
      name := GenerateUniqueFieldName(parent);
      var newLevel := AddedLast(parent, name);
      AddedLastAt(schema, parentPath, name);
      schema := UpdatedAt(schema, parentPath, newLevel);
    }

    /** `updateField(path, value)`: lays the patch over the entry the
        reversed path names. */
    method UpdateField(path: seq<string>, patch: Entry)
      requires Valid() && EntryWellFormed(patch)
      requires path != [] && Walkable(schema, ParentPath(path))
      modifies this`schema
      ensures Valid()
      ensures schema == UpdatedAt(old(schema), ParentPath(path),
        UpdatedLevel(NestedAt(old(schema), ParentPath(path)), FieldKey(path), patch))
    {
      var parentPath := ParentPath(path);
      var parent := GetNestedSchema(schema, parentPath);
      var newLevel := UpdatedLevel(parent, FieldKey(path), patch);
      UpdatedFieldAt(schema, path, patch);
      schema := UpdatedAt(schema, parentPath, newLevel);
    }

    /** `deleteField(path)`: removes the key from the level the reversed
        path names. */
    method DeleteField(path: seq<string>)
      requires Valid()
      requires path != [] && Walkable(schema, ParentPath(path))
      modifies this`schema
      ensures Valid()
      ensures schema == UpdatedAt(old(schema), ParentPath(path),
        Remove(NestedAt(old(schema), ParentPath(path)), FieldKey(path)))
    {
      var parentPath := ParentPath(path);
      var parent := GetNestedSchema(schema, parentPath);
      var newLevel := Remove(parent, FieldKey(path));
      DeletedFieldAt(schema, path);
      schema := UpdatedAt(schema, parentPath, newLevel);
    }

    /** `renameField(oldPath, newName)`: fails, naming the taken name and
        changing nothing, when `newName` is a key of the level or a name every
        object inherits (`SchemaEditing.NameTaken`); otherwise
        moves the entry to `newName`, first in the level. */
    method RenameField(oldPath: seq<string>, newName: string) returns (thrown: Option<string>)
      requires Valid()
      requires oldPath != [] && Walkable(schema, ParentPath(oldPath))
      requires Has(NestedAt(schema, ParentPath(oldPath)), FieldKey(oldPath))
      modifies this`schema
      ensures Valid()
      ensures var level := NestedAt(old(schema), ParentPath(oldPath));
        var r := RenamedFirst(level, FieldKey(oldPath), newName);
        && (r.Err? ==> thrown == Some(r.error) && schema == old(schema))
        && (r.Ok? ==> thrown == None && schema == UpdatedAt(old(schema), ParentPath(oldPath), r.value))
    {
      var parentPath := ParentPath(oldPath);
      var parent := GetNestedSchema(schema, parentPath);
      var r := RenamedFirst(parent, FieldKey(oldPath), newName);
      if r.Err? {
        return Some(r.error);
      }
      RenamedFirstAt(schema, oldPath, newName);
      schema := UpdatedAt(schema, parentPath, r.value);
      thrown := None;
    }

    /** `handleDragEnd`: reorders the level when the drag ends on another
        key of it, with both keys' insertion-order indices. */
    method HandleDragEnd(active: string, over: Option<string>, parentPath: seq<string>)
      requires Valid()
      modifies this`schema
      ensures Valid()
      ensures var level := NestedAt(old(schema), parentPath);
        match DragIndices(level, active, over)
        case None => schema == old(schema)
        case Some((o, n)) =>
          o < |level.fields| && Walkable(old(schema), parentPath)
          && schema == UpdatedAt(old(schema), parentPath, ReorderedLevel(level, o, n))
    {
      if over != Some(active) {
        var parent := GetNestedSchema(schema, parentPath);
        var oldIndex := IndexOf(Keys(parent), active);
        var newIndex := if over.Some? then IndexOf(Keys(parent), over.value) else -1;
        if oldIndex != -1 && newIndex != -1 {
          var r := ReorderFields(schema, parentPath, oldIndex, newIndex);
          ReorderedAt(schema, parentPath, oldIndex, newIndex);
          schema := r;
        }
      }
    }

    /** `processAndValidateSchema`: valid exactly when no option line is
        bad and the normalised copy passes the validator; an invalid result
        always carries a message, the option error first. */
    method ProcessAndValidateSchema() returns (c: SaveCheck)
      ensures c.valid <==> !HasBadOptions(schema) && SchemaOk(Normalised(schema))
      ensures HasBadOptions(schema) ==> c.error == ProcessLevel(schema, [], None).1
      ensures !HasBadOptions(schema) ==>
        c.copy == Normalised(schema) && c.error == ValidateSchema(Normalised(schema), []).error
      ensures c.valid <==> c.error.None?
    {
      var copy, optionsError := ProcessSchema(schema, [], None);
      ProcessLevelFails(schema, [], None);
      if optionsError.Some? {
        return SaveCheck(false, optionsError, copy);
      }
      ProcessLevelClean(schema, []);
      var validation := ValidateSchema(copy, []);
      ValidateSchemaSound(copy, []);
      if !validation.isValid {
        return SaveCheck(false, validation.error, copy);
      }
      c := SaveCheck(true, None, copy);
    }

    /** `handleSave`: a failed check is reported first, then a blank title;
        otherwise the error clears and the normalised copy is what is
        saved. */
    method HandleSave() returns (saved: Option<Schema>)
      modifies this`error
      ensures HasBadOptions(schema) ==> saved == None && error == ProcessLevel(schema, [], None).1 && error.Some?
      ensures !HasBadOptions(schema) && !SchemaOk(Normalised(schema)) ==>
        saved == None && error == ValidateSchema(Normalised(schema), []).error && error.Some?
      ensures !HasBadOptions(schema) && SchemaOk(Normalised(schema)) && Trim(title) == "" ==>
        saved == None && error == Some(TitleMessage)
      ensures !HasBadOptions(schema) && SchemaOk(Normalised(schema)) && Trim(title) != "" ==>
        saved == Some(Normalised(schema)) && error == None
    {
      var c := ProcessAndValidateSchema();
      if !c.valid {
        error := c.error;
        return None;
      }
      if Trim(title) == "" {
        error := Some(TitleMessage);
        return None;
      }
      error := None;
      saved := Some(c.copy);
    }
  }
}
