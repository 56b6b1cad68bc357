# html-forms-generator, modelled in Dafny

The system lets a user build a form schema in a browser editor and renders
that schema as an HTML form. A schema is an ordered map from field keys to
entries. An entry has a `type`, an optional label, hint and position, the
options of a `select`, and the nested schema of a `schema` entry (a
fieldset). Entries may also carry any other string-valued properties.

The model covers the following parts of the system:

- **Schema values** (`schema.dfy`, `SchemaModel`). JavaScript objects
  become ordered association lists, with key lookup, assignment (an existing
  key keeps its place, a new key goes last) and deletion. `WellFormed` says
  that every level has distinct keys and that extra properties do not shadow
  the named ones.
- **Tree operations** (`schema_operations.dfy`, from
  `frontend/src/utils/schemaOperations.ts`). This file covers nested lookup,
  the copy-on-write update along a path, the first free `fieldN` name, and
  reordering a level by position with renumbering.
- **Validation** (`schema_validation.dfy`, from
  `frontend/src/utils/schemaValidation.ts`). The first failure is reported
  at its dotted path. It is proved to agree exactly with a declarative
  validity predicate.
- **Three HTML renderers** (`form_rendering.dfy` plus one file per
  variant). They are `server/src/utils/formGenerator.ts` (the one in
  use), `server/src/formGenerator.ts` and `src/formGenerator.ts`. They
  share one renderer that produces a sequence of text pieces and named
  controls. A `Variant` record holds the six switches on which the three
  files differ: sorting the top level, hint markup, an always-present empty
  option, inline styles, fieldset hints, and tuple-only options.
- **The builder page** (`schema_builder.dfy`, from
  `frontend/src/components/SchemaBuilder.tsx`). This is a class holding the
  schema, the title and the error message, with add, update, delete, rename
  and drag, the `optionsRaw` text parser, and the save gate.
- **The editing operations shared by the page and the hook**
  (`schema_editing.dfy`). This file also covers the reversed parent path,
  the spread of an update patch, renaming to the first or the last place,
  and the drag indices.
- **The schema state hook** (`schema_manager.dfy`, from
  `frontend/src/hooks/useSchemaManager.ts`).
- **The inline key editor** (`field_editing.dfy`, from
  `frontend/src/hooks/useFieldEditing.ts`).
- **The response table's columns** (`form_responses.dfy`, from
  `frontend/src/components/FormResponses.tsx`).

Several behaviours of the code are worth knowing before using it, and each
is proved as a lemma.

Path handling:

- The editing operations take the parent path from `path.reverse()`. That
  reaches the right level only when the prefix of the path is a palindrome
  (`SchemaEditing.ParentPathExact`).
- The response table keys a field at path `a`, `b`, `c` as `a[b[c]`, but
  the form names its control `a[b][c]`. The two agree only up to depth two
  (`FormResponses.ColumnKeyAgainstName`).

Ordering:

- When several `select` fields have malformed option text, the builder
  does not report the first one. A nested walk sets the error without
  stopping its parent's loop, and a later malformed `select` overwrites it
  (`SchemaBuilderComponent.LaterSelectOverwritesNestedError`).

- Nested response columns have their position multiplied by 1000, but
  top-level columns do not. So a nested column can sort after a later
  top-level sibling (`FormResponses.NestedColumnAfterLaterSibling`).
- The drag handler reorders by insertion-order indices, while the reorder
  itself works on position order.
- The page adds a new field last, with the next position. The hook adds it
  first, with no position.
- The page renames a field into the first place of its level. The hook
  renames it into the last place.
- Both renames test the new name by reading it on the level, so a name
  every object inherits, such as `toString` or `constructor`, is refused
  as already existing.

## Model

| member | source | states |
|---|---|---|
| SchemaModel.PutIn | frontend/src/components/SchemaBuilder.tsx:60-63 | Assigning a key reads back the new entry and leaves every other key's lookup unchanged. An existing key keeps its place; a new key is appended. |
| SchemaModel.RemoveIn | frontend/src/components/SchemaBuilder.tsx:95-96 | Deleting a key removes it and only it. The remaining entries are a subset of the old ones and every other lookup is unchanged. |
| SchemaModel.SortByPosition | server/src/utils/formGenerator.ts:71 | Sorting the entries by position (a missing position counts as 0) is a permutation of the level. |
| SchemaModel.LeafPathsShape | server/src/utils/formGenerator.ts:48-68 | Every leaf path of a level starts with one of the level's keys. |
| SchemaOperations.GetNestedSchema | frontend/src/utils/schemaOperations.ts:3-12 | The loop that walks the path returns the level the path names. A missing key, or an entry without a nested schema, yields the empty level. |
| SchemaOperations.NestedAtBroken | frontend/src/utils/schemaOperations.ts:5-8 | A path with a step that names a missing key, or an entry without a nested schema, yields the empty level. |
| SchemaOperations.NestedAtAppend | frontend/src/utils/schemaOperations.ts:3-12 | From a resolving prefix `p`, walking `p + q` is walking `q` from the level at `p`, and it resolves exactly when that walk does. |
| SchemaOperations.ResolvesWalkable | frontend/src/utils/schemaOperations.ts:20-24 | A path that the lookup resolves can also be walked by the update. |
| SchemaOperations.UpdatedAt | frontend/src/utils/schemaOperations.ts:14-34 | Updating along an empty path replaces the schema. Otherwise the top level keeps its keys, with the first key appended if it was missing, and every other top-level key's entry is unchanged. A missing key named like an `Object.prototype` property is the exception listed under "## Left out". |
| SchemaOperations.UpdateThenGet | frontend/src/utils/schemaOperations.ts:14-34 | After an update at a walkable path, looking up that path returns exactly the new level. |
| SchemaOperations.NestedAtEmpty | frontend/src/utils/schemaOperations.ts:5-8 | Every path into the empty schema yields the empty schema. |
| SchemaOperations.UpdateLevels | frontend/src/utils/schemaOperations.ts:17-31 | After the update, the level at any prefix of the path is that level updated along the rest of the path. |
| SchemaOperations.UpdateAlongPath | frontend/src/utils/schemaOperations.ts:17-31 | At each step of the path, the level keeps its other entries and its keys (appending the step's key if missing). The stepped entry changes only in its nested schema. |
| SchemaOperations.UpdatePreservesWellFormed | frontend/src/utils/schemaOperations.ts:14-34 | Placing a well-formed level into a well-formed schema at a walkable path gives a well-formed schema. |
| SchemaOperations.PutPreservesWellFormed | frontend/src/utils/schemaOperations.ts:26-30 | Assigning a well-formed entry into a well-formed level keeps it well-formed. |
| SchemaOperations.FieldNameInjective | frontend/src/utils/schemaOperations.ts:39-43 | Distinct counters give distinct `fieldN` names. |
| SchemaOperations.GenerateUniqueFieldName | frontend/src/utils/schemaOperations.ts:36-47 | The result is `fieldN` for the least `N >= 1` that the level does not have. It is not a key of the level. |
| SchemaOperations.ReorderedPositions | frontend/src/utils/schemaOperations.ts:61-64 | After reordering, the i-th entry of the level has position i. |
| SchemaOperations.ReorderedKeys | frontend/src/utils/schemaOperations.ts:54-58 | The reordered keys are the position-sorted keys with one key moved from the old index to the new one. |
| SchemaOperations.ReorderedKeepsFields | frontend/src/utils/schemaOperations.ts:57-64 | Every field of the level survives the reorder with all its data except its position. |
| SchemaOperations.ReorderedInventsNothing | frontend/src/utils/schemaOperations.ts:57-64 | Every reordered field is an old field with a new position. |
| SchemaOperations.ReorderedLevelWellFormed | frontend/src/utils/schemaOperations.ts:49-66 | Reordering a well-formed level keeps it well-formed. |
| SchemaOperations.ReorderFields | frontend/src/utils/schemaOperations.ts:49-68 | The method returns the schema with the named level replaced by its reordered and renumbered version. |
| SchemaValidation.ValidateSchema | frontend/src/utils/schemaValidation.ts:3-46 | The result is valid exactly when there is no error. A valid result carries the passing message. |
| SchemaValidation.ValidateField | frontend/src/utils/schemaValidation.ts:14-39 | A field's result is valid exactly when it carries no error. A valid result is the passing result. |
| SchemaValidation.ValidateSchemaSound | frontend/src/utils/schemaValidation.ts:3-46 | The validator accepts a schema if and only if every level is non-empty and every field is acceptable. |
| SchemaValidation.ValidateFromSound | frontend/src/utils/schemaValidation.ts:11-41 | The field walk from index i accepts exactly when all fields from i on are acceptable. |
| SchemaValidation.ValidateFieldSound | frontend/src/utils/schemaValidation.ts:14-39 | The per-field check accepts exactly the fields that have a type, that have options if they are a `select`, and that have a passing nested schema if they are a `schema` entry. |
| SchemaValidation.FirstFailureReported | frontend/src/utils/schemaValidation.ts:11-40 | A failing walk returns the error of its first failing field, at that field's path, and every earlier field is acceptable. |
| SchemaValidation.ErrorNamesPath | frontend/src/utils/schemaValidation.ts:4-38 | Every error message is one of the four messages, placed at a dotted path that extends the validated level's path. |
| SchemaValidation.ErrorFromNamesPath | frontend/src/utils/schemaValidation.ts:11-40 | The same holds for the error of the field walk. |
| SchemaValidation.ErrorFieldNamesPath | frontend/src/utils/schemaValidation.ts:14-38 | The same holds for the error of one field. |
| FormRendering.DefaultLabelIsLastKey | server/src/utils/formGenerator.ts:3-7 | Without a label, the label of a bracketed control name is its last key, capitalised. |
| FormRendering.ValidIsRenderable | server/src/utils/formGenerator.ts:24-30 | Every schema the validator accepts has options on each `select` and a schema on each `schema` entry, which is what rendering needs. |
| FormRendering.JoinedFieldsText | server/src/utils/formGenerator.ts:48-61 | The pieces of a level's fields flatten to the rendered fields joined by newlines. |
| FormRendering.FormText | server/src/utils/formGenerator.ts:70-75 | The form is its top-level fields, rendered and joined by newlines. |
| FormRendering.FieldControlNames | server/src/utils/formGenerator.ts:63-68 | A field's controls are named by the bracket names of its leaf paths, in order. |
| FormRendering.JoinedControlNames | server/src/utils/formGenerator.ts:48-61 | A level's controls are named by the bracket names of its leaf paths, in order. |
| FormRendering.LeafCountIsSum | server/src/utils/formGenerator.ts:48-61 | A level's leaf count is the sum of its fields' leaf counts. |
| FormRendering.FormControls | server/src/utils/formGenerator.ts:13-75 | A form has one named control per leaf field, named by its leaf path, and no other control. |
| FormRendering.FieldsetIgnoresHint | server/src/formGenerator.ts:51-63 | Where fieldsets drop hints, a `schema` entry renders the same with or without a hint. |
| FormRendering.OptionShapesAgree | server/src/utils/formGenerator.ts:24-28 | A `[value, label]` option and a `{value, label}` option render the same `<option>`. |
| FormRendering.LeadingOptionCases | server/src/utils/formGenerator.ts:29 | A placeholder gives an empty-valued option with its text. Without one, the option reads `Select...` where that default exists and is absent otherwise. |
| FormRendering.AttrsIgnoreDisplayProperties | server/src/utils/formGenerator.ts:14-18 | A control's attributes depend only on the position, the raw option text and the other properties. They never come from type, label, hint, options, placeholder or schema, and a present position is always written. |
| FormRendering.SortedTopLevelUnchanged | server/src/utils/formGenerator.ts:71 | A top level already in position order is rendered in insertion order. |
| FormRendering.TopLevelOrder | server/src/utils/formGenerator.ts:71 | The sorting renderer lays out the top level sorted by position. The sort is stable and loses no field. |
| ServerFormGenerator.GenerateForm | server/src/utils/formGenerator.ts:70-75 | The form is the position-sorted top-level fields, rendered and joined by newlines. |
| ServerFormGenerator.FormOrderAndControls | server/src/utils/formGenerator.ts:70-75 | The top level is sorted by position and keeps every field. There is one control per leaf, named by its path. |
| ServerFormGenerator.FieldsetShowsHint | server/src/utils/formGenerator.ts:48-61 | A fieldset with a hint shows it as a styled hint right after the legend. |
| ServerFormGenerator.DefaultEmptyOption | server/src/utils/formGenerator.ts:29 | A `select` without a placeholder starts with an empty `Select...` option. |
| LegacyFormGenerator.GenerateForm | server/src/formGenerator.ts:72-76 | The form is the top-level fields in insertion order, rendered and joined by newlines. |
| LegacyFormGenerator.FormControls | server/src/formGenerator.ts:51-76 | There is one control per leaf, named by its path, in insertion order. |
| LegacyFormGenerator.FieldsetDropsHint | server/src/formGenerator.ts:51-63 | A fieldset's hint is never rendered. A `schema` entry's text is its legend and its children only. |
| LegacyFormGenerator.PlaceholderOnlyWhenSet | server/src/formGenerator.ts:31-32 | The leading empty option appears only when a placeholder is set. |
| LegacyFormGenerator.ControlsStyled | server/src/formGenerator.ts:33-39 | Every control carries the inline max-width style, whether it is a select, a textarea or an input. |
| RootFormGenerator.GenerateForm | src/formGenerator.ts:68-72 | The form is the top-level fields in insertion order, rendered and joined by newlines. |
| RootFormGenerator.FormControls | src/formGenerator.ts:47-72 | There is one control per leaf, named by its path, in insertion order. |
| RootFormGenerator.PlainHintAfterControl | src/formGenerator.ts:38-44 | A leaf field's text is its label, then its control, then its hint in a plain `<div>`. |
| RootFormGenerator.TupleOptionsRequired | src/formGenerator.ts:24-26 | This renderer accepts only `[value, label]` options. A schema whose options are all tuples is renderable, and an object option is not. |
| SchemaEditing.ParentPath | frontend/src/components/SchemaBuilder.tsx:70-71 | The parent path is the reversed path without its last key. It has one key fewer than the path. |
| SchemaEditing.ParentPathExact | frontend/src/components/SchemaBuilder.tsx:70-71 | The reversed parent path is the true parent path if and only if that prefix is a palindrome. |
| SchemaEditing.ParentPathShallow | frontend/src/components/SchemaBuilder.tsx:70-71 | For paths of length at most two, the parent path is the true one. |
| SchemaEditing.ParentPathDeep | frontend/src/components/SchemaBuilder.tsx:70-71 | For `[a, b, c]` with `a != b`, the parent path is `[b, a]` and not `[a, b]`. |
| SchemaEditing.SpreadExtrasLookup | frontend/src/components/SchemaBuilder.tsx:78-81 | After the spread, an extra property reads the patch's value if the patch has it and the old value otherwise. |
| SchemaEditing.SpreadExtrasOk | frontend/src/components/SchemaBuilder.tsx:78-81 | The spread keeps the extra properties distinct and unreserved. |
| SchemaEditing.WithSchemaDefault | frontend/src/components/SchemaBuilder.tsx:73-75 | A patch that turns a field into a `schema` gets an empty nested schema if it has none. |
| SchemaEditing.UpdatedLevelEffect | frontend/src/components/SchemaBuilder.tsx:69-89 | The update keeps the level's keys and their order. The named field becomes the old entry with the patch laid over it, and every other field is unchanged. |
| SchemaEditing.UpdatedLevelWellFormed | frontend/src/components/SchemaBuilder.tsx:69-89 | Updating a field with a well-formed patch keeps the level well-formed. |
| SchemaEditing.RemovePreservesWellFormed | frontend/src/components/SchemaBuilder.tsx:95-96 | Deleting a key keeps the level well-formed. |
| SchemaEditing.DeletedLevelEffect | frontend/src/components/SchemaBuilder.tsx:91-98 | After the deletion the key is gone. The other keys keep their order and entries. |
| SchemaEditing.RenamedFirstEffect | frontend/src/components/SchemaBuilder.tsx:100-116 | The builder's rename fails, with the message naming the new name, exactly when that name is a key of the level or a property every object inherits from `Object.prototype` (`toString`, `constructor`, ...), since the guard reads `parentSchema[newName]`. Otherwise the new key comes first and holds the old key's entry, the old key is gone, every other key reads as before, and a well-formed level stays well-formed. |
| SchemaEditing.RenamedLastEffect | frontend/src/hooks/useSchemaManager.ts:64-80 | The hook's rename fails, with the same message, exactly when the new name is a key of the level or inherited from `Object.prototype`. Otherwise the new key comes last and holds the old key's entry, the old key is gone, every other key reads as before, and a well-formed level stays well-formed. |
| SchemaEditing.RenameToInheritedRefused | frontend/src/components/SchemaBuilder.tsx:104-106 | Renaming a field to `toString` fails with "Field name "toString" already exists at this level" in both renames, even on a level that has no such key. |
| SchemaEditing.MaxPositionFrom | frontend/src/components/SchemaBuilder.tsx:50-51 | The maximum is at least the start value and every field's position (a missing position counts as 0), and it is one of them. |
| SchemaEditing.NewField | frontend/src/components/SchemaBuilder.tsx:54-58 | A new field is a well-formed `text` entry. |
| SchemaEditing.AddedLastKeys | frontend/src/components/SchemaBuilder.tsx:48-67 | The page appends the new key after every existing key. |
| SchemaEditing.AddedLastLookup | frontend/src/components/SchemaBuilder.tsx:48-67 | The new key holds a `text` field labelled with its capitalised key, positioned one past the largest sibling position. |
| SchemaEditing.AddedLastOthers | frontend/src/components/SchemaBuilder.tsx:48-67 | Adding a field leaves every other key's entry as it was. |
| SchemaEditing.AddedLastWellFormed | frontend/src/components/SchemaBuilder.tsx:48-67 | Adding a field keeps a well-formed level well-formed. |
| SchemaEditing.MaxPositionAbove | frontend/src/components/SchemaBuilder.tsx:49-50 | The new position is above every sibling's position (missing ones counting as 0) and never negative. |
| SchemaEditing.AddedFirstEffect | frontend/src/hooks/useSchemaManager.ts:14-31 | The hook puts the new field first, without a position, and the level stays well-formed. |
| SchemaEditing.DragIndicesEffect | frontend/src/components/SchemaBuilder.tsx:118-132 | A drag reorders only when it ends on a different key and both keys are in the level. The indices are then their insertion-order indices. |
| SchemaEditing.DragMovesActive | frontend/src/components/SchemaBuilder.tsx:121-130 | When insertion order agrees with position order, the dragged key lands at the index of the key it was dropped on. |
| SchemaBuilderComponent.OptionLinesPieces | frontend/src/components/SchemaBuilder.tsx:144 | The option lines are exactly the non-empty pieces of the text split at newlines. |
| SchemaBuilderComponent.ParseLineAccepts | frontend/src/components/SchemaBuilder.tsx:148-157 | A line parses exactly when it has exactly one comma. The parsed value and label are trimmed and contain no comma. |
| SchemaBuilderComponent.ParseLineRoundTrip | frontend/src/components/SchemaBuilder.tsx:148-157 | Printing a trimmed, comma-free value and label as `value,label` parses back to that option. |
| SchemaBuilderComponent.FirstBadLine | frontend/src/components/SchemaBuilder.tsx:146-159 | There is no bad line exactly when every line parses. A bad line that is found fails to parse, and every line before it parses. |
| SchemaBuilderComponent.ParseOptionsRaw | frontend/src/components/SchemaBuilder.tsx:144-159 | The loop returns one parsed option per line. If a line is bad, it stops at the first one with a message naming the path, the 1-based line number and the line. |
| SchemaBuilderComponent.ProcessSchema | frontend/src/components/SchemaBuilder.tsx:138-167 | The loop over the fields produces the level as the walk leaves it and the error after it. The error is absent exactly when none was set before and no reachable `select` has a malformed line. It is either the earlier error or the message naming some reachable `select`'s dotted path, its first malformed line counted from 1, and that line. With no error the copy is the normalised schema. |
| SchemaBuilderComponent.ProcessLevelReports | frontend/src/components/SchemaBuilder.tsx:138-167 | Any error the walk reports is the earlier error, or the message for the first malformed line of some `select` the walk reaches, with that field's path. |
| SchemaBuilderComponent.LaterSelectOverwritesNestedError | frontend/src/components/SchemaBuilder.tsx:150-164 | In `{a: {x: select}, b: select}` with both option texts malformed, the walk reports `b`'s error, not the earlier `a.x`. A nested walk does not stop its parent's loop, and the later `select` overwrites the error. |
| SchemaBuilderComponent.ProcessField | frontend/src/components/SchemaBuilder.tsx:140-166 | The loop body gives a field its parsed options or its processed nested schema, or it stops the walk at the field's error. |
| SchemaBuilderComponent.ProcessLevelFails | frontend/src/components/SchemaBuilder.tsx:135-170 | Processing reports no error if and only if no earlier error was set and no `select` anywhere in the tree has malformed option text. |
| SchemaBuilderComponent.ProcessLevelClean | frontend/src/components/SchemaBuilder.tsx:135-170 | With no malformed option text, processing reports no error and returns the normalised schema. |
| SchemaBuilderComponent.SchemaBuilder.constructor | frontend/src/components/SchemaBuilder.tsx:40-42 | The page starts with an empty schema, an empty title and no error. |
| SchemaBuilderComponent.SchemaBuilder.SetTitle | frontend/src/components/SchemaBuilder.tsx:286 | Editing the title changes only the title. |
| SchemaBuilderComponent.SchemaBuilder.AddField | frontend/src/components/SchemaBuilder.tsx:48-67 | Appends the first free `fieldN` to the level with the next position. The schema stays well-formed and the level reads back as the new one. |
| SchemaBuilderComponent.SchemaBuilder.UpdateField | frontend/src/components/SchemaBuilder.tsx:69-89 | Lays the patch over the field at the reversed parent path. The schema stays well-formed. |
| SchemaBuilderComponent.SchemaBuilder.DeleteField | frontend/src/components/SchemaBuilder.tsx:91-98 | Removes the key from the level at the reversed parent path. The schema stays well-formed. |
| SchemaBuilderComponent.SchemaBuilder.RenameField | frontend/src/components/SchemaBuilder.tsx:100-116 | A name that is a key of the level or inherited from `Object.prototype` raises the rename error and changes nothing. Otherwise the entry moves to the new name in the first place. The schema stays well-formed. |
| SchemaBuilderComponent.SchemaBuilder.HandleDragEnd | frontend/src/components/SchemaBuilder.tsx:118-132 | A drop on a different key of the same level reorders that level using the two keys' insertion-order indices. Every other drop changes nothing. |
| SchemaBuilderComponent.SchemaBuilder.ProcessAndValidateSchema | frontend/src/components/SchemaBuilder.tsx:135-177 | The result is valid exactly when the option texts parse and the processed schema validates. Its error is the options error, or otherwise the validator's error for the processed copy. |
| SchemaBuilderComponent.SchemaBuilder.HandleSave | frontend/src/components/SchemaBuilder.tsx:179-213 | A malformed option text, then a validation failure, then a blank title each stop the save and set the matching error. Otherwise the processed schema is saved and the error is cleared. Schema and title never change. |
| SchemaManager.SchemaManager.constructor | frontend/src/hooks/useSchemaManager.ts:12 | The hook starts with the empty schema. |
| SchemaManager.SchemaManager.SetSchema | frontend/src/hooks/useSchemaManager.ts:12 | Replaces the schema. |
| SchemaManager.SchemaManager.AddField | frontend/src/hooks/useSchemaManager.ts:14-31 | Puts the first free `fieldN` first in the level, without a position. The schema stays well-formed. |
| SchemaManager.SchemaManager.UpdateField | frontend/src/hooks/useSchemaManager.ts:33-53 | Lays the patch over the field at the reversed parent path. The schema stays well-formed. |
| SchemaManager.SchemaManager.DeleteField | frontend/src/hooks/useSchemaManager.ts:55-62 | Removes the key from the level at the reversed parent path. The schema stays well-formed. |
| SchemaManager.SchemaManager.RenameField | frontend/src/hooks/useSchemaManager.ts:64-80 | A name that is a key of the level or inherited from `Object.prototype` raises the rename error and changes nothing. Otherwise the entry moves to the new name in the last place. The schema stays well-formed. |
| SchemaManager.SchemaManager.HandleDragEnd | frontend/src/hooks/useSchemaManager.ts:82-96 | A drop on a different key of the same level reorders that level using the two keys' insertion-order indices. Every other drop changes nothing. |
| FieldEditing.RenameRequest | frontend/src/hooks/useFieldEditing.ts:12-13 | A requested name is non-empty, already trimmed, and differs from the field's current key. |
| FieldEditing.RenameRequestExactly | frontend/src/hooks/useFieldEditing.ts:12-13 | A rename is requested if and only if the trimmed text is non-empty and new. Blank text asks for nothing. |
| FieldEditing.FieldEditor.constructor | frontend/src/hooks/useFieldEditing.ts:4-5 | No field is being edited and the text is empty. |
| FieldEditing.FieldEditor.SetEditingField | frontend/src/hooks/useFieldEditing.ts:4 | Sets only the edited field. |
| FieldEditing.FieldEditor.SetEditingValue | frontend/src/hooks/useFieldEditing.ts:5 | Sets only the text. |
| FieldEditing.FieldEditor.HandleFieldNameChange | frontend/src/hooks/useFieldEditing.ts:7-9 | Records the typed text and nothing else. |
| FieldEditing.FieldEditor.HandleFieldNameBlur | frontend/src/hooks/useFieldEditing.ts:11-22 | Asks for the rename the text warrants, then closes the editor and clears the text. |
| FieldEditing.FieldEditor.HandleFieldNameKeyDown | frontend/src/hooks/useFieldEditing.ts:24-32 | Enter behaves as a blur, Escape closes without asking, and any other key changes nothing. |
| FormResponses.AllFieldsColumns | frontend/src/components/FormResponses.tsx:89-105 | There is one column per leaf field, in form order, keyed by the bracketed key path. With distinct keys, the column's label is the leaf's label, or its key when the label is empty. Its position is the leaf's position, and each enclosing container adds its own position times 1000. Any missing position on the way leaves it missing. |
| FormResponses.EntryColumnsShape | frontend/src/components/FormResponses.tsx:90-104 | A field's columns are its leaf paths, each starting at the field's key and keyed under the prefix. For a well-formed entry, each column carries the leaf's label, or its key, and the position scaled by 1000 per enclosing container. |
| FormResponses.GetAllFields | frontend/src/components/FormResponses.tsx:108 | The columns come out in position order. A form without a schema has none. Otherwise they are exactly the flattened columns of its schema, rearranged. |
| FormResponses.ColumnCount | frontend/src/components/FormResponses.tsx:108 | A form without a schema has no columns. Otherwise there is one column per leaf field. |
| FormResponses.ColumnsSorted | frontend/src/components/FormResponses.tsx:108 | The columns are sorted by position, with a stable sort that loses no column. |
| FormResponses.ColumnKeyAgainstName | frontend/src/components/FormResponses.tsx:93-100 | The column key equals the form's control name if and only if the field is at most two levels deep. |
| FormResponses.NestedColumnAfterLaterSibling | frontend/src/components/FormResponses.tsx:96-108 | A field nested under position 0 sorts after a top-level field at position 1, unlike in the form. |

## Left out

- Object aliasing: `updateNestedSchema` writes into a shallow copy whose nested objects are shared with the original. The model is copy-on-write, which gives the same resulting value.
- JavaScript property order puts integer-like keys first. Keys are kept in insertion order here.
- `toUpperCase` is modelled for ASCII letters only, and `trim` for the ASCII and Latin-1 spaces and line breaks.
- Network, persistence and timing: creating a form, fetching forms and responses, the redirect after saving, loading flags, success banners and console logging.
- The `value` argument of `updateField`, which the source changes in place, and the caller's path array, which `path.reverse()` reverses in place. Only the resulting schema is modelled.
- Attribute order in rendered controls: position and raw option text come first, then the other properties. Any other property's value is modelled as a string.
- HTML escaping is not done by the source, and it is not done here either. Values are pasted as is.
- Patch properties explicitly set to `undefined` are not modelled. A patch either has a property or does not.
- SchemaBuilderComponent.SchemaBuilder.RenameField: requires the old key to exist. The source would create a key holding `undefined`.
- SchemaManager.SchemaManager.RenameField: requires the old key to exist, for the same reason.
- The editing methods require a non-empty path. With `[]` the source uses the key `undefined`.
- The editing methods require a walkable parent path. Otherwise the source throws a `TypeError` when it assigns into a non-object. The source also throws on a path that passes through a missing key named like an `Object.prototype` property, which `Walkable` admits (see SchemaOperations.UpdatedAt below).
- FormResponses.GetAllFields: a missing position sorts as 0. The source compares `NaN`, which makes the comparator inconsistent.
- FormResponses.GetAllFields: requires every `schema` entry to have a nested schema. Otherwise `Object.entries(undefined)` throws.
- SchemaOperations.UpdatedAt: treats a missing key named like an `Object.prototype` property (`SchemaEditing.InheritedNames`, such as `toString`) like any other missing key, and creates it as a container. The source's test `!currentLevel[key]` (`frontend/src/utils/schemaOperations.ts:21`, `:28`) finds the inherited property instead. Before the last key, the next step reads `undefined` and throws a `TypeError`. As the last key, the source writes the new level onto the shared inherited property and returns the level without the key. The model has no counterpart for that write into `Object.prototype`, which later lookups on every object would see. No call in the application reaches this case: levels get keys only from `fieldN` names and from renames, which refuse these names, and the editing paths name fields that exist.
- The response table's cell rendering and its date formatting.
- SchemaEditing.DragMovesActive: states the dragged key's landing place only when insertion order agrees with position order. Otherwise the source's index mix-up is modelled as written by `DragIndicesEffect`.
- SchemaManager.SchemaManager.SetSchema: accepts only well-formed schemas. The source's setter takes any object.
- FieldEditing.FieldEditor.HandleFieldNameBlur: returns the rename request instead of calling the callback. The source catches and logs any exception the callback throws, so the editor's state does not depend on it.
- Positions are integers. Fractional positions are not modelled.
- Option values are strings. The source's option type also allows a number, which the renderers interpolate into the HTML as its decimal text.
- ServerFormGenerator.GenerateForm, LegacyFormGenerator.GenerateForm and RootFormGenerator.GenerateForm require a renderable schema. The source throws a `TypeError` on a `select` without options, on a `schema` entry without a nested schema, and, in `src/formGenerator.ts`, on object options it destructures as tuples. The render routes (`server/src/routes/forms.ts:101-108`, `src/index.ts:10-17`) do not validate the body: they catch that `TypeError` and answer 400 with `Invalid schema format`, which the model does not capture. The builder runs the modelled validator before it calls them (`frontend/src/components/SchemaBuilder.tsx:215-231`), and `FormRendering.ValidIsRenderable` shows that every schema that validator accepts is renderable.
- The page-level React rendering, which draws the editor, the field cards and the drag-and-drop wiring.
