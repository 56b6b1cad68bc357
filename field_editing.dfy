/**
 * The inline key editor (frontend/src/hooks/useFieldEditing.ts): which
 * field is being renamed and the text typed so far. Leaving the editor
 * asks for a rename when the trimmed text is a new, non-empty key. The
 * rename callback is not called here: the blur returns the request it
 * would make. A throwing callback is caught and only logged, so the
 * editor's own state does not depend on it.
 */
module FieldEditing {
  import opened Base

  /** The new key a blur asks for, if any: the trimmed text, when it is
      non-empty and differs from the field's current key (the last key of
      its path; an empty path has none, so any non-empty text differs). */
  function RenameRequest(value: string, path: seq<string>): (r: Option<string>)
    ensures r.Some? ==> r.value != "" && Trim(r.value) == r.value
    ensures r.Some? && path != [] ==> r.value != path[|path| - 1]
  {
    var newName := Trim(value);
    TrimIdempotent(value);
    if newName != "" && (path == [] || newName != path[|path| - 1]) then Some(newName) else None
  }

  /** A blur asks for a rename exactly when the trimmed text is a new key;
      blank text and the unchanged key ask for nothing. */
  lemma RenameRequestExactly(value: string, path: seq<string>)
    ensures RenameRequest(value, path).Some? <==>
      Trim(value) != "" && (path == [] || Trim(value) != path[|path| - 1])
    ensures RenameRequest(value, path).Some? ==> RenameRequest(value, path).value == Trim(value)
    ensures AllSpace(value) ==> RenameRequest(value, path).None?
  {
    TrimIsSlice(value);
    if AllSpace(value) {
      TrimStartSpec(value);
    }
  }

  class FieldEditor {
    var editingField: Option<string>
    var editingValue: string

    constructor ()
      ensures editingField == None && editingValue == ""
    {
      editingField := None;
      editingValue := "";
    }

    /** `setEditingField` */
    method SetEditingField(f: Option<string>)
      modifies this
      ensures editingField == f && editingValue == old(editingValue)
    {
      editingField := f;
    }

    /** `setEditingValue` */
    method SetEditingValue(v: string)
      modifies this
      ensures editingValue == v && editingField == old(editingField)
    {
      editingValue := v;
    }

    /** `handleFieldNameChange(path, newName)`: records the text; the path
        is not used. */
    method HandleFieldNameChange(path: seq<string>, newName: string)
      modifies this
      ensures editingValue == newName && editingField == old(editingField)
    {
      editingValue := newName;
    }

    /** `handleFieldNameBlur(path, onRenameField)`: returns the rename it
        asks for, then closes the editor and clears the text. */
    method HandleFieldNameBlur(path: seq<string>) returns (request: Option<string>)
      modifies this
      ensures request == RenameRequest(old(editingValue), path)
      ensures editingField == None && editingValue == ""
    {
      var newName := Trim(editingValue);
      if newName != "" && (path == [] || newName != path[|path| - 1]) {
        request := Some(newName);
      } else {
        request := None;
      }
      editingField := None;
      editingValue := "";
    }

    /** `handleFieldNameKeyDown(e, path, onRenameField)`: Enter acts as a
        blur, Escape closes the editor without asking for anything, any
        other key changes nothing. */
    method HandleFieldNameKeyDown(key: string, path: seq<string>) returns (request: Option<string>)
      modifies this
      ensures key == "Enter" ==> request == RenameRequest(old(editingValue), path)
      ensures key != "Enter" ==> request == None
      ensures key == "Enter" || key == "Escape" ==> editingField == None && editingValue == ""
      ensures key != "Enter" && key != "Escape" ==>
        editingField == old(editingField) && editingValue == old(editingValue)
    {
      request := None;
      if key == "Enter" {
        request := HandleFieldNameBlur(path);
      } else if key == "Escape" {
        editingField := None;
        editingValue := "";
      }
    }
  }
}
