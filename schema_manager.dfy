/**
 * The schema state hook (frontend/src/hooks/useSchemaManager.ts): the same
 * editing operations as the builder page, with two differences in where
 * keys land. A new field goes first and carries no position; a renamed
 * field goes last.
 */
module SchemaManager {
  import opened Base
  import opened SchemaModel
  import opened SchemaOperations
  import opened SchemaEditing

  /** Adding a fresh field in front of a reachable level keeps the whole
      schema well-formed, and the level then reads back as the new one. */
  lemma AddedFirstAt(s: Schema, parentPath: seq<string>, name: string)
    requires WellFormed(s) && Walkable(s, parentPath)
    requires !Has(NestedAt(s, parentPath), name)
    ensures WellFormed(UpdatedAt(s, parentPath, AddedFirst(NestedAt(s, parentPath), name)))
    ensures NestedAt(UpdatedAt(s, parentPath, AddedFirst(NestedAt(s, parentPath), name)), parentPath)
      == AddedFirst(NestedAt(s, parentPath), name)
  {
    var level := AddedFirst(NestedAt(s, parentPath), name);
    NestedWellFormed(s, parentPath);
    AddedFirstEffect(NestedAt(s, parentPath), name);
    UpdatePreservesWellFormed(s, parentPath, level);
    UpdateThenGet(s, parentPath, level);
  }

  class SchemaManager {
    var schema: Schema

    ghost predicate Valid()
      reads this
    {
      WellFormed(schema)
    }

    /** `useState<Schema>({})` */
    constructor ()
      ensures schema == EmptySchema && Valid()
    {
      schema := EmptySchema;
    }

    /** `setSchema`, exposed as is: any well-formed schema. */
    method SetSchema(s: Schema)
      requires WellFormed(s)
      modifies this
      ensures schema == s && Valid()
    {
      schema := s;
    }

    /** `addField(parentPath)`: a `text` field under the first free
        `fieldN` name, first in the level and without a position. */
    method AddField(parentPath: seq<string>) returns (name: string)
      requires Valid() && Walkable(schema, parentPath)
      modifies this
      ensures Valid()
      ensures !Has(NestedAt(old(schema), parentPath), name)
      ensures exists n: nat | n >= 1 ::
        name == FieldName(n) && forall m: nat | 1 <= m < n :: Has(NestedAt(old(schema), parentPath), FieldName(m))
      ensures schema == UpdatedAt(old(schema), parentPath, AddedFirst(NestedAt(old(schema), parentPath), name))
      ensures NestedAt(schema, parentPath) == AddedFirst(NestedAt(old(schema), parentPath), name)
    {
      var parent := GetNestedSchema(schema, parentPath);
      name := GenerateUniqueFieldName(parent);
      var newField := NewField(name, None);
      var newLevel := Schema([(name, newField)] + parent.fields);
      AddedFirstAt(schema, parentPath, name);
      schema := UpdatedAt(schema, parentPath, newLevel);
    }

    /** `updateField(path, value)`: lays the patch over the entry the
        reversed path names. */
    method UpdateField(path: seq<string>, patch: Entry)
      requires Valid() && EntryWellFormed(patch)
      requires path != [] && Walkable(schema, ParentPath(path))
      modifies this
      ensures Valid()
      ensures schema == UpdatedAt(old(schema), ParentPath(path),
        UpdatedLevel(NestedAt(old(schema), ParentPath(path)), FieldKey(path), patch))
    {
      var parentPath := ParentPath(path);
      var parent := GetNestedSchema(schema, parentPath);
      var newLevel := UpdatedLevel(parent, FieldKey(path), patch);
      UpdatedFieldAt(schema, path, patch);
      schema := UpdatedAt(schema, parentPath, newLevel);
    }

    /** `deleteField(path)`: removes the key from the level the reversed
        path names. */
    method DeleteField(path: seq<string>)
      requires Valid()
      requires path != [] && Walkable(schema, ParentPath(path))
      modifies this
      ensures Valid()
      ensures schema == UpdatedAt(old(schema), ParentPath(path),
        Remove(NestedAt(old(schema), ParentPath(path)), FieldKey(path)))
    {
      var parentPath := ParentPath(path);
      var parent := GetNestedSchema(schema, parentPath);
      var newLevel := Remove(parent, FieldKey(path));
      DeletedFieldAt(schema, path);
      schema := UpdatedAt(schema, parentPath, newLevel);
    }

    /** `renameField(oldPath, newName)`: fails, naming the taken name and
        changing nothing, when `newName` is a key of the level or a name every
        object inherits (`SchemaEditing.NameTaken`); otherwise
        moves the entry to `newName`, last in the level. */
    method RenameField(oldPath: seq<string>, newName: string) returns (thrown: Option<string>)
      requires Valid()
      requires oldPath != [] && Walkable(schema, ParentPath(oldPath))
      requires Has(NestedAt(schema, ParentPath(oldPath)), FieldKey(oldPath))
      modifies this
      ensures Valid()
      ensures var level := NestedAt(old(schema), ParentPath(oldPath));
        var r := RenamedLast(level, FieldKey(oldPath), newName);
        && (r.Err? ==> thrown == Some(r.error) && schema == old(schema))
        && (r.Ok? ==> thrown == None && schema == UpdatedAt(old(schema), ParentPath(oldPath), r.value))
    {
      var parentPath := ParentPath(oldPath);
      var parent := GetNestedSchema(schema, parentPath);
      var r := RenamedLast(parent, FieldKey(oldPath), newName);
      if r.Err? {
        return Some(r.error);
      }
      RenamedLastAt(schema, oldPath, newName);
      schema := UpdatedAt(schema, parentPath, r.value);
      thrown := None;
    }

    /** `handleDragEnd`: reorders the level when the drag ends on another
        key of it, with both keys' insertion-order indices. */
    method HandleDragEnd(active: string, over: Option<string>, parentPath: seq<string>)
      requires Valid()
      modifies this
      ensures Valid()
      ensures var level := NestedAt(old(schema), parentPath);
        match DragIndices(level, active, over)
        case None => schema == old(schema)
        case Some((o, n)) =>
          o < |level.fields| && Walkable(old(schema), parentPath)
          && schema == UpdatedAt(old(schema), parentPath, ReorderedLevel(level, o, n))
    {
      if over != Some(active) {
        var parent := GetNestedSchema(schema, parentPath);
        var oldIndex := IndexOf(Keys(parent), active);
        var newIndex := if over.Some? then IndexOf(Keys(parent), over.value) else -1;
        if oldIndex != -1 && newIndex != -1 {
          var r := ReorderFields(schema, parentPath, oldIndex, newIndex);
          ReorderedAt(schema, parentPath, oldIndex, newIndex);
          schema := r;
        }
      }
    }
  }
}
