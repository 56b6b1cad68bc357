/**
 * The level edits shared by the schema builder component
 * (frontend/src/components/SchemaBuilder.tsx) and the schema manager hook
 * (frontend/src/hooks/useSchemaManager.ts). Each edit reads the level a
 * path names, builds that level's new contents with object spreads and
 * writes it back with `updateNestedSchema`; this module holds the new
 * contents, the two classes hold the state.
 */
module SchemaEditing {
  import opened Base
  import opened SchemaModel
  import opened SchemaOperations

  // ---------------------------------------------------------------------
  // `const [fieldKey, ...parentPath] = path.reverse()`

  function FieldKey(path: seq<string>): string
    requires path != []
  {
    path[|path| - 1]
  }

  /** The parent path the editors use: the keys before the last one, in
      reverse order. */
  function ParentPath(path: seq<string>): (p: seq<string>)
    requires path != []
    ensures |p| == |path| - 1
  {
    Reverse(path[..|path| - 1])
  }

  /** The editors address the right level exactly when the keys before
      the last one read the same backwards. */
  lemma ParentPathExact(path: seq<string>)
    requires path != []
    ensures ParentPath(path) == path[..|path| - 1]
      <==> forall i | 0 <= i < |path| - 1 :: path[i] == path[|path| - 2 - i]
  {
    var q := path[..|path| - 1];
    if forall i | 0 <= i < |q| :: q[i] == q[|q| - 1 - i] {
      assert ParentPath(path) == q;
    }
  }

  /** A field at most one level down is addressed correctly. */
  lemma ParentPathShallow(path: seq<string>)
    requires 1 <= |path| <= 2
    ensures ParentPath(path) == path[..|path| - 1]
  {
    ParentPathExact(path);
  }

  /** Two levels down, with distinct keys on the way, the editors address
      another level. */
  lemma ParentPathDeep(path: seq<string>)
    requires |path| >= 3 && path[0] != path[|path| - 2]
    ensures ParentPath(path) != path[..|path| - 1]
  {
    ParentPathExact(path);
  }

  /** Every level of a well-formed schema is well-formed. */
  lemma {:induction false} NestedWellFormed(s: Schema, path: seq<string>)
    requires WellFormed(s)
    ensures WellFormed(NestedAt(s, path))
    decreases path
  {
    if path != [] && Lookup(s, path[0]).Some? && Lookup(s, path[0]).value.schema.Some? {
      var e := Lookup(s, path[0]).value;
      var j :| 0 <= j < |s.fields| && s.fields[j] == (path[0], e);
      assert EntryWellFormed(s.fields[j].1);
      NestedWellFormed(e.schema.value, path[1..]);
    }
  }

  // ---------------------------------------------------------------------
  // Object spreads on one entry: `{ ...base, ...patch }`

  function LookupExtra(xs: seq<(string, string)>, k: string): (r: Option<string>)
    ensures r.Some? <==> k in KeysOf(xs)
  {
    if xs == [] then None
    else if xs[0].0 == k then Some(xs[0].1)
    else LookupExtra(xs[1..], k)
  }

  /** `xs[k] = v` on the extra properties: an existing key keeps its
      place, a new one goes last. */
  function PutExtra(xs: seq<(string, string)>, k: string, v: string): (r: seq<(string, string)>)
    ensures KeysOf(r) == if k in KeysOf(xs) then KeysOf(xs) else KeysOf(xs) + [k]
    ensures LookupExtra(r, k) == Some(v)
    ensures forall k' | k' != k :: LookupExtra(r, k') == LookupExtra(xs, k')
  {
    if xs == [] then
      assert KeysOf([(k, v)]) == [k];
      [(k, v)]
    else
      KeysOfCons(xs[0], xs[1..]);
      assert xs == [xs[0]] + xs[1..];
      if xs[0].0 == k then
        KeysOfCons((k, v), xs[1..]);
        [(k, v)] + xs[1..]
      else
        var rest := PutExtra(xs[1..], k, v);
        KeysOfCons(xs[0], rest);
        [xs[0]] + rest
  }

  /** `{ ...base, ...patch }` on the extra properties. */
  function SpreadExtras(base: seq<(string, string)>, patch: seq<(string, string)>): seq<(string, string)>
    decreases |patch|
  {
    if patch == [] then base
    else SpreadExtras(PutExtra(base, patch[0].0, patch[0].1), patch[1..])
  }

  /** After a spread every property of the patch reads the patch's value
      and every other one the base's. */
  lemma {:induction false} SpreadExtrasLookup(base: seq<(string, string)>, patch: seq<(string, string)>, k: string)
    requires Distinct(KeysOf(patch))
    ensures LookupExtra(SpreadExtras(base, patch), k)
      == if LookupExtra(patch, k).Some? then LookupExtra(patch, k) else LookupExtra(base, k)
    decreases |patch|
  {
    if patch != [] {
      var rest := patch[1..];
      assert Distinct(KeysOf(rest)) by {
        forall i, j | 0 <= i < j < |rest| ensures KeysOf(rest)[i] != KeysOf(rest)[j] {
          assert KeysOf(patch)[i + 1] != KeysOf(patch)[j + 1];
        }
      }
      SpreadExtrasLookup(PutExtra(base, patch[0].0, patch[0].1), rest, k);
      if k == patch[0].0 {
        forall i | 0 <= i < |rest| ensures rest[i].0 != k {
          assert KeysOf(patch)[0] != KeysOf(patch)[i + 1];
        }
      }
    }
  }

  /** A spread keeps the extra properties distinct and clear of the known
      ones. */
  lemma {:induction false} SpreadExtrasOk(base: seq<(string, string)>, patch: seq<(string, string)>)
    requires Distinct(KeysOf(base)) && forall i | 0 <= i < |base| :: !Reserved(base[i].0)
    requires forall i | 0 <= i < |patch| :: !Reserved(patch[i].0)
    ensures var r := SpreadExtras(base, patch);
      Distinct(KeysOf(r)) && forall i | 0 <= i < |r| :: !Reserved(r[i].0)
    decreases |patch|
  {
    if patch != [] {
      var put := PutExtra(base, patch[0].0, patch[0].1);
      assert forall i | 0 <= i < |put| :: !Reserved(put[i].0) by {
        forall i | 0 <= i < |put| ensures !Reserved(put[i].0) {
          assert KeysOf(put)[i] == put[i].0;
          if KeysOf(put)[i] != patch[0].0 {
            assert KeysOf(put)[i] in KeysOf(base);
          }
        }
      }
      SpreadExtrasOk(put, patch[1..]);
    }
  }

  /** `{ ...base, ...patch }`: a property the patch carries replaces the
      base's, every other one is kept. */
  function Spread(base: Entry, patch: Entry): Entry {
    Entry(
      if patch.kind.Some? then patch.kind else base.kind,
      if patch.labelText.Some? then patch.labelText else base.labelText,
      if patch.hint.Some? then patch.hint else base.hint,
      if patch.position.Some? then patch.position else base.position,
      if patch.options.Some? then patch.options else base.options,
      if patch.placeholder.Some? then patch.placeholder else base.placeholder,
      if patch.optionsRaw.Some? then patch.optionsRaw else base.optionsRaw,
      if patch.schema.Some? then patch.schema else base.schema,
      SpreadExtras(base.extras, patch.extras))
  }

  /** `e` is `base` with every property `patch` carries laid over it. */
  ghost predicate LaidOver(e: Entry, base: Entry, patch: Entry) {
    && e.kind == (if patch.kind.Some? then patch.kind else base.kind)
    && e.labelText == (if patch.labelText.Some? then patch.labelText else base.labelText)
    && e.hint == (if patch.hint.Some? then patch.hint else base.hint)
    && e.position == (if patch.position.Some? then patch.position else base.position)
    && e.options == (if patch.options.Some? then patch.options else base.options)
    && e.placeholder == (if patch.placeholder.Some? then patch.placeholder else base.placeholder)
    && e.optionsRaw == (if patch.optionsRaw.Some? then patch.optionsRaw else base.optionsRaw)
    && e.schema == (if patch.schema.Some? then patch.schema else base.schema)
    && forall k :: LookupExtra(e.extras, k)
         == if LookupExtra(patch.extras, k).Some? then LookupExtra(patch.extras, k) else LookupExtra(base.extras, k)
  }

  /** `if (value.type === 'schema' && !value.schema) value.schema = {}` */
  function WithSchemaDefault(patch: Entry): (p: Entry)
    ensures p.kind == patch.kind
    ensures p.kind == Some("schema") ==> p.schema.Some?
    ensures patch.schema.Some? ==> p == patch
  {
    if patch.kind == Some("schema") && patch.schema.None? then patch.(schema := Some(EmptySchema))
    else patch
  }

  /** `level[key]`, or `{}` for a missing key: spreading `undefined` adds
      nothing. */
  function Existing(level: Schema, key: string): Entry {
    match Lookup(level, key)
    case Some(e) => e
    case None => NoProperties
  }

  /** The level `updateField` writes back:
      `{ ...level, [key]: { ...level[key], ...patch } }`. */
  function UpdatedLevel(level: Schema, key: string, patch: Entry): Schema {
    Put(level, key, Spread(Existing(level, key), WithSchemaDefault(patch)))
  }

  /** `updateField` changes only the entry at `key`, which it creates last
      when missing; that entry is the old one with the patch laid over
      it, and a switch to `schema` without a nested schema starts an empty
      one. */
  lemma UpdatedLevelEffect(level: Schema, key: string, patch: Entry)
    requires Distinct(KeysOf(patch.extras))
    ensures var r := UpdatedLevel(level, key, patch);
      && Keys(r) == (if Has(level, key) then Keys(level) else Keys(level) + [key])
      && (forall k | k != key :: Lookup(r, k) == Lookup(level, k))
      && Lookup(r, key).Some?
      && LaidOver(Lookup(r, key).value, Existing(level, key), WithSchemaDefault(patch))
      && (patch.kind == Some("schema") ==> Lookup(r, key).value.schema.Some?)
  {
    var p := WithSchemaDefault(patch);
    forall k ensures LookupExtra(Spread(Existing(level, key), p).extras, k)
      == if LookupExtra(p.extras, k).Some? then LookupExtra(p.extras, k) else LookupExtra(Existing(level, key).extras, k)
    {
      SpreadExtrasLookup(Existing(level, key).extras, p.extras, k);
    }
  }

  lemma ExtrasOkDistinct(e: Entry)
    ensures ExtrasOk(e) <==> Distinct(KeysOf(e.extras)) && forall i | 0 <= i < |e.extras| :: !Reserved(e.extras[i].0)
  {
    if Distinct(KeysOf(e.extras)) {
      assert forall i, j | 0 <= i < j < |e.extras| :: KeysOf(e.extras)[i] != KeysOf(e.extras)[j];
    }
  }

  /** `updateField` keeps a well-formed level well-formed when the patch
      itself is well-formed. */
  lemma UpdatedLevelWellFormed(level: Schema, key: string, patch: Entry)
    requires WellFormed(level) && EntryWellFormed(patch)
    ensures WellFormed(UpdatedLevel(level, key, patch))
  {
    var base := Existing(level, key);
    var p := WithSchemaDefault(patch);
    if Lookup(level, key).Some? {
      var i :| 0 <= i < |level.fields| && level.fields[i] == (key, base);
      assert EntryWellFormed(level.fields[i].1);
    }
    ExtrasOkDistinct(base);
    ExtrasOkDistinct(p);
    SpreadExtrasOk(base.extras, p.extras);
    ExtrasOkDistinct(Spread(base, p));
    PutPreservesWellFormed(level, key, Spread(base, p));
  }

  // ---------------------------------------------------------------------
  // deleteField: `const { [key]: _, ...rest } = level`

  /** Deleting keeps a well-formed level well-formed. */
  lemma {:induction false} RemovePreservesWellFormed(level: Schema, key: string)
    requires WellFormed(level)
    ensures WellFormed(Remove(level, key))
    decreases |level.fields|
  {
    var fs := level.fields;
    if fs != [] {
      TailWellFormed(fs);
      RemovePreservesWellFormed(Schema(fs[1..]), key);
      if fs[0].0 != key {
        var rest := RemoveIn(fs[1..], key);
        assert LookupIn(rest, fs[0].0) == LookupIn(fs[1..], fs[0].0);
        AddKeyWellFormed(rest, fs[0]);
        assert RemoveIn(fs, key) == [fs[0]] + rest;
      }
    }
  }

  /** The first field of a well-formed level is well-formed, its key does
      not come back, and the rest is a well-formed level. */
  lemma TailWellFormed(fs: seq<(string, Entry)>)
    requires fs != [] && WellFormed(Schema(fs))
    ensures WellFormed(Schema(fs[1..])) && EntryWellFormed(fs[0].1) && fs[0].0 !in KeysOf(fs[1..])
  {
    var tail := fs[1..];
    forall i, j | 0 <= i < j < |tail| ensures tail[i].0 != tail[j].0 {
      assert tail[i] == fs[i + 1] && tail[j] == fs[j + 1];
    }
    forall i | 0 <= i < |tail| ensures EntryWellFormed(tail[i].1) && tail[i].0 != fs[0].0 {
      assert tail[i] == fs[i + 1];
    }
  }

  /** `deleteField` removes exactly the key and leaves every sibling as it
      was. */
  lemma DeletedLevelEffect(level: Schema, key: string)
    ensures !Has(Remove(level, key), key)
    ensures forall k | k != key :: Lookup(Remove(level, key), k) == Lookup(level, k)
    ensures WellFormed(level) ==> WellFormed(Remove(level, key))
  {
    if WellFormed(level) {
      RemovePreservesWellFormed(level, key);
    }
  }

  // ---------------------------------------------------------------------
  // renameField

  function RenameError(newName: string): string {
    "Field name \"" + newName + "\" already exists at this level"
  }

  /** The properties a plain JavaScript object inherits from
      `Object.prototype`. Reading one of them on a level gives a function
      (or, for `__proto__`, the prototype object), which is truthy. */
  const InheritedNames: set<string> := {
    "constructor", "hasOwnProperty", "isPrototypeOf", "propertyIsEnumerable",
    "toLocaleString", "toString", "valueOf", "__proto__",
    "__defineGetter__", "__defineSetter__", "__lookupGetter__", "__lookupSetter__"
  }

  /** The rename's guard `if (parentSchema[newName])`: a present entry is
      an object and so truthy, and so is any inherited property, so the
      name counts as taken when it is a key of the level or inherited. */
  predicate NameTaken(level: Schema, name: string) {
    Has(level, name) || name in InheritedNames
  }

  /** SchemaBuilder's rename level: `{ [newName]: field, ...rest }`, the
      renamed entry first. */
  function RenamedFirst(level: Schema, oldKey: string, newName: string): Result<Schema>
    requires Has(level, oldKey)
  {
    if NameTaken(level, newName) then Err(RenameError(newName))
    else Ok(Schema([(newName, Lookup(level, oldKey).value)] + Remove(level, oldKey).fields))
  }

  /** useSchemaManager's rename level: `{ ...rest, [newName]: field }`, the
      renamed entry last. */
  function RenamedLast(level: Schema, oldKey: string, newName: string): Result<Schema>
    requires Has(level, oldKey)
  {
    if NameTaken(level, newName) then Err(RenameError(newName))
    else Ok(Schema(Remove(level, oldKey).fields + [(newName, Lookup(level, oldKey).value)]))
  }

  lemma {:induction false} LookupAppend(fs: seq<(string, Entry)>, f: (string, Entry), k: string)
    ensures LookupIn(fs + [f], k) == if k in KeysOf(fs) then LookupIn(fs, k) else if k == f.0 then Some(f.1) else None
    decreases |fs|
  {
    if fs != [] {
      assert (fs + [f])[1..] == fs[1..] + [f];
      KeysOfCons(fs[0], fs[1..]);
      assert fs == [fs[0]] + fs[1..];
      LookupAppend(fs[1..], f, k);
    } else {
      assert [f][1..] == [];
    }
  }

  /** Adding a new key in front of, or behind, a well-formed level keeps
      it well-formed. */
  lemma AddKeyWellFormed(fs: seq<(string, Entry)>, f: (string, Entry))
    requires WellFormed(Schema(fs)) && EntryWellFormed(f.1) && f.0 !in KeysOf(fs)
    ensures WellFormed(Schema([f] + fs)) && WellFormed(Schema(fs + [f]))
  {
    var front := [f] + fs;
    var back := fs + [f];
    forall i, j | 0 <= i < j < |front| ensures front[i].0 != front[j].0 {
      if i == 0 { assert front[j].0 == KeysOf(fs)[j - 1]; }
      else { assert front[i] == fs[i - 1] && front[j] == fs[j - 1]; }
    }
    forall i, j | 0 <= i < j < |back| ensures back[i].0 != back[j].0 {
      if j == |fs| { assert back[i].0 == KeysOf(fs)[i]; }
    }
    assert forall i | 0 <= i < |front| :: front[i] == f || front[i] == fs[i - 1];
    assert forall i | 0 <= i < |back| :: back[i] == f || back[i] == fs[i];
  }

  /** What a successful rename builds on: without the old key the level
      is still well-formed and does not have the new name, and the moved
      entry is well-formed. */
  lemma RenamedParts(level: Schema, oldKey: string, newName: string)
    requires Has(level, oldKey) && !Has(level, newName)
    ensures newName !in KeysOf(Remove(level, oldKey).fields) && newName != oldKey
    ensures WellFormed(level) ==>
      WellFormed(Remove(level, oldKey)) && EntryWellFormed(Lookup(level, oldKey).value)
  {
    assert Lookup(level, newName).None?;
    if WellFormed(level) {
      var e := Lookup(level, oldKey).value;
      RemovePreservesWellFormed(level, oldKey);
      var i :| 0 <= i < |level.fields| && level.fields[i] == (oldKey, e);
      assert EntryWellFormed(level.fields[i].1);
    }
  }

  lemma LookupCons(f: (string, Entry), fs: seq<(string, Entry)>, k: string)
    ensures LookupIn([f] + fs, k) == if k == f.0 then Some(f.1) else LookupIn(fs, k)
  {
    assert ([f] + fs)[1..] == fs;
  }

  /** SchemaBuilder's rename fails exactly when the new name is a key of
      the level or a property every object inherits, naming it. Otherwise
      the entry is under the new name, now the first key, the old key is
      gone, every other key is untouched and a well-formed level stays
      well-formed. */
  lemma RenamedFirstEffect(level: Schema, oldKey: string, newName: string)
    requires Has(level, oldKey)
    ensures var r := RenamedFirst(level, oldKey, newName);
      && (r.Err? <==> Has(level, newName) || newName in InheritedNames)
      && (r.Err? ==> r.error == RenameError(newName))
    ensures var r := RenamedFirst(level, oldKey, newName);
      r.Ok? ==>
        && Keys(r.value)[0] == newName
        && Lookup(r.value, newName) == Lookup(level, oldKey)
        && !Has(r.value, oldKey)
        && (forall k | k != oldKey && k != newName :: Lookup(r.value, k) == Lookup(level, k))
    ensures var r := RenamedFirst(level, oldKey, newName);
      r.Ok? && WellFormed(level) ==> WellFormed(r.value)
  {
    if !NameTaken(level, newName) {
      var e := Lookup(level, oldKey).value;
      var rest := Remove(level, oldKey).fields;
      RenamedParts(level, oldKey, newName);
      KeysOfCons((newName, e), rest);
      forall k ensures LookupIn([(newName, e)] + rest, k) == if k == newName then Some(e) else LookupIn(rest, k) {
        LookupCons((newName, e), rest, k);
      }
      if WellFormed(level) {
        AddKeyWellFormed(rest, (newName, e));
      }
    }
  }

  /** useSchemaManager's rename: the same, with the new key last. */
  lemma RenamedLastEffect(level: Schema, oldKey: string, newName: string)
    requires Has(level, oldKey)
    ensures var r := RenamedLast(level, oldKey, newName);
      && (r.Err? <==> Has(level, newName) || newName in InheritedNames)
      && (r.Err? ==> r.error == RenameError(newName))
    ensures var r := RenamedLast(level, oldKey, newName);
      r.Ok? ==>
        && Keys(r.value)[|Keys(r.value)| - 1] == newName
        && Lookup(r.value, newName) == Lookup(level, oldKey)
        && !Has(r.value, oldKey)
        && (forall k | k != oldKey && k != newName :: Lookup(r.value, k) == Lookup(level, k))
    ensures var r := RenamedLast(level, oldKey, newName);
      r.Ok? && WellFormed(level) ==> WellFormed(r.value)
  {
    if !NameTaken(level, newName) {
      var e := Lookup(level, oldKey).value;
      var rest := Remove(level, oldKey).fields;
      RenamedParts(level, oldKey, newName);
      forall k ensures LookupIn(rest + [(newName, e)], k) == if k in KeysOf(rest) then LookupIn(rest, k) else if k == newName then Some(e) else None {
        LookupAppend(rest, (newName, e), k);
      }
      assert KeysOf(rest + [(newName, e)])[|rest|] == newName;
      if WellFormed(level) {
        AddKeyWellFormed(rest, (newName, e));
      }
    }
  }

  /** Both renames refuse `toString` even on a level that has no such
      key, and the message says it already exists. */
  lemma RenameToInheritedRefused(level: Schema, oldKey: string)
    requires Has(level, oldKey) && !Has(level, "toString")
    ensures RenamedFirst(level, oldKey, "toString") == Err(RenameError("toString"))
    ensures RenamedLast(level, oldKey, "toString") == Err(RenameError("toString"))
  {
    assert "toString" in InheritedNames;
  }

  // ---------------------------------------------------------------------
  // addField

  /** `Object.values(level).reduce((max, f) => Math.max(max, f.position ?? 0), from)` */
  function MaxPositionFrom(from: int, fs: seq<(string, Entry)>): (m: int)
    ensures m >= from
    ensures forall i | 0 <= i < |fs| :: PosOrZero(fs[i].1) <= m
    ensures m == from || exists i | 0 <= i < |fs| :: PosOrZero(fs[i].1) == m
    decreases |fs|
  {
    if fs == [] then from
    else
      var next := if from < PosOrZero(fs[0].1) then PosOrZero(fs[0].1) else from;
      var m := MaxPositionFrom(next, fs[1..]);
      assert forall i | 1 <= i < |fs| :: fs[i] == fs[1..][i - 1];
      m
  }

  function MaxPosition(level: Schema): int {
    MaxPositionFrom(-1, level.fields)
  }

  /** The field `addField` creates: a `text` field labelled with its
      capitalised key. */
  function NewField(name: string, position: Option<int>): (e: Entry)
    ensures EntryWellFormed(e)
  {
    NoProperties.(kind := Some("text"), labelText := Some(Capitalize(name)), position := position)
  }

  /** SchemaBuilder's add level: `{ ...level, [name]: field }` with
      position one past the largest (missing counting as 0, and -1 for an
      empty level). */
  function AddedLast(level: Schema, name: string): Schema {
    Put(level, name, AddedEntry(level, name))
  }

  /** The entry SchemaBuilder adds: positioned after every sibling. */
  function AddedEntry(level: Schema, name: string): Entry {
    NewField(name, Some(MaxPosition(level) + 1))
  }

  /** useSchemaManager's add level: `{ [name]: field, ...level }` with no
      position; `name` is fresh, so the spread does not move it. */
  function AddedFirst(level: Schema, name: string): Schema
    requires !Has(level, name)
  {
    Schema([(name, NewField(name, None))] + level.fields)
  }

  // SchemaBuilder: adding under a fresh name appends it, with a position
  // past every sibling's; nothing else changes and the level stays
  // well-formed.

  /** The new key goes last. */
  lemma AddedLastKeys(level: Schema, name: string)
    requires !Has(level, name)
    ensures Keys(AddedLast(level, name)) == Keys(level) + [name]
  {
    PutFresh(level, name, AddedEntry(level, name));
  }

  /** The new key holds a `text` field positioned one past the largest. */
  lemma AddedLastLookup(level: Schema, name: string)
    requires !Has(level, name)
    ensures Lookup(AddedLast(level, name), name) == Some(NewField(name, Some(MaxPosition(level) + 1)))
  {
    var e := AddedEntry(level, name);
    assert e == NewField(name, Some(MaxPosition(level) + 1));
    PutFresh(level, name, e);
  }

  /** Every other key reads as before. */
  lemma AddedLastOthers(level: Schema, name: string)
    requires !Has(level, name)
    ensures forall k | k != name :: Lookup(AddedLast(level, name), k) == Lookup(level, k)
  {
    PutFresh(level, name, AddedEntry(level, name));
  }

  /** A well-formed level stays well-formed. */
  lemma AddedLastWellFormed(level: Schema, name: string)
    requires WellFormed(level)
    ensures WellFormed(AddedLast(level, name))
  {
    PutPreservesWellFormed(level, name, AddedEntry(level, name));
  }

  /** Putting a fresh key appends it and changes no other lookup. */
  lemma PutFresh(level: Schema, k: string, e: Entry)
    requires !Has(level, k)
    ensures Keys(Put(level, k, e)) == Keys(level) + [k]
    ensures Lookup(Put(level, k, e), k) == Some(e)
    ensures forall k' | k' != k :: Lookup(Put(level, k, e), k') == Lookup(level, k')
  {
    var r := PutIn(level.fields, k, e);
    assert k !in KeysOf(level.fields);
    assert KeysOf(r) == KeysOf(level.fields) + [k];
  }

  /** The new position is above every sibling's and not negative. */
  lemma MaxPositionAbove(level: Schema)
    ensures forall i | 0 <= i < |level.fields| :: PosOrZero(level.fields[i].1) < MaxPosition(level) + 1
    ensures MaxPosition(level) + 1 >= 0
  {
  }

  /** useSchemaManager: adding under a fresh name puts it first, without
      a position; nothing else changes and the level stays well-formed. */
  lemma AddedFirstEffect(level: Schema, name: string)
    requires !Has(level, name)
    ensures var r := AddedFirst(level, name);
      && Keys(r) == [name] + Keys(level)
      && Lookup(r, name) == Some(NewField(name, None))
      && (forall k | k != name :: Lookup(r, k) == Lookup(level, k))
      && (WellFormed(level) ==> WellFormed(r))
  {
    KeysOfCons((name, NewField(name, None)), level.fields);
    if WellFormed(level) {
      AddKeyWellFormed(level.fields, (name, NewField(name, None)));
    }
  }

  // ---------------------------------------------------------------------
  // handleDragEnd

  /** The indices `handleDragEnd` passes to `reorderFields`: both keys'
      places in insertion order, when they differ and both are found. */
  function DragIndices(level: Schema, active: string, over: Option<string>): Option<(nat, nat)> {
    if over == Some(active) then None
    else
      var o := IndexOf(Keys(level), active);
      var n := if over.Some? then IndexOf(Keys(level), over.value) else -1;
      if o != -1 && n != -1 then Some((o, n)) else None
  }

  /** A drag reorders exactly when it ends on another key of the level,
      and then names the dragged key's and the target key's places. */
  lemma DragIndicesEffect(level: Schema, active: string, over: Option<string>)
    ensures var d := DragIndices(level, active, over);
      && (d.Some? <==> over.Some? && over.value != active && Has(level, active) && Has(level, over.value))
      && (d.Some? ==> d.value.0 < |level.fields| && d.value.1 < |level.fields|
                      && Keys(level)[d.value.0] == active && Keys(level)[d.value.1] == over.value)
  {
  }

  /** `reorderFields` reads the dragged index in position order, the drag
      takes it in insertion order; when the two orders agree the dragged key
      is the one moved, and it lands at the target's index. */
  lemma DragMovesActive(level: Schema, active: string, over: Option<string>)
    requires DragIndices(level, active, over).Some?
    requires SortedBy(level.fields, PositionKey)
    ensures var (o, n) := DragIndices(level, active, over).value;
      && Keys(ReorderedLevel(level, o, n)) == Moved(Keys(level), o, n)
      && Keys(ReorderedLevel(level, o, n))[n] == active
  {
    var (o, n) := DragIndices(level, active, over).value;
    DragIndicesEffect(level, active, over);
    SortBySortedIdentity(level.fields, PositionKey);
    assert SortByPosition(level.fields) == level.fields;
    ReorderedKeys(level, o, n);
  }

  // ---------------------------------------------------------------------
  // Writing a new level back keeps the whole schema well-formed

  lemma UpdatedFieldAt(s: Schema, path: seq<string>, patch: Entry)
    requires WellFormed(s) && EntryWellFormed(patch)
    requires path != [] && Walkable(s, ParentPath(path))
    ensures WellFormed(UpdatedAt(s, ParentPath(path),
      UpdatedLevel(NestedAt(s, ParentPath(path)), FieldKey(path), patch)))
  {
    var parent := NestedAt(s, ParentPath(path));
    NestedWellFormed(s, ParentPath(path));
    UpdatedLevelWellFormed(parent, FieldKey(path), patch);
    UpdatePreservesWellFormed(s, ParentPath(path), UpdatedLevel(parent, FieldKey(path), patch));
  }

  lemma DeletedFieldAt(s: Schema, path: seq<string>)
    requires WellFormed(s)
    requires path != [] && Walkable(s, ParentPath(path))
    ensures WellFormed(UpdatedAt(s, ParentPath(path), Remove(NestedAt(s, ParentPath(path)), FieldKey(path))))
  {
    var parent := NestedAt(s, ParentPath(path));
    NestedWellFormed(s, ParentPath(path));
    RemovePreservesWellFormed(parent, FieldKey(path));
    UpdatePreservesWellFormed(s, ParentPath(path), Remove(parent, FieldKey(path)));
  }

  lemma RenamedFirstAt(s: Schema, path: seq<string>, newName: string)
    requires WellFormed(s)
    requires path != [] && Walkable(s, ParentPath(path))
    requires Has(NestedAt(s, ParentPath(path)), FieldKey(path))
    ensures var r := RenamedFirst(NestedAt(s, ParentPath(path)), FieldKey(path), newName);
      r.Ok? ==> WellFormed(UpdatedAt(s, ParentPath(path), r.value))
  {
    var parent := NestedAt(s, ParentPath(path));
    var r := RenamedFirst(parent, FieldKey(path), newName);
    if r.Ok? {
      NestedWellFormed(s, ParentPath(path));
      RenamedFirstEffect(parent, FieldKey(path), newName);
      UpdatePreservesWellFormed(s, ParentPath(path), r.value);
    }
  }

  lemma RenamedLastAt(s: Schema, path: seq<string>, newName: string)
    requires WellFormed(s)
    requires path != [] && Walkable(s, ParentPath(path))
    requires Has(NestedAt(s, ParentPath(path)), FieldKey(path))
    ensures var r := RenamedLast(NestedAt(s, ParentPath(path)), FieldKey(path), newName);
      r.Ok? ==> WellFormed(UpdatedAt(s, ParentPath(path), r.value))
  {
    var parent := NestedAt(s, ParentPath(path));
    var r := RenamedLast(parent, FieldKey(path), newName);
    if r.Ok? {
      NestedWellFormed(s, ParentPath(path));
      RenamedLastEffect(parent, FieldKey(path), newName);
      UpdatePreservesWellFormed(s, ParentPath(path), r.value);
    }
  }

  lemma ReorderedAt(s: Schema, parentPath: seq<string>, o: nat, n: nat)
    requires WellFormed(s) && Walkable(s, parentPath)
    requires o < |NestedAt(s, parentPath).fields|
    ensures WellFormed(UpdatedAt(s, parentPath, ReorderedLevel(NestedAt(s, parentPath), o, n)))
  {
    var parent := NestedAt(s, parentPath);
    NestedWellFormed(s, parentPath);
    ReorderedLevelWellFormed(parent, o, n);
    UpdatePreservesWellFormed(s, parentPath, ReorderedLevel(parent, o, n));
  }
}
