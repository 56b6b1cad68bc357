/**
 * The tree operations on a form schema (frontend/src/utils/schemaOperations.ts):
 * reading and replacing the schema at a key path, choosing a fresh field
 * name, and moving a field within a level.
 */
module SchemaOperations {
  import opened Base
  import opened SchemaModel

  // ---------------------------------------------------------------------
  // getNestedSchema

  /** The level at `path`: each key selects an entry and descends into its
      nested schema; a missing key or an entry without a nested schema
      gives the empty schema. */
  function NestedAt(s: Schema, path: seq<string>): Schema
    decreases path
  {
    if path == [] then s
    else match Lookup(s, path[0])
      case None => EmptySchema
      case Some(e) =>
        match e.schema
        case None => EmptySchema
        case Some(c) => NestedAt(c, path[1..])
  }

  /** Every key of `path` names an entry that has a nested schema. */
  predicate Resolves(s: Schema, path: seq<string>)
    decreases path
  {
    path == [] ||
    match Lookup(s, path[0])
    case None => false
    case Some(e) => e.schema.Some? && Resolves(e.schema.value, path[1..])
  }

  /** The loop of `getNestedSchema`, with a cursor on the current level. */
  method GetNestedSchema(s: Schema, path: seq<string>) returns (r: Schema)
    ensures r == NestedAt(s, path)
  {
    var current := s;
    var i := 0;
    while i < |path|
      invariant 0 <= i <= |path|
      invariant NestedAt(s, path) == NestedAt(current, path[i..])
    {
      assert path[i..][1..] == path[i + 1..];
      var entry := Lookup(current, path[i]);
      if entry.None? || entry.value.schema.None? {
        return EmptySchema;
      }
      current := entry.value.schema.value;
      i := i + 1;
    }
    assert path[i..] == [];
    r := current;
  }

  /** A path that breaks off anywhere reads as the empty schema. */
  lemma {:induction false} NestedAtBroken(s: Schema, path: seq<string>)
    requires !Resolves(s, path)
    ensures NestedAt(s, path) == EmptySchema
    decreases path
  {
    match Lookup(s, path[0])
    case None =>
    case Some(e) =>
      if e.schema.Some? {
        NestedAtBroken(e.schema.value, path[1..]);
      }
  }

  /** Reading along `p + q` is reading `q` from the level at `p`, when `p`
      resolves. */
  lemma {:induction false} NestedAtAppend(s: Schema, p: seq<string>, q: seq<string>)
    requires Resolves(s, p)
    ensures NestedAt(s, p + q) == NestedAt(NestedAt(s, p), q)
    ensures Resolves(s, p + q) <==> Resolves(NestedAt(s, p), q)
    decreases p
  {
    if p == [] {
      assert p + q == q;
    } else {
      assert (p + q)[0] == p[0];
      assert (p + q)[1..] == p[1..] + q;
      NestedAtAppend(Lookup(s, p[0]).value.schema.value, p[1..], q);
    }
  }

  // ---------------------------------------------------------------------
  // updateNestedSchema

  /** The paths `updateNestedSchema` accepts: every key before the last one
      either is missing (it is then created) or names an entry that has a
      nested schema (otherwise the source dereferences `undefined`). A
      missing key named like an inherited `Object.prototype` property is
      not told apart from other missing keys. */
  predicate Walkable(s: Schema, path: seq<string>)
    decreases path
  {
    |path| <= 1 ||
    match Lookup(s, path[0])
    case None => true
    case Some(e) => e.schema.Some? && Walkable(e.schema.value, path[1..])
  }

  lemma {:induction false} ResolvesWalkable(s: Schema, path: seq<string>)
    requires Resolves(s, path)
    ensures Walkable(s, path)
    decreases path
  {
    if |path| > 1 {
      ResolvesWalkable(Lookup(s, path[0]).value.schema.value, path[1..]);
    }
  }

  /** The entry the walk passes through at `k`: the existing one, or a fresh
      `{ type: 'schema', schema: {} }`. */
  function EntryOrContainer(s: Schema, k: string): Entry {
    match Lookup(s, k)
    case Some(e) => e
    case None => Container(EmptySchema)
  }

  function ChildOf(e: Entry): Schema {
    match e.schema
    case Some(c) => c
    case None => EmptySchema
  }

  /** `updateNestedSchema(s, path, n)` as a value: the root is `n` for the
      empty path; otherwise the entry at `path[0]` (created when missing)
      gets, as its nested schema, its old nested schema updated along the
      rest of the path. The last entry of the path receives `n` whatever
      its type. */
  function UpdatedAt(s: Schema, path: seq<string>, n: Schema): (r: Schema)
    requires Walkable(s, path)
    ensures path == [] ==> r == n
    ensures path != [] ==> Keys(r) == if Has(s, path[0]) then Keys(s) else Keys(s) + [path[0]]
    ensures path != [] ==> forall k | k != path[0] :: Lookup(r, k) == Lookup(s, k)
    decreases path
  {
    if path == [] then n
    else
      var e := EntryOrContainer(s, path[0]);
      Put(s, path[0], e.(schema := Some(UpdatedAt(ChildOf(e), path[1..], n))))
  }

  /** Reading back the path just written gives what was written. */
  lemma {:induction false} UpdateThenGet(s: Schema, path: seq<string>, n: Schema)
    requires Walkable(s, path)
    ensures NestedAt(UpdatedAt(s, path, n), path) == n
    ensures Resolves(UpdatedAt(s, path, n), path)
    decreases path
  {
    if path != [] {
      var e := EntryOrContainer(s, path[0]);
      UpdateThenGet(ChildOf(e), path[1..], n);
    }
  }

  function Unnested(e: Entry): Entry {
    e.(schema := None)
  }

  lemma NestedAtEmpty(path: seq<string>)
    ensures NestedAt(EmptySchema, path) == EmptySchema
  {
  }

  /** Depth by depth, the written tree is the old level at that depth
      updated along the rest of the path (an old level under a missing key
      being empty). */
  lemma {:induction false} UpdateLevels(s: Schema, path: seq<string>, n: Schema, i: nat)
    requires Walkable(s, path)
    requires i <= |path|
    ensures Walkable(NestedAt(s, path[..i]), path[i..])
    ensures NestedAt(UpdatedAt(s, path, n), path[..i]) == UpdatedAt(NestedAt(s, path[..i]), path[i..], n)
    decreases path
  {
    if i == 0 {
      assert path[..0] == [] && path[0..] == path;
    } else {
      var e := EntryOrContainer(s, path[0]);
      var child := ChildOf(e);
      var tail := path[1..];
      UpdateLevels(child, tail, n, i - 1);
      TakeCons(path, i);
      UpdateStep(s, path, n, tail[..i - 1]);
      if Has(s, path[0]) && e.schema.Some? {
        SourceStep(s, path[0], tail[..i - 1]);
      } else {
        MissingStep(s, path[0], tail[..i - 1]);
        NestedAtBroken(s, [path[0]] + tail[..i - 1]);
        NestedAtEmpty(tail[..i - 1]);
      }
    }
  }

  /** Along the written path every entry keeps all its attributes but its
      nested schema, a missing key is created as a bare
      `{ type: 'schema' }` container (under a missing key every level is
      new, see `NestedAtBroken`), and beside the path every level keeps
      its other keys, in order, untouched. */
  lemma UpdateAlongPath(s: Schema, path: seq<string>, n: Schema, i: nat)
    requires Walkable(s, path)
    requires i < |path|
    ensures var old_ := NestedAt(s, path[..i]);
      var new_ := NestedAt(UpdatedAt(s, path, n), path[..i]);
      && Lookup(new_, path[i]).Some?
      && Unnested(Lookup(new_, path[i]).value) == Unnested(EntryOrContainer(old_, path[i]))
      && (forall k | k != path[i] :: Lookup(new_, k) == Lookup(old_, k))
      && Keys(new_) == if Has(old_, path[i]) then Keys(old_) else Keys(old_) + [path[i]]
  {
    UpdateLevels(s, path, n, i);
    assert path[i..][0] == path[i];
  }

  /** One level of the written path: below `path[0]` the result is the
      update of the child. */
  lemma UpdateStep(s: Schema, path: seq<string>, n: Schema, q: seq<string>)
    requires Walkable(s, path) && path != []
    ensures var rc := UpdatedAt(ChildOf(EntryOrContainer(s, path[0])), path[1..], n);
      && NestedAt(UpdatedAt(s, path, n), [path[0]] + q) == NestedAt(rc, q)
      && Resolves(UpdatedAt(s, path, n), [path[0]] + q) == Resolves(rc, q)
  {
    assert ([path[0]] + q)[0] == path[0];
    assert ([path[0]] + q)[1..] == q;
  }

  lemma SourceStep(s: Schema, k: string, q: seq<string>)
    requires Lookup(s, k).Some? && Lookup(s, k).value.schema.Some?
    ensures NestedAt(s, [k] + q) == NestedAt(Lookup(s, k).value.schema.value, q)
    ensures Resolves(s, [k] + q) == Resolves(Lookup(s, k).value.schema.value, q)
  {
    assert ([k] + q)[0] == k;
    assert ([k] + q)[1..] == q;
  }

  lemma MissingStep(s: Schema, k: string, q: seq<string>)
    requires Lookup(s, k).None? || Lookup(s, k).value.schema.None?
    ensures !Resolves(s, [k] + q)
  {
    assert ([k] + q)[0] == k;
  }

  /** Writing a well-formed schema into a well-formed one keeps it
      well-formed. */
  lemma {:induction false} UpdatePreservesWellFormed(s: Schema, path: seq<string>, n: Schema)
    requires Walkable(s, path)
    requires WellFormed(s) && WellFormed(n)
    ensures WellFormed(UpdatedAt(s, path, n))
    decreases path
  {
    if path != [] {
      var e := EntryOrContainer(s, path[0]);
      var child := ChildOf(e);
      if Has(s, path[0]) {
        var j :| 0 <= j < |s.fields| && s.fields[j] == (path[0], e);
        assert EntryWellFormed(s.fields[j].1);
      }
      assert WellFormed(child);
      UpdatePreservesWellFormed(child, path[1..], n);
      var e' := e.(schema := Some(UpdatedAt(child, path[1..], n)));
      assert EntryWellFormed(e');
      PutPreservesWellFormed(s, path[0], e');
    }
  }

  lemma PutPreservesWellFormed(s: Schema, k: string, e: Entry)
    requires WellFormed(s) && EntryWellFormed(e)
    ensures WellFormed(Put(s, k, e))
  {
    PutKeepsUniqueKeys(s, k, e);
    var r := Put(s, k, e);
    PutInMembers(s.fields, k, e);
    forall i | 0 <= i < |r.fields| ensures EntryWellFormed(r.fields[i].1) {
      assert r.fields[i] in r.fields;
      if r.fields[i] != (k, e) {
        var j :| 0 <= j < |s.fields| && s.fields[j] == r.fields[i];
      }
    }
  }

  lemma PutKeepsUniqueKeys(s: Schema, k: string, e: Entry)
    requires UniqueKeys(s)
    ensures UniqueKeys(Put(s, k, e))
  {
    UniqueKeysDistinct(s);
    UniqueKeysDistinct(Put(s, k, e));
    if !Has(s, k) {
      DistinctAppend(Keys(s), k);
    }
  }

  // ---------------------------------------------------------------------
  // generateUniqueFieldName

  function FieldName(n: nat): string {
    "field" + NatToString(n)
  }

  lemma FieldNameInjective(m: nat, n: nat)
    requires FieldName(m) == FieldName(n)
    ensures m == n
  {
    assert NatToString(m) == FieldName(m)[5..];
    assert NatToString(n) == FieldName(n)[5..];
    NatToStringInjective(m, n);
  }

  /** The names tried before `field<c>`. */
  ghost function Tried(c: nat): set<string>
    decreases c
  {
    if c <= 1 then {} else Tried(c - 1) + {FieldName(c - 1)}
  }

  lemma {:induction false} TriedBelow(c: nat, x: string)
    requires x in Tried(c)
    ensures exists m: nat | 1 <= m < c :: x == FieldName(m)
    decreases c
  {
    if x != FieldName(c - 1) {
      TriedBelow(c - 1, x);
    }
  }

  lemma NextNameUntried(c: nat)
    requires c >= 1
    ensures FieldName(c) !in Tried(c)
  {
    if FieldName(c) in Tried(c) {
      TriedBelow(c, FieldName(c));
      var m: nat :| 1 <= m < c && FieldName(c) == FieldName(m);
      FieldNameInjective(m, c);
    }
  }

  /** `field1` ... `field<c-1>` are all keys of the level. */
  predicate AllTaken(keys: seq<string>, c: nat)
    decreases c
  {
    c <= 1 || (FieldName(c - 1) in keys && AllTaken(keys, c - 1))
  }

  lemma {:induction false} AllTakenBelow(keys: seq<string>, c: nat, m: nat)
    requires AllTaken(keys, c) && 1 <= m < c
    ensures FieldName(m) in keys
    decreases c
  {
    if m < c - 1 {
      AllTakenBelow(keys, c - 1, m);
    }
  }

  /** Tries `field1`, `field2`, ... and returns the first one that is not a
      key of the level. */
  method GenerateUniqueFieldName(parent: Schema) returns (name: string)
    ensures !Has(parent, name)
    ensures exists n: nat | n >= 1 :: name == FieldName(n) && forall m: nat | 1 <= m < n :: Has(parent, FieldName(m))
  {
    var existing := Keys(parent);
    ghost var untried := set k | k in existing;
    var counter: nat := 1;
    name := FieldName(counter);
    while name in existing
      invariant counter >= 1 && name == FieldName(counter)
      invariant AllTaken(existing, counter)
      invariant forall k | k in existing && k !in Tried(counter) :: k in untried
      decreases |untried|
    {
      NextNameUntried(counter);
      assert name in untried;
      untried := untried - {name};
      counter := counter + 1;
      name := FieldName(counter);
    }
    forall m: nat | 1 <= m < counter ensures Has(parent, FieldName(m)) {
      AllTakenBelow(existing, counter, m);
    }
  }

  // ---------------------------------------------------------------------
  // reorderFields

  /** `entries.map(([key, value], index) => [key, { ...value, position: index }])` */
  function Renumbered(fs: seq<(string, Entry)>): seq<(string, Entry)> {
    seq(|fs|, i requires 0 <= i < |fs| => (fs[i].0, fs[i].1.(position := Some(i))))
  }

  /** The level after moving the field at `oldIndex` of the position order
      to `newIndex`, renumbered from zero. */
  function ReorderedLevel(level: Schema, oldIndex: nat, newIndex: nat): Schema
    requires oldIndex < |level.fields|
  {
    Schema(Renumbered(Moved(SortByPosition(level.fields), oldIndex, newIndex)))
  }

  /** After a reorder the positions of a level are exactly 0, 1, ..., n-1
      in key order. */
  lemma ReorderedPositions(level: Schema, oldIndex: nat, newIndex: nat)
    requires oldIndex < |level.fields|
    ensures var r := ReorderedLevel(level, oldIndex, newIndex);
      && |r.fields| == |level.fields|
      && forall i | 0 <= i < |r.fields| :: r.fields[i].1.position == Some(i)
  {
    MovedCharacterised(SortByPosition(level.fields), oldIndex, newIndex);
  }

  /** A move commutes with taking the keys. */
  lemma KeysOfMoved(fs: seq<(string, Entry)>, from: nat, to: nat)
    requires from < |fs|
    ensures KeysOf(Moved(fs, from, to)) == Moved(KeysOf(fs), from, to)
  {
    forall i | 0 <= i < |fs|
      ensures KeysOf(Moved(fs, from, to))[i] == Moved(KeysOf(fs), from, to)[i]
    {
      MovedIndex(fs, from, to, i);
      MovedIndex(KeysOf(fs), from, to, i);
    }
    MovedIndex(fs, from, to, 0);
    MovedIndex(KeysOf(fs), from, to, 0);
  }

  /** After a reorder the keys of a level are the keys in position order
      with the key at `oldIndex` moved to `newIndex` (or last). */
  lemma ReorderedKeys(level: Schema, oldIndex: nat, newIndex: nat)
    requires oldIndex < |level.fields|
    ensures var sorted := SortByPosition(level.fields);
      var r := ReorderedLevel(level, oldIndex, newIndex);
      var at := if newIndex < |sorted| - 1 then newIndex else |sorted| - 1;
      && Keys(r) == Moved(KeysOf(sorted), oldIndex, newIndex)
      && Keys(r)[at] == KeysOf(sorted)[oldIndex]
  {
    var sorted := SortByPosition(level.fields);
    KeysRenumbered(Moved(sorted, oldIndex, newIndex));
    KeysOfMoved(sorted, oldIndex, newIndex);
    MovedLands(KeysOf(sorted), oldIndex, newIndex);
  }

  /** Renumbering keeps the keys and their order. */
  lemma KeysRenumbered(fs: seq<(string, Entry)>)
    ensures KeysOf(Renumbered(fs)) == KeysOf(fs)
  {
    assert forall i | 0 <= i < |fs| :: KeysOf(Renumbered(fs))[i] == KeysOf(fs)[i];
  }

  /** A reorder loses no field: each old field is in the new level with
      all its attributes but its position. */
  lemma ReorderedKeepsFields(level: Schema, oldIndex: nat, newIndex: nat, f: (string, Entry))
    requires oldIndex < |level.fields|
    requires f in level.fields
    ensures var r := ReorderedLevel(level, oldIndex, newIndex);
      exists i | 0 <= i < |r.fields| :: r.fields[i] == (f.0, f.1.(position := Some(i)))
  {
    var sorted := SortByPosition(level.fields);
    var moved := Moved(sorted, oldIndex, newIndex);
    var r := ReorderedLevel(level, oldIndex, newIndex);
    MovedCharacterised(sorted, oldIndex, newIndex);
    assert f in multiset(level.fields);
    assert f in multiset(moved);
    var i := MemberIndex(moved, f);
    assert r.fields[i] == (f.0, f.1.(position := Some(i)));
  }

  /** A reorder invents no field: each new field is an old one with only
      its position changed. */
  lemma ReorderedInventsNothing(level: Schema, oldIndex: nat, newIndex: nat, i: nat)
    requires oldIndex < |level.fields|
    requires i < |ReorderedLevel(level, oldIndex, newIndex).fields|
    ensures var r := ReorderedLevel(level, oldIndex, newIndex);
      exists f | f in level.fields :: r.fields[i] == (f.0, f.1.(position := Some(i)))
  {
    var sorted := SortByPosition(level.fields);
    var moved := Moved(sorted, oldIndex, newIndex);
    MovedCharacterised(sorted, oldIndex, newIndex);
    assert moved[i] in multiset(moved);
    assert moved[i] in multiset(level.fields);
    assert moved[i] in level.fields;
  }

  /** Reordering keeps a well-formed level well-formed. */
  lemma ReorderedLevelWellFormed(level: Schema, oldIndex: nat, newIndex: nat)
    requires oldIndex < |level.fields|
    requires WellFormed(level)
    ensures WellFormed(ReorderedLevel(level, oldIndex, newIndex))
  {
    var moved := Moved(SortByPosition(level.fields), oldIndex, newIndex);
    MovedPermutes(SortByPosition(level.fields), oldIndex, newIndex);
    PermutedWellFormed(level.fields, moved);
    RenumberedWellFormed(moved);
  }

  /** The fields of a well-formed level, in any order, form a well-formed
      level. */
  lemma PermutedWellFormed(xs: seq<(string, Entry)>, ys: seq<(string, Entry)>)
    requires multiset(xs) == multiset(ys) && WellFormed(Schema(xs))
    ensures WellFormed(Schema(ys))
  {
    var key := (f: (string, Entry)) => f.0;
    PermutationKeepsDistinct(xs, ys, key);
    forall i | 0 <= i < |ys| ensures EntryWellFormed(ys[i].1) {
      assert ys[i] in multiset(xs);
      var j := MemberIndex(xs, ys[i]);
      assert EntryWellFormed(xs[j].1);
    }
  }

  /** Positions play no part in well-formedness. */
  lemma RenumberedWellFormed(fs: seq<(string, Entry)>)
    requires WellFormed(Schema(fs))
    ensures WellFormed(Schema(Renumbered(fs)))
  {
    var r := Renumbered(fs);
    assert forall i | 0 <= i < |fs| :: r[i].0 == fs[i].0 && EntryWellFormed(r[i].1) == EntryWellFormed(fs[i].1);
  }

  /** `reorderFields`: sorts the level at `parentPath` by position, moves
      the field at `oldIndex` to `newIndex`, renumbers every field by its
      new index and writes the level back. The field at `oldIndex` must
      exist: the source reads it unchecked. */
  method ReorderFields(s: Schema, parentPath: seq<string>, oldIndex: nat, newIndex: nat) returns (r: Schema)
    requires oldIndex < |NestedAt(s, parentPath).fields|
    ensures Walkable(s, parentPath)
    ensures r == UpdatedAt(s, parentPath, ReorderedLevel(NestedAt(s, parentPath), oldIndex, newIndex))
    ensures NestedAt(r, parentPath) == ReorderedLevel(NestedAt(s, parentPath), oldIndex, newIndex)
  {
    var parent := GetNestedSchema(s, parentPath);
    var entries := SortByPosition(parent.fields);
    var movedEntry := entries[oldIndex];
    entries := entries[..oldIndex] + entries[oldIndex + 1..];
    var at := if newIndex < |entries| then newIndex else |entries|;
    entries := entries[..at] + [movedEntry] + entries[at..];
    var renumbered: seq<(string, Entry)> := [];
    var i := 0;
    while i < |entries|
      invariant 0 <= i <= |entries|
      invariant renumbered == Renumbered(entries[..i])
    {
      renumbered := renumbered + [(entries[i].0, entries[i].1.(position := Some(i)))];
      i := i + 1;
    }
    assert entries[..i] == entries;
    if !Resolves(s, parentPath) {
      NestedAtBroken(s, parentPath);
    }
    ResolvesWalkable(s, parentPath);
    r := UpdatedAt(s, parentPath, Schema(renumbered));
    UpdateThenGet(s, parentPath, Schema(renumbered));
  }
}
