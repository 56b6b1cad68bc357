/**
 * The form schema (frontend/src/types/schemas.ts): an insertion-ordered
 * mapping from field key to entry, where a `schema` entry nests another
 * schema. Entries are plain JSON objects in the source; here each known
 * property is an optional field and every other property is kept, in
 * order, in `extras`.
 */
module SchemaModel {
  import opened Base

  /** One select option, in either accepted shape: the older `[value, label]`
      tuple or the `{value, label}` object. */
  datatype SelectOption =
    | TupleOption(first: string, second: string)
    | ObjectOption(value: string, labelText: string)

  datatype Entry = Entry(
    kind: Option<string>,                 // the `type` property
    labelText: Option<string>,           // the `label` property
    hint: Option<string>,
    position: Option<int>,
    options: Option<seq<SelectOption>>,
    placeholder: Option<string>,
    optionsRaw: Option<string>,           // option text typed in the editor
    schema: Option<Schema>,               // the nested schema of a container
    extras: seq<(string, string)>)        // any other property, in insertion order

  datatype Schema = Schema(fields: seq<(string, Entry)>)

  const EmptySchema := Schema([])

  /** The empty object `{}`; spreading an absent entry gives this. */
  const NoProperties := Entry(None, None, None, None, None, None, None, None, [])

  /** `{ type: 'schema', schema: child }` */
  function Container(child: Schema): (e: Entry)
    ensures e.kind == Some("schema") && e.schema == Some(child)
  {
    NoProperties.(kind := Some("schema"), schema := Some(child))
  }

  predicate IsContainer(e: Entry) {
    e.kind == Some("schema")
  }

  // ---------------------------------------------------------------------
  // Keys, lookup and the two object updates the source uses

  function KeysOf<V>(fs: seq<(string, V)>): (ks: seq<string>)
    ensures |ks| == |fs|
    ensures forall i | 0 <= i < |fs| :: ks[i] == fs[i].0
  {
    seq(|fs|, i requires 0 <= i < |fs| => fs[i].0)
  }

  lemma KeysOfCons<V>(f: (string, V), fs: seq<(string, V)>)
    ensures KeysOf([f] + fs) == [f.0] + KeysOf(fs)
  {
    assert forall i | 0 <= i < |fs| + 1 :: KeysOf([f] + fs)[i] == ([f.0] + KeysOf(fs))[i];
  }

  /** `Object.keys(s)` */
  function Keys(s: Schema): seq<string> {
    KeysOf(s.fields)
  }

  predicate Has(s: Schema, k: string) {
    k in Keys(s)
  }

  function LookupIn(fs: seq<(string, Entry)>, k: string): (r: Option<Entry>)
    ensures r.Some? <==> k in KeysOf(fs)
    ensures r.Some? ==> exists i | 0 <= i < |fs| :: fs[i] == (k, r.value)
  {
    if fs == [] then None
    else if fs[0].0 == k then Some(fs[0].1)
    else LookupIn(fs[1..], k)
  }

  /** `s[k]`, absent when `k` is not a key. */
  function Lookup(s: Schema, k: string): Option<Entry> {
    LookupIn(s.fields, k)
  }

  function PutIn(fs: seq<(string, Entry)>, k: string, e: Entry): (r: seq<(string, Entry)>)
    ensures KeysOf(r) == if k in KeysOf(fs) then KeysOf(fs) else KeysOf(fs) + [k]
    ensures LookupIn(r, k) == Some(e)
    ensures forall k' | k' != k :: LookupIn(r, k') == LookupIn(fs, k')
  {
    if fs == [] then
      assert KeysOf([(k, e)]) == [k];
      [(k, e)]
    else
      KeysOfCons(fs[0], fs[1..]);
      assert fs == [fs[0]] + fs[1..];
      if fs[0].0 == k then
        KeysOfCons((k, e), fs[1..]);
        [(k, e)] + fs[1..]
      else
        var rest := PutIn(fs[1..], k, e);
        KeysOfCons(fs[0], rest);
        [fs[0]] + rest
  }

  /** A put adds nothing but the entry it puts. */
  lemma {:induction false} PutInMembers(fs: seq<(string, Entry)>, k: string, e: Entry)
    ensures forall f | f in PutIn(fs, k, e) :: f == (k, e) || f in fs
  {
    if fs != [] && fs[0].0 != k {
      PutInMembers(fs[1..], k, e);
      assert PutIn(fs, k, e) == [fs[0]] + PutIn(fs[1..], k, e);
    }
  }

  /** `{ ...s, [k]: e }`, equally `s[k] = e`: an existing key keeps its
      place, a new key goes last. */
  function Put(s: Schema, k: string, e: Entry): Schema {
    Schema(PutIn(s.fields, k, e))
  }

  function RemoveIn(fs: seq<(string, Entry)>, k: string): (r: seq<(string, Entry)>)
    ensures |r| <= |fs|
    ensures k !in KeysOf(r)
    ensures forall k' | k' != k :: LookupIn(r, k') == LookupIn(fs, k')
    ensures forall f | f in r :: f in fs
  {
    if fs == [] then []
    else if fs[0].0 == k then RemoveIn(fs[1..], k)
    else [fs[0]] + RemoveIn(fs[1..], k)
  }

  /** `const { [k]: _, ...rest } = s`: every other key, in order. */
  function Remove(s: Schema, k: string): Schema {
    Schema(RemoveIn(s.fields, k))
  }

  // ---------------------------------------------------------------------
  // Well-formedness: what a JavaScript object guarantees by construction

  predicate UniqueKeys(s: Schema) {
    forall i, j | 0 <= i < j < |s.fields| :: s.fields[i].0 != s.fields[j].0
  }

  lemma UniqueKeysDistinct(s: Schema)
    ensures UniqueKeys(s) <==> Distinct(Keys(s))
  {
    assert forall i | 0 <= i < |s.fields| :: Keys(s)[i] == s.fields[i].0;
  }

  /** With distinct keys, looking up a field's key finds that field. */
  lemma LookupAtIndex(s: Schema, i: nat)
    requires UniqueKeys(s) && i < |s.fields|
    ensures Lookup(s, s.fields[i].0) == Some(s.fields[i].1)
  {
    var k := s.fields[i].0;
    assert KeysOf(s.fields)[i] == k;
    var j :| 0 <= j < |s.fields| && s.fields[j] == (k, Lookup(s, k).value);
  }

  /** The property names an entry models by its own fields. */
  predicate Reserved(k: string) {
    k in {"type", "label", "hint", "position", "options", "placeholder", "optionsRaw", "schema"}
  }

  predicate ExtrasOk(e: Entry) {
    && (forall i, j | 0 <= i < j < |e.extras| :: e.extras[i].0 != e.extras[j].0)
    && (forall i | 0 <= i < |e.extras| :: !Reserved(e.extras[i].0))
  }

  /** Keys are unique at every level and no extra property shadows a known
      one. */
  predicate WellFormed(s: Schema)
    decreases s, 1
  {
    UniqueKeys(s) && forall i | 0 <= i < |s.fields| :: EntryWellFormed(s.fields[i].1)
  }

  predicate EntryWellFormed(e: Entry)
    decreases e, 0
  {
    ExtrasOk(e) && (e.schema.Some? ==> WellFormed(e.schema.value))
  }

  // ---------------------------------------------------------------------
  // Positions

  /** `entry.position ?? 0` */
  function PosOrZero(e: Entry): int {
    match e.position
    case Some(p) => p
    case None => 0
  }

  function PositionKey(f: (string, Entry)): int {
    PosOrZero(f.1)
  }

  /** `Object.entries(s).sort((a, b) => (a[1].position ?? 0) - (b[1].position ?? 0))` */
  function SortByPosition(fs: seq<(string, Entry)>): (r: seq<(string, Entry)>)
    ensures multiset(r) == multiset(fs)
    ensures |r| == |fs|
  {
    SortBy(fs, PositionKey)
  }

  // ---------------------------------------------------------------------
  // Leaves: the entries that are not containers, with their key paths

  /** The key paths of the non-container entries, depth first in insertion
      order. A container without a nested schema has no leaves. */
  function LeafPaths(s: Schema): seq<seq<string>>
    decreases s, 2
  {
    LeafPathsFrom(s, 0)
  }

  function LeafPathsFrom(s: Schema, i: nat): seq<seq<string>>
    decreases s, 1, |s.fields| - i
  {
    if i >= |s.fields| then []
    else EntryLeafPaths(s.fields[i].0, s.fields[i].1) + LeafPathsFrom(s, i + 1)
  }

  function EntryLeafPaths(k: string, e: Entry): seq<seq<string>>
    decreases e, 0
  {
    if !IsContainer(e) then [[k]]
    else match e.schema
      case None => []
      case Some(c) => Prefixed(k, LeafPaths(c))
  }

  function Prefixed(k: string, ps: seq<seq<string>>): (r: seq<seq<string>>)
    ensures |r| == |ps|
    ensures forall i | 0 <= i < |ps| :: r[i] == [k] + ps[i]
  {
    if ps == [] then [] else [[k] + ps[0]] + Prefixed(k, ps[1..])
  }

  /** The number of non-container entries, counted through every level. */
  function LeafCount(s: Schema): nat {
    |LeafPaths(s)|
  }

  function EntryLeafCount(e: Entry): nat {
    |EntryLeafPaths("", e)|
  }

  /** Every leaf path is non-empty and starts with a key of the level. */
  lemma {:induction false} LeafPathsShape(s: Schema, i: nat)
    ensures forall p | p in LeafPathsFrom(s, i) :: |p| >= 1 && p[0] in Keys(s)
    decreases |s.fields| - i
  {
    if i < |s.fields| {
      LeafPathsShape(s, i + 1);
      var here := EntryLeafPaths(s.fields[i].0, s.fields[i].1);
      assert forall p | p in here :: |p| >= 1 && p[0] == s.fields[i].0;
      assert s.fields[i].0 == Keys(s)[i];
    }
  }
}
