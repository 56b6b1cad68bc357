/**
 * The responses page's columns (frontend/src/components/FormResponses.tsx):
 * `getAllFields` flattens a stored schema into one column per leaf field,
 * with a bracketed key, a header label and a position that scales a
 * container's position by 1000; the page then sorts the columns by
 * position.
 */
module FormResponses {
  import opened Base
  import opened SchemaModel
  import R = FormRendering

  /** One table column: `{ key, label, position }`. A position that is
      `undefined` or `NaN` in the source is `None`. */
  datatype Column = Column(key: string, labelText: string, position: Option<int>)

  /** Every `schema` entry carries a nested schema; `Object.entries` of a
      missing one throws, so the walk is only defined on these. */
  predicate Complete(s: Schema)
    decreases s, 1
  {
    forall i | 0 <= i < |s.fields| :: EntryComplete(s.fields[i].1)
  }

  predicate EntryComplete(e: Entry)
    decreases e, 0
  {
    IsContainer(e) ==> e.schema.Some? && Complete(e.schema.value)
  }

  predicate EndsWithBracket(k: string) {
    |k| > 0 && k[|k| - 1] == ']'
  }

  /** `field.position * 1000 + f.position`; `undefined` on either side
      gives `NaN`. */
  function Scaled(outer: Option<int>, inner: Option<int>): Option<int> {
    if outer.Some? && inner.Some? then Some(outer.value * 1000 + inner.value) else None
  }

  /** The `.map` over a container's columns: close the key with `]` unless
      it already ends with one, and scale the position. */
  function Lifted(outer: Option<int>, cs: seq<Column>): (r: seq<Column>)
    ensures |r| == |cs|
  {
    seq(|cs|, j requires 0 <= j < |cs| =>
      Column(if EndsWithBracket(cs[j].key) then cs[j].key else cs[j].key + "]",
             cs[j].labelText, Scaled(outer, cs[j].position)))
  }

  /** `getAllFields(schema, prefix)` */
  function AllFields(s: Schema, prefix: string): seq<Column>
    requires Complete(s)
    decreases s, 2
  {
    AllFieldsFrom(s, prefix, 0)
  }

  function AllFieldsFrom(s: Schema, prefix: string, i: nat): seq<Column>
    requires Complete(s)
    decreases s, 1, |s.fields| - i
  {
    if i >= |s.fields| then []
    else EntryColumns(s.fields[i].0, s.fields[i].1, prefix) + AllFieldsFrom(s, prefix, i + 1)
  }

  /** The columns of one entry: a container's nested columns, lifted, or
      one column for a leaf, labelled `field.label || key`. */
  function EntryColumns(key: string, e: Entry, prefix: string): seq<Column>
    requires EntryComplete(e)
    decreases e, 0
  {
    if IsContainer(e) then Lifted(e.position, AllFields(e.schema.value, prefix + key + "["))
    else [Column(if prefix != "" then prefix + key + "]" else key,
                 if Truthy(e.labelText) then e.labelText.value else key,
                 e.position)]
  }

  /** The comparator's view of a position; `undefined` and `NaN` compare
      as equal to everything, which the model reads as 0. */
  function ColumnOrder(c: Column): int {
    match c.position
    case Some(p) => p
    case None => 0
  }

  /** `getAllFields(form?.schema || {}).sort((a, b) => a.position - b.position)`:
      the flattened columns of the form's schema, or of `{}` when there is
      none, rearranged into position order. */
  function GetAllFields(schema: Option<Schema>): (r: seq<Column>)
    requires schema.Some? ==> Complete(schema.value)
    ensures SortedBy(r, ColumnOrder)
    ensures schema.None? ==> r == []
    ensures schema.Some? ==> multiset(r) == multiset(AllFields(schema.value, ""))
  {
    match schema
    case None =>
      assert AllFieldsFrom(EmptySchema, "", 0) == [];
      SortBy(AllFields(EmptySchema, ""), ColumnOrder)
    case Some(s) =>
      SortBySorted(AllFields(s, ""), ColumnOrder);
      SortBy(AllFields(s, ""), ColumnOrder)
  }

  // ---------------------------------------------------------------------
  // What each column is

  /** The key a leaf at path `p` gets below `prefix`: the bare key at the
      top level, else the keys joined by `[` and closed by one `]`. */
  function KeyFor(prefix: string, p: seq<string>): string
    requires p != []
  {
    if prefix == "" && |p| == 1 then p[0] else prefix + Join(p, "[") + "]"
  }

  /** The column key of a leaf path, as the responses table looks the
      answer up. */
  function ColumnKey(p: seq<string>): string
    requires p != []
  {
    KeyFor("", p)
  }

  /** One column per leaf, in depth-first insertion order: its key is the
      joined path, and its label is empty only when the leaf's own key is.
      In a schema with distinct keys the header is the leaf's label, or its
      key, and the sort key is the positions along the path, each
      container's scaled by 1000. */
  lemma {:induction false} AllFieldsColumns(s: Schema, prefix: string)
    requires Complete(s)
    ensures |AllFields(s, prefix)| == |LeafPaths(s)|
    ensures forall j | 0 <= j < |LeafPaths(s)| ::
      && LeafPaths(s)[j] != []
      && AllFields(s, prefix)[j].key == KeyFor(prefix, LeafPaths(s)[j])
      && (AllFields(s, prefix)[j].labelText == "" ==> LeafPaths(s)[j][|LeafPaths(s)[j]| - 1] == "")
    ensures WellFormed(s) ==> forall j | 0 <= j < |LeafPaths(s)| ::
      ColumnOfLeaf(AllFields(s, prefix)[j], EntryAt(s, LeafPaths(s)[j]), LeafPaths(s)[j], PositionAt(s, LeafPaths(s)[j]))
    decreases s, 2
  {
    AllFieldsFromColumns(s, prefix, 0);
    if WellFormed(s) {
      AllFieldsLeaves(s, prefix);
    }
  }

  lemma {:induction false} AllFieldsFromColumns(s: Schema, prefix: string, i: nat)
    requires Complete(s) && i <= |s.fields|
    ensures |AllFieldsFrom(s, prefix, i)| == |LeafPathsFrom(s, i)|
    ensures forall j | 0 <= j < |LeafPathsFrom(s, i)| ::
      && LeafPathsFrom(s, i)[j] != []
      && AllFieldsFrom(s, prefix, i)[j].key == KeyFor(prefix, LeafPathsFrom(s, i)[j])
      && (AllFieldsFrom(s, prefix, i)[j].labelText == "" ==> LeafPathsFrom(s, i)[j][|LeafPathsFrom(s, i)[j]| - 1] == "")
    decreases s, 1, |s.fields| - i
  {
    if i < |s.fields| {
      var here := EntryColumns(s.fields[i].0, s.fields[i].1, prefix);
      var herePaths := EntryLeafPaths(s.fields[i].0, s.fields[i].1);
      EntryColumnsShape(s.fields[i].0, s.fields[i].1, prefix);
      AllFieldsFromColumns(s, prefix, i + 1);
      var cs := AllFieldsFrom(s, prefix, i);
      var ps := LeafPathsFrom(s, i);
      assert cs == here + AllFieldsFrom(s, prefix, i + 1);
      assert ps == herePaths + LeafPathsFrom(s, i + 1);
      forall j | 0 <= j < |ps|
        ensures ps[j] != [] && cs[j].key == KeyFor(prefix, ps[j])
        ensures cs[j].labelText == "" ==> ps[j][|ps[j]| - 1] == ""
      {
        if j >= |here| {
          assert cs[j] == AllFieldsFrom(s, prefix, i + 1)[j - |here|];
          assert ps[j] == LeafPathsFrom(s, i + 1)[j - |here|];
        }
      }
    }
  }

  /** The same for the columns of one entry under key `k`; each leaf path
      starts at `k`. */
  lemma {:induction false} EntryColumnsShape(k: string, e: Entry, prefix: string)
    requires EntryComplete(e)
    ensures |EntryColumns(k, e, prefix)| == |EntryLeafPaths(k, e)|
    ensures forall j | 0 <= j < |EntryLeafPaths(k, e)| ::
      && EntryLeafPaths(k, e)[j] != []
      && EntryColumns(k, e, prefix)[j].key == KeyFor(prefix, EntryLeafPaths(k, e)[j])
      && (EntryColumns(k, e, prefix)[j].labelText == "" ==> EntryLeafPaths(k, e)[j][|EntryLeafPaths(k, e)[j]| - 1] == "")
    ensures EntryWellFormed(e) ==> forall j | 0 <= j < |EntryLeafPaths(k, e)| ::
      && EntryLeafPaths(k, e)[j] != [] && EntryLeafPaths(k, e)[j][0] == k
      && ColumnOfLeaf(EntryColumns(k, e, prefix)[j], EntryWithin(e, EntryLeafPaths(k, e)[j][1..]),
                      EntryLeafPaths(k, e)[j], PositionWithin(e, EntryLeafPaths(k, e)[j][1..]))
    decreases e, 0
  {
    if EntryWellFormed(e) {
      EntryColumnsLeaves(k, e, prefix);
    }
    if IsContainer(e) {
      var c := e.schema.value;
      var inner := prefix + k + "[";
      AllFieldsColumns(c, inner);
      var cs := AllFields(c, inner);
      var qs := LeafPaths(c);
      forall j | 0 <= j < |qs|
        ensures EntryLeafPaths(k, e)[j] != []
        ensures EntryColumns(k, e, prefix)[j].key == KeyFor(prefix, EntryLeafPaths(k, e)[j])
        ensures EntryColumns(k, e, prefix)[j].labelText == "" ==> EntryLeafPaths(k, e)[j][|EntryLeafPaths(k, e)[j]| - 1] == ""
      {
        var q := qs[j];
        var p := [k] + q;
        assert EntryLeafPaths(k, e)[j] == p;
        assert p[1..] == q;
        assert Join(p, "[") == k + "[" + Join(q, "[");
        assert cs[j].key == inner + Join(q, "[") + "]";
        assert EndsWithBracket(cs[j].key);
        assert EntryColumns(k, e, prefix)[j].key == cs[j].key;
        assert KeyFor(prefix, p) == prefix + Join(p, "[") + "]";
        assert p[|p| - 1] == q[|q| - 1];
      }
    } else {
      assert EntryLeafPaths(k, e) == [[k]];
      assert Join([k], "[") == k;
    }
  }

  // ---------------------------------------------------------------------
  // What each column shows and where it sorts

  /** The entry a path names: each key is looked up in turn, stepping
      into the nested schema of every entry before the last. */
  function EntryAt(s: Schema, p: seq<string>): Option<Entry>
    decreases |p|, 0
  {
    if p == [] then None
    else match Lookup(s, p[0])
      case None => None
      case Some(e) => EntryWithin(e, p[1..])
  }

  /** The entry the rest `q` of a path names below `e`; `e` itself when
      nothing is left. */
  function EntryWithin(e: Entry, q: seq<string>): Option<Entry>
    decreases |q|, 1
  {
    if q == [] then Some(e)
    else if e.schema.Some? then EntryAt(e.schema.value, q) else None
  }

  /** The sort key of the leaf at a path: every container's position times
      1000 plus the key below it, missing when any position on the way
      is. */
  function PositionAt(s: Schema, p: seq<string>): Option<int>
    decreases |p|, 0
  {
    if p == [] then None
    else match Lookup(s, p[0])
      case None => None
      case Some(e) => PositionWithin(e, p[1..])
  }

  function PositionWithin(e: Entry, q: seq<string>): Option<int>
    decreases |q|, 1
  {
    if q == [] then e.position
    else if e.schema.Some? then Scaled(e.position, PositionAt(e.schema.value, q)) else None
  }

  /** In a level with distinct keys, a path starting at a field's key
      leads through that field. */
  lemma PathAtIndex(s: Schema, i: nat, p: seq<string>)
    requires UniqueKeys(s) && i < |s.fields|
    requires p != [] && p[0] == s.fields[i].0
    ensures EntryAt(s, p) == EntryWithin(s.fields[i].1, p[1..])
    ensures PositionAt(s, p) == PositionWithin(s.fields[i].1, p[1..])
  {
    LookupAtIndex(s, i);
  }

  /** Column `c` is the one for the leaf at path `p`: the leaf exists, the
      header is its label, or its own key when the label is empty, and the
      column sorts by `position`. */
  predicate ColumnOfLeaf(c: Column, leaf: Option<Entry>, p: seq<string>, position: Option<int>) {
    && p != [] && leaf.Some?
    && c.labelText == (if Truthy(leaf.value.labelText) then leaf.value.labelText.value else p[|p| - 1])
    && c.position == position
  }

  /** The `j`th column of a form shows the label of the entry at the
      `j`th leaf path, or that leaf's key, and sorts by the positions
      along the path, each container's scaled by 1000. */
  lemma {:induction false} AllFieldsLeaves(s: Schema, prefix: string)
    requires Complete(s) && WellFormed(s)
    ensures |AllFields(s, prefix)| == |LeafPaths(s)|
    ensures forall j | 0 <= j < |LeafPaths(s)| ::
      ColumnOfLeaf(AllFields(s, prefix)[j], EntryAt(s, LeafPaths(s)[j]), LeafPaths(s)[j], PositionAt(s, LeafPaths(s)[j]))
    decreases s, 2
  {
    AllFieldsFromLeaves(s, prefix, 0);
  }

  lemma {:induction false} AllFieldsFromLeaves(s: Schema, prefix: string, i: nat)
    requires Complete(s) && WellFormed(s) && i <= |s.fields|
    ensures |AllFieldsFrom(s, prefix, i)| == |LeafPathsFrom(s, i)|
    ensures forall j | 0 <= j < |LeafPathsFrom(s, i)| ::
      ColumnOfLeaf(AllFieldsFrom(s, prefix, i)[j], EntryAt(s, LeafPathsFrom(s, i)[j]), LeafPathsFrom(s, i)[j],
                   PositionAt(s, LeafPathsFrom(s, i)[j]))
    decreases s, 1, |s.fields| - i
  {
    if i < |s.fields| {
      var k := s.fields[i].0;
      var e := s.fields[i].1;
      assert EntryComplete(e) && EntryWellFormed(e);
      EntryColumnsLeaves(k, e, prefix);
      AllFieldsFromLeaves(s, prefix, i + 1);
      var here := EntryColumns(k, e, prefix);
      var herePaths := EntryLeafPaths(k, e);
      var cs := AllFieldsFrom(s, prefix, i);
      var ps := LeafPathsFrom(s, i);
      assert cs == here + AllFieldsFrom(s, prefix, i + 1);
      assert ps == herePaths + LeafPathsFrom(s, i + 1);
      forall j | 0 <= j < |ps|
        ensures ColumnOfLeaf(cs[j], EntryAt(s, ps[j]), ps[j], PositionAt(s, ps[j]))
      {
        if j < |here| {
          var p := herePaths[j];
          assert ps[j] == p && cs[j] == here[j];
          PathAtIndex(s, i, p);
        } else {
          assert cs[j] == AllFieldsFrom(s, prefix, i + 1)[j - |here|];
          assert ps[j] == LeafPathsFrom(s, i + 1)[j - |here|];
        }
      }
    }
  }

  /** The same for the columns of one entry under key `k`: each leaf path
      starts at `k`, and the rest of it leads from the entry to the leaf
      and its scaled position. */
  lemma {:induction false} EntryColumnsLeaves(k: string, e: Entry, prefix: string)
    requires EntryComplete(e) && EntryWellFormed(e)
    ensures |EntryColumns(k, e, prefix)| == |EntryLeafPaths(k, e)|
    ensures forall j | 0 <= j < |EntryLeafPaths(k, e)| ::
      && EntryLeafPaths(k, e)[j] != [] && EntryLeafPaths(k, e)[j][0] == k
      && ColumnOfLeaf(EntryColumns(k, e, prefix)[j], EntryWithin(e, EntryLeafPaths(k, e)[j][1..]),
                      EntryLeafPaths(k, e)[j], PositionWithin(e, EntryLeafPaths(k, e)[j][1..]))
    decreases e, 0
  {
    if IsContainer(e) {
      var c := e.schema.value;
      var inner := prefix + k + "[";
      AllFieldsLeaves(c, inner);
      var cs := AllFields(c, inner);
      var qs := LeafPaths(c);
      assert EntryColumns(k, e, prefix) == Lifted(e.position, cs);
      forall j | 0 <= j < |qs|
        ensures EntryLeafPaths(k, e)[j] != [] && EntryLeafPaths(k, e)[j][0] == k
        ensures ColumnOfLeaf(EntryColumns(k, e, prefix)[j], EntryWithin(e, EntryLeafPaths(k, e)[j][1..]),
                             EntryLeafPaths(k, e)[j], PositionWithin(e, EntryLeafPaths(k, e)[j][1..]))
      {
        var q := qs[j];
        var p := [k] + q;
        assert EntryLeafPaths(k, e)[j] == p;
        assert p[1..] == q;
        assert EntryWithin(e, q) == EntryAt(c, q);
        assert PositionWithin(e, q) == Scaled(e.position, PositionAt(c, q));
        assert p[|p| - 1] == q[|q| - 1];
      }
    } else {
      assert EntryLeafPaths(k, e) == [[k]];
      assert [k][1..] == [];
    }
  }

  /** The page shows one column per leaf field of the form, through every
      level, and no other; no form gives no columns. */
  lemma ColumnCount(schema: Option<Schema>)
    requires schema.Some? ==> Complete(schema.value)
    ensures schema.None? ==> GetAllFields(schema) == []
    ensures schema.Some? ==> |GetAllFields(schema)| == LeafCount(schema.value)
  {
    if schema.Some? {
      AllFieldsColumns(schema.value, "");
    } else {
      assert AllFieldsFrom(EmptySchema, "", 0) == [];
    }
  }

  /** The sort orders columns by position, keeps exactly the flattened
      columns, and leaves columns with equal positions in their depth-first
      order. */
  lemma ColumnsSorted(s: Schema, k: int)
    requires Complete(s)
    ensures SortedBy(GetAllFields(Some(s)), ColumnOrder)
    ensures multiset(GetAllFields(Some(s))) == multiset(AllFields(s, ""))
    ensures WithKey(GetAllFields(Some(s)), ColumnOrder, k) == WithKey(AllFields(s, ""), ColumnOrder, k)
  {
    SortBySorted(AllFields(s, ""), ColumnOrder);
    SortByStable(AllFields(s, ""), ColumnOrder, k);
  }

  // ---------------------------------------------------------------------
  // Column keys against control names

  function TotalLength(ks: seq<string>): nat {
    if ks == [] then 0 else |ks[0]| + TotalLength(ks[1..])
  }

  lemma {:induction false} JoinLength(ks: seq<string>)
    requires ks != []
    ensures |Join(ks, "[")| == TotalLength(ks) + |ks| - 1
    decreases |ks|
  {
    if |ks| > 1 {
      JoinLength(ks[1..]);
    }
  }

  lemma {:induction false} BracketsLength(ks: seq<string>)
    ensures |R.Brackets(ks)| == TotalLength(ks) + 2 * |ks|
    decreases |ks|
  {
    if ks != [] {
      BracketsLength(ks[1..]);
    }
  }

  /** The generated form names a leaf at path `p` `p0[p1][p2]…`; the
      responses table looks it up under `p0[p1[p2…]`. The two agree for
      top-level fields and one level of nesting, and never below that. */
  lemma ColumnKeyAgainstName(p: seq<string>)
    requires p != []
    ensures |p| <= 2 ==> ColumnKey(p) == R.BracketName(p)
    ensures |p| >= 3 ==> ColumnKey(p) != R.BracketName(p)
  {
    if |p| == 1 {
      assert R.Brackets(p[1..]) == "";
    } else if |p| == 2 {
      assert p[1..][1..] == [];
      assert R.Brackets(p[1..]) == "[" + p[1] + "]" + "";
      assert Join(p[1..], "[") == p[1];
    } else {
      JoinLength(p);
      BracketsLength(p[1..]);
      assert TotalLength(p) == |p[0]| + TotalLength(p[1..]);
    }
  }

  // ---------------------------------------------------------------------
  // The scaled positions do not keep nested columns together

  const Nested := Schema([("x", NoProperties.(kind := Some("text"), position := Some(5)))])
  const Outer := Schema([
    ("a", Container(Nested).(position := Some(0))),
    ("b", NoProperties.(kind := Some("text"), position := Some(1)))])

  /** A container at position 0 whose field sits at position 5, and a
      top-level field at position 1: the form shows `a[x]` before `b`, the
      responses table puts `b` first, because only nested positions are
      scaled by 1000. */
  lemma NestedColumnAfterLaterSibling()
    ensures Complete(Outer)
    ensures GetAllFields(Some(Outer)) == [Column("b", "b", Some(1)), Column("a[x]", "x", Some(5))]
  {
    OuterComplete();
    OuterColumns();
    SortByTwo(Column("a[x]", "x", Some(5)), Column("b", "b", Some(1)), ColumnOrder);
  }

  lemma OuterComplete()
    ensures Complete(Nested) && Complete(Outer)
  {
    assert EntryComplete(Nested.fields[0].1);
    assert Complete(Nested);
    assert EntryComplete(Outer.fields[0].1);
    assert EntryComplete(Outer.fields[1].1);
  }

  /** Before sorting, the nested column comes first, as in the form. */
  lemma OuterColumns()
    requires Complete(Nested) && Complete(Outer)
    ensures AllFields(Outer, "") == [Column("a[x]", "x", Some(5)), Column("b", "b", Some(1))]
  {
    var inner := AllFields(Nested, "a[");
    NestedColumns();
    assert EndsWithBracket(inner[0].key);
    var lifted := EntryColumns("a", Outer.fields[0].1, "");
    assert "" + "a" + "[" == "a[";
    assert lifted == Lifted(Some(0), inner);
    assert lifted == [Column("a[x]", "x", Some(5))];
    assert EntryColumns("b", Outer.fields[1].1, "") == [Column("b", "b", Some(1))];
    assert AllFieldsFrom(Outer, "", 2) == [];
    assert AllFieldsFrom(Outer, "", 1) == [Column("b", "b", Some(1))];
    assert AllFieldsFrom(Outer, "", 0) == lifted + AllFieldsFrom(Outer, "", 1);
  }

  lemma NestedColumns()
    requires Complete(Nested)
    ensures AllFields(Nested, "a[") == [Column("a[x]", "x", Some(5))]
  {
    var x := Nested.fields[0].1;
    assert "a[" + "x" + "]" == "a[x]";
    assert EntryColumns("x", x, "a[") == [Column("a[x]", "x", Some(5))];
    assert AllFieldsFrom(Nested, "a[", 1) == [];
    assert AllFieldsFrom(Nested, "a[", 0) == EntryColumns("x", x, "a[") + AllFieldsFrom(Nested, "a[", 1);
  }
}
