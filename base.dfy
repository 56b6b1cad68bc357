/**
 * Shared building blocks: an optional value, a result, and the handful of
 * JavaScript string and array primitives the form builder relies on
 * (`split`, `join`, `trim`, `toUpperCase` on one character, number to
 * decimal text, and the stable `Array.prototype.sort`).
 */
module Base {

  datatype Option<+T> = None | Some(value: T)

  datatype Result<+T> = Ok(value: T) | Err(error: string)

  /** JavaScript truthiness of an optional string: absent and "" are falsy. */
  predicate Truthy(s: Option<string>) {
    s.Some? && s.value != ""
  }

  // ---------------------------------------------------------------------
  // Characters

  /** `toUpperCase` on one character, for the ASCII letters. */
  function UpperChar(c: char): (u: char)
    ensures 'a' <= c <= 'z' ==> 'A' <= u <= 'Z' && u as int == c as int - 32
    ensures !('a' <= c <= 'z') ==> u == c
  {
    if 'a' <= c <= 'z' then (c as int - 32) as char else c
  }

  /** `s.charAt(0).toUpperCase() + s.slice(1)` */
  function Capitalize(s: string): (r: string)
    ensures |r| == |s|
    ensures s == [] || r[1..] == s[1..]
    ensures s != [] ==> r[0] == UpperChar(s[0])
  {
    if s == [] then [] else [UpperChar(s[0])] + s[1..]
  }

  /** The characters `String.prototype.trim` removes (the Unicode space
      separators beyond U+00A0 are not modelled). */
  predicate IsSpace(c: char) {
    c == ' ' || c == '\t' || c == '\n' || c == '\r' || c == '\U{000B}' || c == '\U{000C}'
    || c == '\U{00A0}' || c == '\U{2028}' || c == '\U{2029}' || c == '\U{FEFF}'
  }

  predicate AllSpace(s: string) {
    forall k | 0 <= k < |s| :: IsSpace(s[k])
  }

  function TrimStart(s: string): string {
    if s != [] && IsSpace(s[0]) then TrimStart(s[1..]) else s
  }

  function TrimEnd(s: string): string {
    if s != [] && IsSpace(s[|s| - 1]) then TrimEnd(s[..|s| - 1]) else s
  }

  /** `trimStart` drops a run of leading spaces and nothing else. */
  lemma {:induction false} TrimStartSpec(s: string)
    ensures var r := TrimStart(s);
      && |r| <= |s| && r == s[|s| - |r|..]
      && (r == [] || !IsSpace(r[0]))
      && AllSpace(s[..|s| - |r|])
  {
    if s != [] && IsSpace(s[0]) {
      TrimStartSpec(s[1..]);
      var r := TrimStart(s[1..]);
      assert s[..|s| - |r|] == [s[0]] + s[1..][..|s| - 1 - |r|];
    }
  }

  /** `trimEnd` drops a run of trailing spaces and nothing else. */
  lemma {:induction false} TrimEndSpec(s: string)
    ensures var r := TrimEnd(s);
      && |r| <= |s| && r == s[..|r|]
      && (r == [] || !IsSpace(r[|r| - 1]))
      && AllSpace(s[|r|..])
  {
    if s != [] && IsSpace(s[|s| - 1]) {
      TrimEndSpec(s[..|s| - 1]);
      var r := TrimEnd(s[..|s| - 1]);
      assert s[|r|..] == s[..|s| - 1][|r|..] + [s[|s| - 1]];
    }
  }

  /** `String.prototype.trim` */
  function Trim(s: string): string {
    TrimEnd(TrimStart(s))
  }

  /** Trimming keeps a contiguous slice of the input (what it drops on each
      side is all spaces, by the contracts of TrimStart and TrimEnd), and the
      slice neither starts nor ends with a space. */
  lemma TrimIsSlice(s: string)
    ensures var i := |s| - |TrimStart(s)|;
      0 <= i <= i + |Trim(s)| <= |s| && Trim(s) == s[i..i + |Trim(s)|]
    ensures Trim(s) == [] || (!IsSpace(Trim(s)[0]) && !IsSpace(Trim(s)[|Trim(s)| - 1]))
  {
    var t := TrimStart(s);
    var r := TrimEnd(t);
    TrimStartSpec(s);
    TrimEndSpec(t);
    assert t == s[|s| - |t|..];
    if r != [] { assert r[0] == t[0]; }
  }

  lemma {:induction false} TrimIdempotent(s: string)
    ensures Trim(Trim(s)) == Trim(s)
  {
    var r := Trim(s);
    TrimIsSlice(s);
    assert TrimStart(r) == r;
    assert TrimEnd(r) == r;
    assert Trim(r) == TrimEnd(TrimStart(r));
  }

  // ---------------------------------------------------------------------
  // Splitting and joining

  function CountChar(s: string, c: char): nat {
    if s == [] then 0 else (if s[0] == c then 1 else 0) + CountChar(s[1..], c)
  }

  /** `s.split(sep)` for a one-character separator: the pieces between
      separators, including empty ones; the empty string gives `[""]`. */
  function Split(s: string, sep: char): (parts: seq<string>)
    ensures |parts| == CountChar(s, sep) + 1
    ensures forall i | 0 <= i < |parts| :: sep !in parts[i]
  {
    if s == [] then [""]
    else
      var rest := Split(s[1..], sep);
      if s[0] == sep then [""] + rest else [[s[0]] + rest[0]] + rest[1..]
  }

  /** A text without the separator splits into itself. */
  lemma {:induction false} SplitWithoutSep(s: string, sep: char)
    requires sep !in s
    ensures Split(s, sep) == [s]
  {
    if s != [] {
      SplitWithoutSep(s[1..], sep);
      assert [s[0]] + s[1..] == s;
    }
  }

  /** Up to its first separator a text splits into that piece, then the
      rest's pieces. */
  lemma {:induction false} SplitAtFirst(x: string, sep: char, y: string)
    requires sep !in x
    ensures Split(x + [sep] + y, sep) == [x] + Split(y, sep)
  {
    if x == [] {
      assert x + [sep] + y == [sep] + y;
      assert ([sep] + y)[1..] == y;
    } else {
      SplitAtFirst(x[1..], sep, y);
      assert (x + [sep] + y)[1..] == x[1..] + [sep] + y;
      assert [x[0]] + x[1..] == x;
    }
  }

  /** `parts.join(sep)` */
  function Join(parts: seq<string>, sep: string): string {
    if parts == [] then ""
    else if |parts| == 1 then parts[0]
    else parts[0] + sep + Join(parts[1..], sep)
  }

  /** Joining from `i` is the part at `i`, the separator, and the join
      from `i + 1`. */
  lemma JoinStep(parts: seq<string>, i: nat, sep: string)
    requires i + 1 < |parts|
    ensures Join(parts[i..], sep) == parts[i] + sep + Join(parts[i + 1..], sep)
  {
    assert parts[i..][1..] == parts[i + 1..];
  }

  /** Splitting loses nothing: joining the pieces back with the separator
      gives the original text. */
  lemma {:induction false} JoinSplit(s: string, sep: char)
    ensures Join(Split(s, sep), [sep]) == s
  {
    if s != [] {
      var rest := Split(s[1..], sep);
      JoinSplit(s[1..], sep);
      assert s == [s[0]] + s[1..];
      if s[0] == sep {
        JoinEmptyFront(rest, [sep]);
      } else {
        JoinExtendFront(s[0], rest, [sep]);
      }
    }
  }

  lemma JoinEmptyFront(parts: seq<string>, sep: string)
    requires parts != []
    ensures Join([""] + parts, sep) == sep + Join(parts, sep)
  {
    assert ([""] + parts)[1..] == parts;
  }

  lemma JoinExtendFront(c: char, parts: seq<string>, sep: string)
    requires parts != []
    ensures Join([[c] + parts[0]] + parts[1..], sep) == [c] + Join(parts, sep)
  {
    var ps := [[c] + parts[0]] + parts[1..];
    assert ps[1..] == parts[1..];
    if |parts| > 1 {
      ConcatAssoc([c], parts[0], sep);
      ConcatAssoc([c], parts[0] + sep, Join(parts[1..], sep));
    }
  }

  /** `xs.filter(Boolean)` on strings: the empty strings are dropped. */
  function NonEmpty(xs: seq<string>): (r: seq<string>)
    ensures |r| <= |xs|
    ensures forall i | 0 <= i < |r| :: r[i] != ""
  {
    if xs == [] then []
    else if xs[0] == "" then NonEmpty(xs[1..])
    else [xs[0]] + NonEmpty(xs[1..])
  }

  /** The filter keeps every non-empty string and adds none. */
  lemma {:induction false} NonEmptyKeeps(xs: seq<string>)
    ensures forall i | 0 <= i < |NonEmpty(xs)| :: NonEmpty(xs)[i] in xs
    ensures forall x | x in xs && x != "" :: x in NonEmpty(xs)
  {
    if xs != [] {
      NonEmptyKeeps(xs[1..]);
      assert forall x | x in xs[1..] :: x in xs;
      assert forall x | x in xs :: x == xs[0] || x in xs[1..];
    }
  }

  // ---------------------------------------------------------------------
  // Numbers as decimal text (template-literal interpolation of a number)

  function Digit(d: nat): char
    requires d < 10
  {
    "0123456789"[d]
  }

  function DigitValue(c: char): nat {
    if '0' <= c <= '9' then c as nat - '0' as nat else 0
  }

  function NatToString(n: nat): (s: string)
    ensures |s| >= 1
    ensures forall i | 0 <= i < |s| :: '0' <= s[i] <= '9'
    decreases n
  {
    if n < 10 then [Digit(n)] else NatToString(n / 10) + [Digit(n % 10)]
  }

  function IntToString(i: int): string {
    if i < 0 then "-" + NatToString(-i) else NatToString(i)
  }

  /** Reads decimal digits back into a number. */
  function ParseNat(s: string): nat {
    if s == [] then 0 else ParseNat(s[..|s| - 1]) * 10 + DigitValue(s[|s| - 1])
  }

  lemma {:induction false} ParseNatToString(n: nat)
    ensures ParseNat(NatToString(n)) == n
    decreases n
  {
    var s := NatToString(n);
    if n < 10 {
      assert s[..0] == [];
      DigitValueDigit(n);
    } else {
      ParseNatToString(n / 10);
      assert s[..|s| - 1] == NatToString(n / 10);
      DigitValueDigit(n % 10);
      assert ParseNat(s) == (n / 10) * 10 + n % 10;
    }
  }

  lemma DigitValueDigit(d: nat)
    requires d < 10
    ensures DigitValue(Digit(d)) == d
  {
    if d == 0 {} else if d == 1 {} else if d == 2 {} else if d == 3 {} else if d == 4 {}
    else if d == 5 {} else if d == 6 {} else if d == 7 {} else if d == 8 {} else {}
  }

  /** Distinct numbers print differently. */
  lemma NatToStringInjective(m: nat, n: nat)
    requires NatToString(m) == NatToString(n)
    ensures m == n
  {
    ParseNatToString(m);
    ParseNatToString(n);
  }

  // ---------------------------------------------------------------------
  // Sequences

  /** Concatenation regroups; stated on variables so that callers with
      long literal pieces need not reason about their characters. */
  lemma ConcatAssoc<T>(a: seq<T>, b: seq<T>, c: seq<T>)
    ensures a + b + c == a + (b + c)
  {
  }

  /** A prefix of a non-empty sequence is its head before a prefix of its
      tail, and the suffixes agree. */
  lemma TakeCons<T>(p: seq<T>, i: nat)
    requires 0 < i <= |p|
    ensures p[..i] == [p[0]] + p[1..][..i - 1]
    ensures p[1..][i - 1..] == p[i..]
  {
    assert forall j | 0 <= j < i :: p[..i][j] == ([p[0]] + p[1..][..i - 1])[j];
  }

  /** Writing `x` at index `i` and keeping the first `i + 1` elements is
      the old prefix followed by `x`; the part after `i` is untouched. */
  lemma WriteThenTake<T>(xs: seq<T>, i: nat, x: T, tail: seq<T>)
    requires i < |xs|
    ensures xs[..i] + ([x] + tail) == xs[i := x][..i + 1] + tail
    ensures xs[i := x][i + 1..] == xs[i + 1..] == xs[i..][1..]
  {
    assert xs[i := x][..i + 1] == xs[..i] + [x];
  }

  function Reverse<T>(s: seq<T>): (r: seq<T>)
    ensures |r| == |s|
    ensures forall i | 0 <= i < |s| :: r[i] == s[|s| - 1 - i]
  {
    if s == [] then [] else Reverse(s[1..]) + [s[0]]
  }

  /** `findIndex(x => x === k)`: the first index holding `k`, or -1. */
  function IndexOf<T(==)>(s: seq<T>, k: T): (i: int)
    ensures -1 <= i < |s|
    ensures i == -1 <==> k !in s
    ensures i >= 0 ==> s[i] == k && k !in s[..i]
  {
    if s == [] then -1
    else if s[0] == k then 0
    else var j := IndexOf(s[1..], k); if j == -1 then -1 else j + 1
  }

  predicate Distinct<T(==)>(s: seq<T>) {
    forall i, j | 0 <= i < j < |s| :: s[i] != s[j]
  }

  lemma DistinctAppend<T>(xs: seq<T>, x: T)
    requires Distinct(xs) && x !in xs
    ensures Distinct(xs + [x])
  {
    forall i, j | 0 <= i < j < |xs| + 1 ensures (xs + [x])[i] != (xs + [x])[j] {
      assert (xs + [x])[i] == xs[i];
      if j == |xs| {
        assert (xs + [x])[j] == x;
      } else {
        assert (xs + [x])[j] == xs[j];
      }
    }
  }

  /** `xs.splice(from, 1)` followed by `xs.splice(to, 0, moved)`: the element
      at `from` is taken out and put back at `to`, or at the end when `to`
      is past it. */
  function Moved<T>(xs: seq<T>, from: nat, to: nat): seq<T>
    requires from < |xs|
  {
    var rest := xs[..from] + xs[from + 1..];
    var at := if to < |rest| then to else |rest|;
    rest[..at] + [xs[from]] + rest[at..]
  }

  /** Where the element at index `i` of a move comes from. */
  function MovedSource(n: nat, from: nat, to: nat, i: nat): nat
    requires from < n && i < n
  {
    var at := if to < n - 1 then to else n - 1;
    if i < at then (if i < from then i else i + 1)
    else if i == at then from
    else if i - 1 < from then i - 1 else i
  }

  lemma MovedIndex<T>(xs: seq<T>, from: nat, to: nat, i: nat)
    requires from < |xs| && i < |xs|
    ensures |Moved(xs, from, to)| == |xs|
    ensures MovedSource(|xs|, from, to, i) < |xs|
    ensures Moved(xs, from, to)[i] == xs[MovedSource(|xs|, from, to, i)]
  {
  }

  /** A move is a splice, not a swap: the moved element lands at `to`
      (clamped), and every other element keeps its relative order. */
  lemma MovedCharacterised<T>(xs: seq<T>, from: nat, to: nat)
    requires from < |xs|
    ensures var at := if to < |xs| - 1 then to else |xs| - 1;
      var r := Moved(xs, from, to);
      && |r| == |xs|
      && r[at] == xs[from]
      && r[..at] + r[at + 1..] == xs[..from] + xs[from + 1..]
      && multiset(r) == multiset(xs)
  {
    MovedLands(xs, from, to);
    MovedKeepsOrder(xs, from, to);
    MovedPermutes(xs, from, to);
  }

  lemma MovedLands<T>(xs: seq<T>, from: nat, to: nat)
    requires from < |xs|
    ensures |Moved(xs, from, to)| == |xs|
    ensures Moved(xs, from, to)[if to < |xs| - 1 then to else |xs| - 1] == xs[from]
  {
  }

  lemma MovedKeepsOrder<T>(xs: seq<T>, from: nat, to: nat)
    requires from < |xs|
    ensures var at := if to < |xs| - 1 then to else |xs| - 1;
      Moved(xs, from, to)[..at] + Moved(xs, from, to)[at + 1..] == xs[..from] + xs[from + 1..]
  {
    var rest := xs[..from] + xs[from + 1..];
    var at := if to < |rest| then to else |rest|;
    var r := rest[..at] + [xs[from]] + rest[at..];
    assert r[..at] == rest[..at];
    assert r[at + 1..] == rest[at..];
    assert rest[..at] + rest[at..] == rest;
  }

  lemma MovedPermutes<T>(xs: seq<T>, from: nat, to: nat)
    requires from < |xs|
    ensures multiset(Moved(xs, from, to)) == multiset(xs)
  {
    var rest := xs[..from] + xs[from + 1..];
    var at := if to < |rest| then to else |rest|;
    RemoveAtMultiset(xs, from);
    InsertAtMultiset(rest, at, xs[from]);
    assert xs[from] in multiset(xs);
  }

  lemma InsertAtMultiset<T>(ys: seq<T>, p: nat, x: T)
    requires p <= |ys|
    ensures multiset(ys[..p] + [x] + ys[p..]) == multiset(ys) + multiset{x}
  {
    assert ys == ys[..p] + ys[p..];
  }

  lemma MemberIndex<T>(s: seq<T>, x: T) returns (i: nat)
    requires x in multiset(s)
    ensures i < |s| && s[i] == x
  {
    assert x in s;
    i :| i < |s| && s[i] == x;
  }

  lemma RemoveAtMultiset<T>(ys: seq<T>, p: nat)
    requires p < |ys|
    ensures multiset(ys[..p] + ys[p + 1..]) == multiset(ys) - multiset{ys[p]}
  {
    assert ys == ys[..p] + [ys[p]] + ys[p + 1..];
  }

  lemma RemoveMatching<T>(xs: seq<T>, ys: seq<T>, p: nat)
    requires multiset(xs) == multiset(ys)
    requires p < |ys| && xs != [] && ys[p] == xs[0]
    ensures multiset(ys[..p] + ys[p + 1..]) == multiset(xs[1..])
  {
    RemoveAtMultiset(ys, p);
    assert xs == [xs[0]] + xs[1..];
  }

  /** Putting back at `p` an element told apart from all the others keeps
      the sequence told apart. */
  lemma DistinctWithout<T, U>(ys: seq<T>, p: nat, f: T -> U)
    requires p < |ys|
    requires var ys' := ys[..p] + ys[p + 1..];
      forall i, j | 0 <= i < j < |ys'| :: f(ys'[i]) != f(ys'[j])
    requires forall o | 0 <= o < |ys| && o != p :: f(ys[o]) != f(ys[p])
    ensures forall i, j | 0 <= i < j < |ys| :: f(ys[i]) != f(ys[j])
  {
    var ys' := ys[..p] + ys[p + 1..];
    forall i, j | 0 <= i < j < |ys| ensures f(ys[i]) != f(ys[j]) {
      if i != p && j != p {
        var i' := if i < p then i else i - 1;
        var j' := if j < p then j else j - 1;
        assert ys'[i'] == ys[i] && ys'[j'] == ys[j];
      }
    }
  }

  /** Reordering cannot create a clash: if `f` tells the elements of `xs`
      apart, it tells apart the elements of any permutation of `xs`. */
  lemma {:induction false} PermutationKeepsDistinct<T, U>(xs: seq<T>, ys: seq<T>, f: T -> U)
    requires multiset(xs) == multiset(ys)
    requires forall i, j | 0 <= i < j < |xs| :: f(xs[i]) != f(xs[j])
    ensures forall i, j | 0 <= i < j < |ys| :: f(ys[i]) != f(ys[j])
    decreases |xs|
  {
    if xs == [] {
      assert |ys| == |multiset(ys)| == 0;
    } else {
      var a := xs[0];
      var p := MemberIndex(ys, a);
      var ys' := ys[..p] + ys[p + 1..];
      var tail := xs[1..];
      RemoveMatching(xs, ys, p);
      forall i, j | 0 <= i < j < |tail| ensures f(tail[i]) != f(tail[j]) {
        assert tail[i] == xs[i + 1] && tail[j] == xs[j + 1];
      }
      PermutationKeepsDistinct(tail, ys', f);
      forall o | 0 <= o < |ys| && o != p ensures f(ys[o]) != f(ys[p]) {
        var o' := if o < p then o else o - 1;
        assert ys'[o'] == ys[o];
        var m := MemberIndex(tail, ys'[o']);
        assert tail[m] == xs[m + 1];
        assert f(xs[0]) != f(xs[m + 1]);
      }
      DistinctWithout(ys, p, f);
    }
  }

  // ---------------------------------------------------------------------
  // Stable sort: `Array.prototype.sort` with a numeric comparator
  // `(a, b) => key(a) - key(b)`, which the ECMAScript standard requires to
  // be stable. Specified as an insertion sort.

  /** Inserts `x` in front of the first element whose key is not smaller,
      keeping `x` ahead of the elements that tie with it. */
  function InsertBy<T>(x: T, xs: seq<T>, key: T -> int): (r: seq<T>)
    ensures multiset(r) == multiset(xs) + multiset{x}
    ensures |r| == |xs| + 1
  {
    if xs == [] || key(x) <= key(xs[0]) then [x] + xs
    else
      assert xs == [xs[0]] + xs[1..];
      [xs[0]] + InsertBy(x, xs[1..], key)
  }

  function SortBy<T>(xs: seq<T>, key: T -> int): (r: seq<T>)
    ensures multiset(r) == multiset(xs)
    ensures |r| == |xs|
  {
    if xs == [] then []
    else
      assert xs == [xs[0]] + xs[1..];
      InsertBy(xs[0], SortBy(xs[1..], key), key)
  }

  ghost predicate SortedBy<T>(xs: seq<T>, key: T -> int) {
    forall i, j | 0 <= i < j < |xs| :: key(xs[i]) <= key(xs[j])
  }

  /** The elements with key `k`, in order. */
  function WithKey<T>(xs: seq<T>, key: T -> int, k: int): seq<T> {
    if xs == [] then []
    else (if key(xs[0]) == k then [xs[0]] else []) + WithKey(xs[1..], key, k)
  }

  lemma {:induction false} InsertBySorted<T>(x: T, xs: seq<T>, key: T -> int)
    requires SortedBy(xs, key)
    ensures SortedBy(InsertBy(x, xs, key), key)
  {
    if xs != [] && key(x) > key(xs[0]) {
      InsertBySorted(x, xs[1..], key);
      var r := InsertBy(x, xs, key);
      var t := InsertBy(x, xs[1..], key);
      assert r == [xs[0]] + t;
      assert multiset(t) == multiset(xs[1..]) + multiset{x};
      forall j | 0 < j < |r| ensures key(r[0]) <= key(r[j]) {
        assert r[j] in multiset(t);
        if r[j] == x {
        } else {
          assert r[j] in multiset(xs[1..]);
          var m :| 0 <= m < |xs[1..]| && xs[1..][m] == r[j];
          assert xs[m + 1] == r[j];
        }
      }
    }
  }

  lemma {:induction false} SortBySorted<T>(xs: seq<T>, key: T -> int)
    ensures SortedBy(SortBy(xs, key), key)
  {
    if xs != [] {
      SortBySorted(xs[1..], key);
      InsertBySorted(xs[0], SortBy(xs[1..], key), key);
    }
  }

  lemma {:induction false} WithKeyAppend<T>(a: seq<T>, b: seq<T>, key: T -> int, k: int)
    ensures WithKey(a + b, key, k) == WithKey(a, key, k) + WithKey(b, key, k)
  {
    if a != [] {
      assert (a + b)[1..] == a[1..] + b;
      WithKeyAppend(a[1..], b, key, k);
    } else {
      assert a + b == b;
    }
  }

  lemma {:induction false} InsertByWithKey<T>(x: T, xs: seq<T>, key: T -> int, k: int)
    requires SortedBy(xs, key)
    ensures WithKey(InsertBy(x, xs, key), key, k) == WithKey([x] + xs, key, k)
  {
    if xs != [] && key(x) > key(xs[0]) {
      var t := InsertBy(x, xs[1..], key);
      InsertByWithKey(x, xs[1..], key, k);
      assert InsertBy(x, xs, key) == [xs[0]] + t;
      assert [xs[0]] + xs[1..] == xs;
      PassWithKey(x, xs[0], xs[1..], t, key, k);
    }
  }

  /** Inserting `x` after an element `a` with a smaller key: `a` and `x`
      cannot both carry the key `k`, so passing `a` keeps the order of
      the elements with key `k`. */
  lemma PassWithKey<T>(x: T, a: T, rest: seq<T>, t: seq<T>, key: T -> int, k: int)
    requires key(x) > key(a)
    requires WithKey(t, key, k) == WithKey([x] + rest, key, k)
    ensures WithKey([a] + t, key, k) == WithKey([x] + ([a] + rest), key, k)
  {
    WithKeyAppend([a], t, key, k);
    WithKeyAppend([x], rest, key, k);
    WithKeyAppend([a], rest, key, k);
    WithKeyAppend([x], [a] + rest, key, k);
    WithKeySingle(a, key, k);
    WithKeySingle(x, key, k);
    var wa, wx, wr := WithKey([a], key, k), WithKey([x], key, k), WithKey(rest, key, k);
    assert wa + wx == wx + wa;
    ConcatAssoc(wa, wx, wr);
    ConcatAssoc(wx, wa, wr);
  }

  lemma WithKeySingle<T>(a: T, key: T -> int, k: int)
    ensures WithKey([a], key, k) == if key(a) == k then [a] else []
  {
    assert [a][1..] == [];
  }

  /** Two elements out of key order are swapped. */
  lemma SortByTwo<T>(a: T, b: T, key: T -> int)
    requires key(b) < key(a)
    ensures SortBy([a, b], key) == [b, a]
  {
    assert [a, b][1..] == [b];
    assert [b][1..] == [];
    assert SortBy([b], key) == [b];
  }

  /** Stability: for every key, the elements carrying it keep their
      relative order. */
  lemma {:induction false} SortByStable<T>(xs: seq<T>, key: T -> int, k: int)
    ensures WithKey(SortBy(xs, key), key, k) == WithKey(xs, key, k)
  {
    if xs != [] {
      SortByStable(xs[1..], key, k);
      SortBySorted(xs[1..], key);
      InsertByWithKey(xs[0], SortBy(xs[1..], key), key, k);
      assert [xs[0]] + xs[1..] == xs;
      ConsWithKey(xs[0], SortBy(xs[1..], key), xs[1..], key, k);
    }
  }

  lemma ConsWithKey<T>(a: T, s1: seq<T>, s2: seq<T>, key: T -> int, k: int)
    requires WithKey(s1, key, k) == WithKey(s2, key, k)
    ensures WithKey([a] + s1, key, k) == WithKey([a] + s2, key, k)
  {
    WithKeyAppend([a], s1, key, k);
    WithKeyAppend([a], s2, key, k);
  }

  /** A sequence already in key order is left as it is. */
  lemma {:induction false} SortBySortedIdentity<T>(xs: seq<T>, key: T -> int)
    requires SortedBy(xs, key)
    ensures SortBy(xs, key) == xs
  {
    if xs != [] {
      assert SortedBy(xs[1..], key);
      SortBySortedIdentity(xs[1..], key);
      assert [xs[0]] + xs[1..] == xs;
    }
  }

  /** The total of `f` over a sequence. */
  function SumBy<T>(xs: seq<T>, f: T -> nat): nat {
    if xs == [] then 0 else f(xs[0]) + SumBy(xs[1..], f)
  }

  lemma {:induction false} SumByInsert<T>(x: T, xs: seq<T>, key: T -> int, f: T -> nat)
    ensures SumBy(InsertBy(x, xs, key), f) == f(x) + SumBy(xs, f)
    decreases |xs|
  {
    var r := InsertBy(x, xs, key);
    if xs == [] || key(x) <= key(xs[0]) {
      assert r[1..] == xs;
    } else {
      SumByInsert(x, xs[1..], key, f);
      assert r[1..] == InsertBy(x, xs[1..], key);
    }
  }

  /** Sorting does not change a total. */
  lemma {:induction false} SumBySort<T>(xs: seq<T>, key: T -> int, f: T -> nat)
    ensures SumBy(SortBy(xs, key), f) == SumBy(xs, f)
    decreases |xs|
  {
    if xs != [] {
      SumBySort(xs[1..], key, f);
      SumByInsert(xs[0], SortBy(xs[1..], key), key, f);
    }
  }
}
