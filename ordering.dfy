/**
 * Orderings shared by the model: lexicographic comparison of strings and of
 * composite sort keys, a stable sort, and order-preserving de-duplication.
 *
 * Python compares strings (and pandas `sort_values` compares the values of a
 * string column) character by character; a sort by several columns compares
 * the columns lexicographically. A `Key` is such a row of columns.
 */
module Ordering {

  /** One column of a sort key. */
  datatype Part = Int(n: int) | Str(s: string)

  type Key = seq<Part>

  // ---------------------------------------------------------------------
  // String order
  // ---------------------------------------------------------------------

  /** `a < b` on strings: a proper prefix is smaller, otherwise the first differing character decides. */
  predicate StrLt(a: string, b: string)
    decreases |a|
  {
    if a == [] then b != []
    else b != [] && (a[0] < b[0] || (a[0] == b[0] && StrLt(a[1..], b[1..])))
  }

  lemma {:induction false} StrLtIrreflexive(a: string)
    ensures !StrLt(a, a)
    decreases |a|
  {
    if a != [] { StrLtIrreflexive(a[1..]); }
  }

  lemma {:induction false} StrLtTransitive(a: string, b: string, c: string)
    requires StrLt(a, b) && StrLt(b, c)
    ensures StrLt(a, c)
    decreases |a|
  {
    if a != [] && a[0] == b[0] && b[0] == c[0] {
      StrLtTransitive(a[1..], b[1..], c[1..]);
    }
  }

  lemma {:induction false} StrLtTotal(a: string, b: string)
    ensures a == b || StrLt(a, b) || StrLt(b, a)
    decreases |a|
  {
    if a != [] && b != [] && a[0] == b[0] {
      StrLtTotal(a[1..], b[1..]);
      if a[1..] == b[1..] {
        assert a == [a[0]] + a[1..] && b == [b[0]] + b[1..];
      }
    }
  }

  // ---------------------------------------------------------------------
  // Key order
  // ---------------------------------------------------------------------

  /** Columns compare by value; a number sorts before a text (keys here never mix them in one column). */
  predicate PartLt(a: Part, b: Part) {
    match (a, b)
    case (Int(x), Int(y)) => x < y
    case (Str(x), Str(y)) => StrLt(x, y)
    case (Int(_), Str(_)) => true
    case (Str(_), Int(_)) => false
  }

  /** Lexicographic order on keys, column by column. */
  predicate KeyLt(a: Key, b: Key)
    decreases |a|
  {
    if a == [] then b != []
    else b != [] && (PartLt(a[0], b[0]) || (a[0] == b[0] && KeyLt(a[1..], b[1..])))
  }

  /** `a <= b` on keys. */
  predicate KeyLe(a: Key, b: Key) {
    !KeyLt(b, a)
  }

  lemma PartLtStrictTotal(a: Part, b: Part, c: Part)
    ensures !PartLt(a, a)
    ensures PartLt(a, b) && PartLt(b, c) ==> PartLt(a, c)
    ensures a == b || PartLt(a, b) || PartLt(b, a)
  {
    match a
    case Int(_) =>
    case Str(x) =>
      StrLtIrreflexive(x);
      if b.Str? {
        StrLtTotal(x, b.s);
        if c.Str? && PartLt(a, b) && PartLt(b, c) { StrLtTransitive(x, b.s, c.s); }
      }
  }

  lemma {:induction false} KeyLtIrreflexive(a: Key)
    ensures !KeyLt(a, a)
    decreases |a|
  {
    if a != [] {
      PartLtStrictTotal(a[0], a[0], a[0]);
      KeyLtIrreflexive(a[1..]);
    }
  }

  lemma {:induction false} KeyLtTransitive(a: Key, b: Key, c: Key)
    requires KeyLt(a, b) && KeyLt(b, c)
    ensures KeyLt(a, c)
    decreases |a|
  {
    if a != [] {
      PartLtStrictTotal(a[0], b[0], c[0]);
      if a[0] == b[0] && b[0] == c[0] {
        KeyLtTransitive(a[1..], b[1..], c[1..]);
      }
    }
  }

  lemma {:induction false} KeyLtTotal(a: Key, b: Key)
    ensures a == b || KeyLt(a, b) || KeyLt(b, a)
    decreases |a|
  {
    if a != [] && b != [] {
      PartLtStrictTotal(a[0], b[0], b[0]);
      if a[0] == b[0] {
        KeyLtTotal(a[1..], b[1..]);
        if a[1..] == b[1..] {
          assert a == [a[0]] + a[1..] && b == [b[0]] + b[1..];
        }
      }
    }
  }

  /** The consequences of the three facts above that the sorting proofs use. */
  lemma KeyLeFacts(a: Key, b: Key, c: Key)
    ensures KeyLe(a, a)
    ensures KeyLe(a, b) || KeyLe(b, a)
    ensures KeyLt(a, b) ==> KeyLe(a, b)
    ensures KeyLe(a, b) && a != b ==> KeyLt(a, b)
    ensures KeyLe(a, b) && KeyLe(b, c) ==> KeyLe(a, c)
    ensures KeyLe(a, b) && KeyLt(b, c) ==> KeyLt(a, c)
    ensures KeyLt(a, b) && KeyLe(b, c) ==> KeyLt(a, c)
  {
    KeyLtIrreflexive(a);
    KeyLtTotal(a, b);
    KeyLtTotal(b, c);
    KeyLtTotal(a, c);
    if KeyLt(c, a) && KeyLt(a, b) { KeyLtTransitive(c, a, b); }
    if KeyLt(b, c) && KeyLt(c, a) { KeyLtTransitive(b, c, a); }
    if KeyLt(a, b) && KeyLt(b, c) { KeyLtTransitive(a, b, c); }
    if KeyLt(b, a) && KeyLt(a, b) { KeyLtTransitive(a, b, a); }
  }

  // ---------------------------------------------------------------------
  // Stable sort
  // ---------------------------------------------------------------------

  /** `s` is in ascending order of `key` (equal keys allowed). */
  predicate SortedBy<T>(s: seq<T>, key: T -> Key) {
    forall i, j :: 0 <= i < j < |s| ==> KeyLe(key(s[i]), key(s[j]))
  }

  /** `s` is in strictly ascending order of `key`, so no key occurs twice. */
  predicate StrictlySortedBy<T>(s: seq<T>, key: T -> Key) {
    forall i, j :: 0 <= i < j < |s| ==> KeyLt(key(s[i]), key(s[j]))
  }

  /** Puts `x` in front of the first element whose key is not smaller than its own. */
  function Insert<T>(x: T, s: seq<T>, key: T -> Key): (r: seq<T>)
    ensures multiset(r) == multiset(s) + multiset{x}
    ensures |r| == |s| + 1
  {
    if s == [] then [x]
    else if KeyLe(key(x), key(s[0])) then [x] + s
    else
      assert s == [s[0]] + s[1..];
      [s[0]] + Insert(x, s[1..], key)
  }

  lemma {:induction false} InsertSorted<T>(x: T, s: seq<T>, key: T -> Key)
    requires SortedBy(s, key)
    ensures SortedBy(Insert(x, s, key), key)
    decreases |s|
  {
    if s != [] {
      var r := Insert(x, s, key);
      if KeyLe(key(x), key(s[0])) {
        forall i, j | 0 <= i < j < |r| ensures KeyLe(key(r[i]), key(r[j])) {
          if i == 0 {
            KeyLeFacts(key(x), key(s[0]), key(s[j - 1]));
          }
        }
      } else {
        var t := Insert(x, s[1..], key);
        InsertSorted(x, s[1..], key);
        KeyLeFacts(key(x), key(s[0]), key(s[0]));
        forall k | 0 <= k < |t| ensures KeyLe(key(s[0]), key(t[k])) {
          assert t[k] in multiset(t);
          if t[k] != x {
            assert t[k] in multiset(s[1..]);
            var m :| 0 <= m < |s[1..]| && s[1..][m] == t[k];
            assert s[1 + m] == t[k];
          }
        }
        assert r == [s[0]] + t;
      }
    }
  }

  /**
   * Insertion sort. Like JavaScript's `Array.prototype.sort` (stable since
   * ES2019), elements with equal keys keep their input order.
   */
  function Sort<T>(xs: seq<T>, key: T -> Key): (r: seq<T>)
    ensures multiset(r) == multiset(xs)
    ensures |r| == |xs|
  {
    if xs == [] then []
    else
      assert xs == [xs[0]] + xs[1..];
      Insert(xs[0], Sort(xs[1..], key), key)
  }

  lemma {:induction false} SortSorted<T>(xs: seq<T>, key: T -> Key)
    ensures SortedBy(Sort(xs, key), key)
  {
    if xs != [] {
      SortSorted(xs[1..], key);
      InsertSorted(xs[0], Sort(xs[1..], key), key);
    }
  }

  /** Index of the first element whose key is the smallest. */
  function FirstMinIndex<T>(xs: seq<T>, key: T -> Key): (i: nat)
    requires xs != []
    ensures i < |xs|
  {
    if |xs| == 1 then 0
    else
      var k := FirstMinIndex(xs[1..], key);
      if KeyLe(key(xs[0]), key(xs[1 + k])) then 0 else 1 + k
  }

  /** Index of the last element whose key is the largest. */
  function LastMaxIndex<T>(xs: seq<T>, key: T -> Key): (i: nat)
    requires xs != []
    ensures i < |xs|
  {
    if |xs| == 1 then 0
    else
      var k := LastMaxIndex(xs[1..], key);
      if KeyLe(key(xs[0]), key(xs[1 + k])) then 1 + k else 0
  }

  lemma {:induction false} FirstMinIndexIsFirstMinimum<T>(xs: seq<T>, key: T -> Key, j: int)
    requires xs != [] && 0 <= j < |xs|
    ensures KeyLe(key(xs[FirstMinIndex(xs, key)]), key(xs[j]))
    ensures j < FirstMinIndex(xs, key) ==> KeyLt(key(xs[FirstMinIndex(xs, key)]), key(xs[j]))
  {
    var i := FirstMinIndex(xs, key);
    if |xs| == 1 {
      KeyLeFacts(key(xs[0]), key(xs[0]), key(xs[0]));
    } else {
      var k := FirstMinIndex(xs[1..], key);
      assert xs[1..][k] == xs[1 + k];
      if j == 0 {
        KeyLeFacts(key(xs[0]), key(xs[1 + k]), key(xs[0]));
      } else {
        FirstMinIndexIsFirstMinimum(xs[1..], key, j - 1);
        assert xs[1..][j - 1] == xs[j];
        KeyLeFacts(key(xs[0]), key(xs[1 + k]), key(xs[j]));
      }
    }
  }

  lemma {:induction false} LastMaxIndexIsLastMaximum<T>(xs: seq<T>, key: T -> Key, j: int)
    requires xs != [] && 0 <= j < |xs|
    ensures KeyLe(key(xs[j]), key(xs[LastMaxIndex(xs, key)]))
    ensures LastMaxIndex(xs, key) < j ==> KeyLt(key(xs[j]), key(xs[LastMaxIndex(xs, key)]))
  {
    var i := LastMaxIndex(xs, key);
    if |xs| == 1 {
      KeyLeFacts(key(xs[0]), key(xs[0]), key(xs[0]));
    } else {
      var k := LastMaxIndex(xs[1..], key);
      assert xs[1..][k] == xs[1 + k];
      assert i == if KeyLe(key(xs[0]), key(xs[1 + k])) then 1 + k else 0;
      if j == 0 {
        KeyLeFacts(key(xs[0]), key(xs[1 + k]), key(xs[0]));
      } else {
        LastMaxIndexIsLastMaximum(xs[1..], key, j - 1);
        assert xs[1..][j - 1] == xs[j];
        KeyLeFacts(key(xs[j]), key(xs[1 + k]), key(xs[0]));
        KeyLeFacts(key(xs[j]), key(xs[0]), key(xs[0]));
      }
    }
  }

  /** A stable sort puts first the first of the elements with the smallest key. */
  lemma {:induction false} SortHead<T>(xs: seq<T>, key: T -> Key)
    requires xs != []
    ensures Sort(xs, key)[0] == xs[FirstMinIndex(xs, key)]
  {
    if |xs| > 1 {
      SortHead(xs[1..], key);
      assert xs[1..][FirstMinIndex(xs[1..], key)] == xs[1 + FirstMinIndex(xs[1..], key)];
    }
  }

  lemma {:induction false} InsertLast<T>(x: T, s: seq<T>, key: T -> Key)
    requires SortedBy(s, key)
    ensures Insert(x, s, key)[|s|] == if s != [] && KeyLe(key(x), key(s[|s| - 1])) then s[|s| - 1] else x
    decreases |s|
  {
    if s != [] {
      if KeyLe(key(x), key(s[0])) {
        KeyLeFacts(key(x), key(s[0]), key(s[|s| - 1]));
      } else {
        InsertLast(x, s[1..], key);
        if |s| > 1 {
          KeyLeFacts(key(x), key(s[0]), key(s[|s| - 1]));
        }
      }
    }
  }

  /** A stable sort puts last the last of the elements with the largest key. */
  lemma {:induction false} SortLast<T>(xs: seq<T>, key: T -> Key)
    requires xs != []
    ensures Sort(xs, key)[|xs| - 1] == xs[LastMaxIndex(xs, key)]
  {
    if |xs| > 1 {
      var s := Sort(xs[1..], key);
      SortSorted(xs[1..], key);
      InsertLast(xs[0], s, key);
      SortLast(xs[1..], key);
      assert xs[1..][LastMaxIndex(xs[1..], key)] == xs[1 + LastMaxIndex(xs[1..], key)];
    }
  }

  /** A duplicate-free sequence sorted by an injective key is strictly sorted. */
  lemma SortedDistinctIsStrict<T>(s: seq<T>, key: T -> Key)
    requires SortedBy(s, key)
    requires forall i, j :: 0 <= i < j < |s| ==> key(s[i]) != key(s[j])
    ensures StrictlySortedBy(s, key)
  {
    forall i, j | 0 <= i < j < |s| ensures KeyLt(key(s[i]), key(s[j])) {
      KeyLeFacts(key(s[i]), key(s[j]), key(s[j]));
    }
  }

  /** No element occurs twice. */
  predicate Distinct<T(==)>(s: seq<T>) {
    forall i, j :: 0 <= i < j < |s| ==> s[i] != s[j]
  }

  lemma {:induction false} DistinctMultiset<T>(s: seq<T>)
    ensures Distinct(s) <==> forall x :: multiset(s)[x] <= 1
  {
    if s != [] {
      var t := s[1..];
      DistinctMultiset(t);
      assert s == [s[0]] + t;
      assert multiset(s) == multiset{s[0]} + multiset(t);
      if Distinct(s) {
        assert Distinct(t) by {
          forall i, j | 0 <= i < j < |t| ensures t[i] != t[j] { assert t[i] == s[i + 1] && t[j] == s[j + 1]; }
        }
        assert s[0] !in t by {
          forall k | 0 <= k < |t| ensures t[k] != s[0] { assert t[k] == s[k + 1]; }
        }
        assert multiset(t)[s[0]] == 0;
      } else {
        var i, j :| 0 <= i < j < |s| && s[i] == s[j];
        if i == 0 {
          assert s[j] == t[j - 1];
          assert multiset(t)[s[0]] >= 1;
          assert multiset(s)[s[0]] >= 2;
        } else {
          assert t[i - 1] == t[j - 1];
          assert !Distinct(t);
          var x :| multiset(t)[x] > 1;
          assert multiset(s)[x] > 1;
        }
      }
    }
  }

  /** Sorting duplicate-free values under an injective key gives a strictly ascending sequence. */
  lemma SortStrict<T>(xs: seq<T>, key: T -> Key)
    requires Distinct(xs)
    requires forall x, y :: key(x) == key(y) ==> x == y
    ensures StrictlySortedBy(Sort(xs, key), key)
  {
    var r := Sort(xs, key);
    SortSorted(xs, key);
    DistinctMultiset(xs);
    DistinctMultiset(r);
    assert Distinct(r);
    forall i, j | 0 <= i < j < |r| ensures key(r[i]) != key(r[j]) {
      assert r[i] != r[j];
    }
    SortedDistinctIsStrict(r, key);
  }

  // ---------------------------------------------------------------------
  // De-duplication in first-appearance order
  // ---------------------------------------------------------------------

  /** Position of the first occurrence of `x`. */
  function FirstIndex<T(==)>(xs: seq<T>, x: T): (i: nat)
    requires x in xs
    ensures i < |xs| && xs[i] == x && x !in xs[..i]
  {
    if xs[0] == x then 0
    else
      var k := FirstIndex(xs[1..], x);
      assert xs[..k + 1] == [xs[0]] + xs[1..][..k];
      1 + k
  }

  /**
   * The elements of `xs` with later repetitions removed: what
   * `Array.from(new Set(xs))` gives (a JavaScript `Set` iterates in insertion order).
   */
  function Dedup<T(==)>(xs: seq<T>): (r: seq<T>)
    ensures Distinct(r)
    ensures forall i :: 0 <= i < |r| ==> r[i] in xs
    ensures forall i :: 0 <= i < |xs| ==> xs[i] in r
    decreases |xs|
  {
    if xs == [] then []
    else
      var d := Dedup(xs[..|xs| - 1]);
      var x := xs[|xs| - 1];
      assert xs == xs[..|xs| - 1] + [x];
      if x in d then d else d + [x]
  }

  /** `Dedup` keeps each element at the place of its first occurrence. */
  lemma DedupFirstAppearance<T>(xs: seq<T>)
    ensures forall i, j | 0 <= i < j < |Dedup(xs)| ::
      FirstIndex(xs, Dedup(xs)[i]) < FirstIndex(xs, Dedup(xs)[j])
  {
    forall i, j | 0 <= i < j < |Dedup(xs)| ensures FirstIndex(xs, Dedup(xs)[i]) < FirstIndex(xs, Dedup(xs)[j]) {
      DedupPairOrder(xs, i, j);
    }
  }

  /** `Dedup` of a sequence extended by one element: unchanged, or the new element at the end. */
  lemma DedupSnoc<T>(xs: seq<T>)
    requires xs != []
    ensures var p := xs[..|xs| - 1];
      var x := xs[|xs| - 1];
      (x in Dedup(p) && Dedup(xs) == Dedup(p)) || (x !in p && Dedup(xs) == Dedup(p) + [x])
  {
    var p := xs[..|xs| - 1];
    var x := xs[|xs| - 1];
    if x !in Dedup(p) {
      assert forall k :: 0 <= k < |p| ==> p[k] != x;
    }
  }

  /** The first occurrence is the one index holding `x` with no `x` before it. */
  lemma FirstIndexUnique<T>(xs: seq<T>, x: T, k: int)
    requires 0 <= k < |xs| && xs[k] == x && x !in xs[..k]
    ensures FirstIndex(xs, x) == k
  {
    var f := FirstIndex(xs, x);
    if f < k {
      InPrefix(xs, k, f);
    } else if k < f {
      InPrefix(xs, f, k);
    }
  }

  lemma InPrefix<T>(xs: seq<T>, n: int, i: int)
    requires 0 <= i < n <= |xs|
    ensures xs[i] in xs[..n]
  {
    assert xs[..n][i] == xs[i];
  }

  /** Positions in `xs` without its last element are positions in `xs`. */
  lemma FirstIndexSnoc<T>(xs: seq<T>, y: T)
    requires xs != [] && y in xs[..|xs| - 1]
    ensures FirstIndex(xs, y) == FirstIndex(xs[..|xs| - 1], y) < |xs| - 1
  {
    var p := xs[..|xs| - 1];
    var i := FirstIndex(p, y);
    assert xs[..i] == p[..i];
    FirstIndexUnique(xs, y, i);
  }

  /** The last element, when it occurs nowhere before, is first found at the end. */
  lemma FirstIndexLast<T>(xs: seq<T>)
    requires xs != [] && xs[|xs| - 1] !in xs[..|xs| - 1]
    ensures FirstIndex(xs, xs[|xs| - 1]) == |xs| - 1
  {
    FirstIndexUnique(xs, xs[|xs| - 1], |xs| - 1);
  }

  lemma {:induction false} DedupPairOrder<T>(xs: seq<T>, i: int, j: int)
    requires 0 <= i < j < |Dedup(xs)|
    ensures FirstIndex(xs, Dedup(xs)[i]) < FirstIndex(xs, Dedup(xs)[j])
    decreases |xs|
  {
    var p := xs[..|xs| - 1];
    var d := Dedup(p);
    var r := Dedup(xs);
    DedupSnoc(xs);
    assert i < |d| && r[i] == d[i] && d[i] in p;
    FirstIndexSnoc(xs, r[i]);
    if j < |d| {
      assert r[j] == d[j] && d[j] in p;
      FirstIndexSnoc(xs, r[j]);
      DedupPairOrder(p, i, j);
    } else {
      assert r[j] == xs[|xs| - 1];
      FirstIndexLast(xs);
    }
  }

  /** Two strictly sorted sequences with the same elements are the same sequence. */
  lemma {:induction false} StrictlySortedUnique<T>(a: seq<T>, b: seq<T>, key: T -> Key)
    requires StrictlySortedBy(a, key) && StrictlySortedBy(b, key)
    requires forall x :: x in a <==> x in b
    ensures a == b
    decreases |a|
  {
    if a == [] {
      HeadMember(b);
    } else {
      assert b != [] by { assert a[0] in a; }
      StrictHeadsEqual(a, b, key);
      forall x ensures x in a[1..] <==> x in b[1..] {
        StrictTailMember(a, key, x);
        StrictTailMember(b, key, x);
      }
      StrictlySortedUnique(a[1..], b[1..], key);
      assert a == [a[0]] + a[1..] && b == [b[0]] + b[1..];
    }
  }

  lemma HeadMember<T>(s: seq<T>)
    ensures s != [] ==> s[0] in s
  {
  }

  /** Two non-empty strictly sorted sequences with the same elements start alike. */
  lemma StrictHeadsEqual<T>(a: seq<T>, b: seq<T>, key: T -> Key)
    requires a != [] && b != []
    requires StrictlySortedBy(a, key) && StrictlySortedBy(b, key)
    requires forall x :: x in a <==> x in b
    ensures a[0] == b[0]
  {
    assert a[0] in b;
    var j :| 0 <= j < |b| && b[j] == a[0];
    assert b[0] in a;
    var i :| 0 <= i < |a| && a[i] == b[0];
    if i > 0 && j > 0 {
      KeyLtTransitive(key(a[0]), key(a[i]), key(b[j]));
      KeyLtIrreflexive(key(a[0]));
    } else if i > 0 {
      KeyLtIrreflexive(key(b[0]));
    }
  }

  /** In a strictly sorted sequence the tail is everything but the head. */
  lemma StrictTailMember<T>(s: seq<T>, key: T -> Key, x: T)
    requires s != [] && StrictlySortedBy(s, key)
    ensures x in s[1..] <==> x in s && x != s[0]
  {
    if x in s[1..] {
      var k :| 0 <= k < |s[1..]| && s[1..][k] == x;
      assert s[k + 1] == x;
      assert KeyLt(key(s[0]), key(s[k + 1]));
      KeyLtIrreflexive(key(s[0]));
    }
    if x in s && x != s[0] {
      var k :| 0 <= k < |s| && s[k] == x;
      assert s[1..][k - 1] == x;
    }
  }

  /** Strictly ascending is ascending. */
  lemma StrictIsSorted<T>(s: seq<T>, key: T -> Key)
    requires StrictlySortedBy(s, key)
    ensures SortedBy(s, key)
  {
    forall i, j | 0 <= i < j < |s| ensures KeyLe(key(s[i]), key(s[j])) {
      KeyLeFacts(key(s[i]), key(s[j]), key(s[j]));
    }
  }

  /** The sort is stable, so a sequence already in order comes back unchanged. */
  lemma {:induction false} SortOfSorted<T>(xs: seq<T>, key: T -> Key)
    requires SortedBy(xs, key)
    ensures Sort(xs, key) == xs
  {
    if xs != [] {
      var t := xs[1..];
      assert SortedBy(t, key) by {
        forall i, j | 0 <= i < j < |t| ensures KeyLe(key(t[i]), key(t[j])) {
          assert t[i] == xs[i + 1] && t[j] == xs[j + 1];
        }
      }
      SortOfSorted(t, key);
      if t != [] {
        assert KeyLe(key(xs[0]), key(xs[1]));
      }
      assert xs == [xs[0]] + t;
    }
  }
  /** Keys that share their first column compare as their remaining columns do. */
  lemma KeyLtCons(p: Part, a: Key, b: Key)
    ensures KeyLt([p] + a, [p] + b) <==> KeyLt(a, b)
  {
    PartLtStrictTotal(p, p, p);
    assert ([p] + a)[1..] == a && ([p] + b)[1..] == b;
  }

  /** The elements of `xs` that satisfy `f`, in order. */
  function Filter<T(!new)>(xs: seq<T>, f: T -> bool): (r: seq<T>)
    ensures forall x :: x in r <==> x in xs && f(x)
    ensures |r| <= |xs|
  {
    if xs == [] then []
    else
      assert forall x :: x in xs <==> x == xs[0] || x in xs[1..];
      (if f(xs[0]) then [xs[0]] else []) + Filter(xs[1..], f)
  }

  /** Filtering keeps a sorted sequence sorted. */
  lemma {:induction false} FilterSorted<T(!new)>(xs: seq<T>, f: T -> bool, key: T -> Key)
    requires SortedBy(xs, key)
    ensures SortedBy(Filter(xs, f), key)
  {
    if xs != [] {
      var t := xs[1..];
      assert SortedBy(t, key) by {
        forall i, j | 0 <= i < j < |t| ensures KeyLe(key(t[i]), key(t[j])) {
          assert t[i] == xs[i + 1] && t[j] == xs[j + 1];
        }
      }
      FilterSorted(t, f, key);
      var rest := Filter(t, f);
      var r := Filter(xs, f);
      if f(xs[0]) {
        assert r == [xs[0]] + rest;
        forall i, j | 0 <= i < j < |r| ensures KeyLe(key(r[i]), key(r[j])) {
          if i == 0 {
            assert r[j] == rest[j - 1] && rest[j - 1] in rest;
            var k :| 0 <= k < |t| && t[k] == rest[j - 1];
            assert xs[k + 1] == r[j];
          } else {
            assert r[i] == rest[i - 1] && r[j] == rest[j - 1];
          }
        }
      }
    }
  }

  /** Filtering keeps a strictly sorted sequence strictly sorted. */
  lemma {:induction false} FilterStrictlySorted<T(!new)>(xs: seq<T>, f: T -> bool, key: T -> Key)
    requires StrictlySortedBy(xs, key)
    ensures StrictlySortedBy(Filter(xs, f), key)
  {
    if xs != [] {
      var t := xs[1..];
      assert StrictlySortedBy(t, key) by {
        forall i, j | 0 <= i < j < |t| ensures KeyLt(key(t[i]), key(t[j])) {
          assert t[i] == xs[i + 1] && t[j] == xs[j + 1];
        }
      }
      FilterStrictlySorted(t, f, key);
      var rest := Filter(t, f);
      var r := Filter(xs, f);
      if f(xs[0]) {
        assert r == [xs[0]] + rest;
        forall i, j | 0 <= i < j < |r| ensures KeyLt(key(r[i]), key(r[j])) {
          if i == 0 {
            assert r[j] == rest[j - 1] && rest[j - 1] in rest;
            var k :| 0 <= k < |t| && t[k] == rest[j - 1];
            assert xs[k + 1] == r[j];
          } else {
            assert r[i] == rest[i - 1] && r[j] == rest[j - 1];
          }
        }
      }
    }
  }

  /** Filtering distributes over concatenation. */
  lemma {:induction false} FilterAppend<T(!new)>(xs: seq<T>, ys: seq<T>, f: T -> bool)
    ensures Filter(xs + ys, f) == Filter(xs, f) + Filter(ys, f)
  {
    if xs == [] {
      assert xs + ys == ys;
    } else {
      assert (xs + ys)[0] == xs[0] && (xs + ys)[1..] == xs[1..] + ys;
      FilterAppend(xs[1..], ys, f);
    }
  }

  /** A filter every element passes changes nothing. */
  lemma {:induction false} FilterAll<T(!new)>(xs: seq<T>, f: T -> bool)
    requires forall i :: 0 <= i < |xs| ==> f(xs[i])
    ensures Filter(xs, f) == xs
  {
    if xs != [] {
      assert forall i :: 0 <= i < |xs[1..]| ==> xs[1..][i] == xs[i + 1];
      FilterAll(xs[1..], f);
    }
  }

  /** A filter no element passes leaves nothing. */
  lemma {:induction false} FilterNone<T(!new)>(xs: seq<T>, f: T -> bool)
    requires forall i :: 0 <= i < |xs| ==> !f(xs[i])
    ensures Filter(xs, f) == []
  {
    if xs != [] {
      assert forall i :: 0 <= i < |xs[1..]| ==> xs[1..][i] == xs[i + 1];
      FilterNone(xs[1..], f);
    }
  }

  /** A one-column integer key, for years. */
  function YearKey(y: int): Key { [Int(y)] }

  /** A one-column text key. */
  function TextKey(k: string): Key { [Str(k)] }

  /**
   * The distinct values of a text column in ascending order: the keys a
   * pandas `groupby` on that column iterates over.
   */
  function SortedUnique(xs: seq<string>): (r: seq<string>)
    ensures StrictlySortedBy(r, TextKey)
    ensures forall k :: k in r <==> k in xs
  {
    var d := Dedup(xs);
    SortStrict(d, TextKey);
    var r := Sort(d, TextKey);
    assert forall k :: k in r <==> k in multiset(d);
    r
  }
}
