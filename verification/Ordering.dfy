/** Stable sorting as Go's sort.SliceStable provides it, and the order of Go strings.

    The sort is a library routine, so it is specified here by an insertion sort on values.
    The main result, SortDetermined, says that a stable sort is fixed by its input's
    equivalence classes: two lists whose classes agree, each in order, sort to the same list. */
module Ordering {

  ghost predicate StrictWeakOrder<T(!new)>(less: (T, T) -> bool) {
    && (forall x :: !less(x, x))
    && (forall x, y, z :: less(x, y) && less(y, z) ==> less(x, z))
    && (forall x, y, z :: !less(x, y) && !less(y, z) ==> !less(x, z))
  }

  predicate Same<T>(less: (T, T) -> bool, x: T, y: T) {
    !less(x, y) && !less(y, x)
  }

  ghost predicate Sorted<T>(less: (T, T) -> bool, s: seq<T>) {
    forall i, j :: 0 <= i < j < |s| ==> !less(s[j], s[i])
  }

  function Insert<T>(less: (T, T) -> bool, x: T, s: seq<T>): seq<T> {
    if s == [] then [x]
    else if less(x, s[0]) then [x] + s
    else [s[0]] + Insert(less, x, s[1..])
  }

  function StableSort<T>(less: (T, T) -> bool, s: seq<T>): seq<T> {
    if s == [] then [] else Insert(less, s[|s| - 1], StableSort(less, s[..|s| - 1]))
  }

  /** The elements of s equivalent to x, in the order in which s holds them. */
  function ClassOf<T>(less: (T, T) -> bool, x: T, s: seq<T>): seq<T> {
    if s == [] then []
    else (if Same(less, x, s[0]) then [s[0]] else []) + ClassOf(less, x, s[1..])
  }

  lemma {:induction false} InsertContents<T>(less: (T, T) -> bool, x: T, s: seq<T>)
    ensures multiset(Insert(less, x, s)) == multiset(s) + multiset{x}
  {
    if s != [] {
      assert s == [s[0]] + s[1..];
      if !less(x, s[0]) {
        InsertContents(less, x, s[1..]);
      }
    }
  }

  lemma InsertMember<T>(less: (T, T) -> bool, x: T, s: seq<T>, y: T)
    ensures y in Insert(less, x, s) <==> y == x || y in s
  {
  }

  lemma {:induction false} InsertSorted<T(!new)>(less: (T, T) -> bool, x: T, s: seq<T>)
    requires StrictWeakOrder(less) && Sorted(less, s)
    ensures Sorted(less, Insert(less, x, s))
  {
    if s != [] && !less(x, s[0]) {
      InsertSorted(less, x, s[1..]);
      var rest := Insert(less, x, s[1..]);
      forall j | 0 <= j < |rest| ensures !less(rest[j], s[0]) {
        InsertMember(less, x, s[1..], rest[j]);
      }
    } else if s != [] {
      forall j | 0 <= j < |s| ensures !less(s[j], x) {
        assert j == 0 || !less(s[j], s[0]);
      }
    }
  }

  lemma {:induction false} NoClassmates<T>(less: (T, T) -> bool, x: T, s: seq<T>)
    requires forall i :: 0 <= i < |s| ==> !Same(less, x, s[i])
    ensures ClassOf(less, x, s) == []
  {
    if s != [] {
      NoClassmates(less, x, s[1..]);
    }
  }

  lemma ConsClass<T>(less: (T, T) -> bool, x: T, h: T, t: seq<T>)
    ensures ClassOf(less, x, [h] + t) == (if Same(less, x, h) then [h] else []) + ClassOf(less, x, t)
  {
  }

  /** If y goes before all of s, nothing in s is equivalent to it. */
  lemma BeforeAll<T(!new)>(less: (T, T) -> bool, x: T, y: T, s: seq<T>)
    requires StrictWeakOrder(less) && Sorted(less, s)
    requires s != [] && less(y, s[0]) && Same(less, x, y)
    ensures ClassOf(less, x, s) == []
  {
    forall i | 0 <= i < |s| ensures !Same(less, x, s[i]) {
      assert i == 0 || !less(s[i], s[0]);
      assert less(y, s[i]);
    }
    NoClassmates(less, x, s);
  }

  lemma {:induction false} InsertClass<T(!new)>(less: (T, T) -> bool, x: T, y: T, s: seq<T>)
    requires StrictWeakOrder(less) && Sorted(less, s)
    ensures ClassOf(less, x, Insert(less, y, s)) == ClassOf(less, x, s) + (if Same(less, x, y) then [y] else [])
  {
    hide StrictWeakOrder, Same, ClassOf;
    if s == [] {
      NoClassmates(less, x, s);
      ConsClass(less, x, y, s);
      assert [y] + s == [y];
    } else if less(y, s[0]) {
      ConsClass(less, x, y, s);
      if Same(less, x, y) {
        BeforeAll(less, x, y, s);
      }
    } else {
      InsertClass(less, x, y, s[1..]);
      ConsClass(less, x, s[0], Insert(less, y, s[1..]));
      assert s == [s[0]] + s[1..];
      ConsClass(less, x, s[0], s[1..]);
    }
  }

  lemma {:induction false} ClassAppend<T>(less: (T, T) -> bool, x: T, s: seq<T>, t: seq<T>)
    ensures ClassOf(less, x, s + t) == ClassOf(less, x, s) + ClassOf(less, x, t)
  {
    hide ClassOf, Same;
    if s == [] {
      assert s + t == t;
      NoClassmates(less, x, s);
    } else {
      ClassAppend(less, x, s[1..], t);
      assert s + t == [s[0]] + (s[1..] + t) && s == [s[0]] + s[1..];
      ConsClass(less, x, s[0], s[1..] + t);
      ConsClass(less, x, s[0], s[1..]);
    }
  }

  /** A stable sort: ordered, the same elements, every equivalence class in its old order. */
  lemma {:induction false} StableSortCorrect<T(!new)>(less: (T, T) -> bool, s: seq<T>)
    requires StrictWeakOrder(less)
    ensures Sorted(less, StableSort(less, s))
    ensures multiset(StableSort(less, s)) == multiset(s)
    ensures |StableSort(less, s)| == |s|
    ensures forall x :: ClassOf(less, x, StableSort(less, s)) == ClassOf(less, x, s)
  {
    if s != [] {
      var init, last := s[..|s| - 1], s[|s| - 1];
      StableSortCorrect(less, init);
      assert s == init + [last];
      InsertContents(less, last, StableSort(less, init));
      InsertSorted(less, last, StableSort(less, init));
      assert |multiset(StableSort(less, s))| == |multiset(s)|;
      forall x ensures ClassOf(less, x, StableSort(less, s)) == ClassOf(less, x, s) {
        InsertClass(less, x, last, StableSort(less, init));
        ClassAppend(less, x, init, [last]);
        assert ClassOf(less, x, [last]) == if Same(less, x, last) then [last] else [];
      }
    }
  }

  lemma {:induction false} ClassMember<T>(less: (T, T) -> bool, x: T, s: seq<T>) returns (i: nat)
    requires ClassOf(less, x, s) != []
    ensures i < |s| && Same(less, x, s[i])
  {
    if Same(less, x, s[0]) {
      i := 0;
    } else {
      i := ClassMember(less, x, s[1..]);
      i := i + 1;
    }
  }

  /** Sorted lists with the same classes are the same list. */
  lemma {:induction false} SortedUnique<T(!new)>(less: (T, T) -> bool, a: seq<T>, b: seq<T>)
    requires StrictWeakOrder(less) && Sorted(less, a) && Sorted(less, b)
    requires forall x :: ClassOf(less, x, a) == ClassOf(less, x, b)
    ensures a == b
    decreases |a|
  {
    assert b != [] ==> ClassOf(less, b[0], b) != [];
    if a == [] {
    } else {
      assert ClassOf(less, a[0], b) == ClassOf(less, a[0], a) != [];
      var i := ClassMember(less, a[0], b);
      assert ClassOf(less, b[0], a) == ClassOf(less, b[0], b) != [];
      var j := ClassMember(less, b[0], a);
      assert !less(a[0], b[0]) by {
        assert !less(a[0], b[i]) && (i == 0 || !less(b[i], b[0]));
      }
      assert !less(b[0], a[0]) by {
        assert !less(b[0], a[j]) && (j == 0 || !less(a[j], a[0]));
      }
      assert Same(less, a[0], b[0]);
      assert ClassOf(less, a[0], a)[0] == a[0] && ClassOf(less, a[0], b)[0] == b[0];
      forall x ensures ClassOf(less, x, a[1..]) == ClassOf(less, x, b[1..]) {
        assert ClassOf(less, x, a) == ClassOf(less, x, b);
        var head := if Same(less, x, a[0]) then [a[0]] else [];
        assert ClassOf(less, x, a[1..]) == ClassOf(less, x, a)[|head|..];
        assert ClassOf(less, x, b[1..]) == ClassOf(less, x, b)[|head|..];
      }
      SortedUnique(less, a[1..], b[1..]);
      assert a == [a[0]] + a[1..] && b == [b[0]] + b[1..];
    }
  }

  /** A stable sort depends only on the input's classes. */
  lemma SortDetermined<T(!new)>(less: (T, T) -> bool, a: seq<T>, b: seq<T>)
    requires StrictWeakOrder(less)
    requires forall x :: ClassOf(less, x, a) == ClassOf(less, x, b)
    ensures StableSort(less, a) == StableSort(less, b)
  {
    StableSortCorrect(less, a);
    StableSortCorrect(less, b);
    forall x ensures ClassOf(less, x, StableSort(less, a)) == ClassOf(less, x, StableSort(less, b)) {
      assert ClassOf(less, x, a) == ClassOf(less, x, b);
    }
    SortedUnique(less, StableSort(less, a), StableSort(less, b));
  }

  // ---------- Permutations ----------

  ghost predicate NoDuplicates<T>(s: seq<T>) {
    forall i, j :: 0 <= i < j < |s| ==> s[i] != s[j]
  }

  lemma {:induction false} NoDuplicatesCount<T>(s: seq<T>, x: T)
    requires NoDuplicates(s)
    ensures multiset(s)[x] <= 1
  {
    if s != [] {
      assert s == s[..|s| - 1] + [s[|s| - 1]];
      NoDuplicatesCount(s[..|s| - 1], x);
    }
  }

  /** A permutation of a list without duplicates has none. */
  lemma NoDuplicatesPermuted<T>(a: seq<T>, b: seq<T>)
    requires NoDuplicates(a) && multiset(a) == multiset(b)
    ensures NoDuplicates(b)
  {
    forall i, j | 0 <= i < j < |b| ensures b[i] != b[j] {
      if b[i] == b[j] {
        assert b == b[..j] + [b[j]] + b[j + 1..];
        assert b[i] in b[..j];
        NoDuplicatesCount(a, b[i]);
        assert false;
      }
    }
  }

  /** Go's < on strings; on code points it is the order of their UTF-8 encodings. */
  predicate StrLess(a: string, b: string) {
    if b == [] then false
    else if a == [] then true
    else if a[0] != b[0] then a[0] < b[0]
    else StrLess(a[1..], b[1..])
  }

  /** a goes before b exactly when, after a common beginning, a ends, or has the smaller character. */
  lemma {:induction false} StrLessIff(a: string, b: string)
    ensures StrLess(a, b) <==>
            exists k :: 0 <= k < |b| && k <= |a| && a[..k] == b[..k] && (k == |a| || a[k] < b[k])
  {
    if a != [] && b != [] && a[0] == b[0] {
      StrLessIff(a[1..], b[1..]);
      assert a == [a[0]] + a[1..] && b == [b[0]] + b[1..];
      if StrLess(a, b) {
        var k :| 0 <= k < |b[1..]| && k <= |a[1..]| && a[1..][..k] == b[1..][..k] && (k == |a[1..]| || a[1..][k] < b[1..][k]);
        assert a[..k + 1] == [a[0]] + a[1..][..k] && b[..k + 1] == [b[0]] + b[1..][..k];
      }
      if k :| 0 <= k < |b| && k <= |a| && a[..k] == b[..k] && (k == |a| || a[k] < b[k]) {
        assert a[..k][1..] == a[1..][..k - 1] && b[..k][1..] == b[1..][..k - 1];
      }
    } else if a == [] && b != [] {
      assert a[..0] == b[..0];
    } else if b != [] {
      assert a[..0] == b[..0];
      forall k | 0 < k < |b| && k <= |a| ensures a[..k] != b[..k] { assert a[..k][0] != b[..k][0]; }
    }
  }

  lemma {:induction false} StrLessIrreflexive(a: string)
    ensures !StrLess(a, a)
  {
    if a != [] { StrLessIrreflexive(a[1..]); }
  }

  lemma {:induction false} StrLessTransitive(a: string, b: string, c: string)
    requires StrLess(a, b) && StrLess(b, c)
    ensures StrLess(a, c)
  {
    if a != [] && a[0] == b[0] == c[0] {
      StrLessTransitive(a[1..], b[1..], c[1..]);
    }
  }

  lemma {:induction false} StrLessTotal(a: string, b: string)
    ensures StrLess(a, b) || a == b || StrLess(b, a)
  {
    if a != [] && b != [] && a[0] == b[0] {
      StrLessTotal(a[1..], b[1..]);
      assert a == [a[0]] + a[1..] && b == [b[0]] + b[1..];
    }
  }

  lemma StrLessIsStrictTotal()
    ensures forall a :: !StrLess(a, a)
    ensures forall a, b, c :: StrLess(a, b) && StrLess(b, c) ==> StrLess(a, c)
    ensures forall a, b :: !StrLess(a, b) && !StrLess(b, a) ==> a == b
  {
    forall a ensures !StrLess(a, a) { StrLessIrreflexive(a); }
    forall a, b, c | StrLess(a, b) && StrLess(b, c) ensures StrLess(a, c) { StrLessTransitive(a, b, c); }
    forall a, b | !StrLess(a, b) && !StrLess(b, a) ensures a == b { StrLessTotal(a, b); }
  }
}
