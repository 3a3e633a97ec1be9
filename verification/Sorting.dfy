/** Total preorders, sorting and duplicate removal, as the Go packages `slices` and `cmp` provide them. */
module Sorting {

  ghost predicate Total<T(!new)>(le: (T, T) -> bool) {
    forall x, y :: le(x, y) || le(y, x)
  }

  ghost predicate Transitive<T(!new)>(le: (T, T) -> bool) {
    forall x, y, z :: le(x, y) && le(y, z) ==> le(x, z)
  }

  ghost predicate Ordering<T(!new)>(le: (T, T) -> bool) {
    Total(le) && Transitive(le)
  }

  /** le never ties two different elements of s. */
  ghost predicate NoTies<T>(le: (T, T) -> bool, s: seq<T>) {
    forall x, y :: x in s && y in s && le(x, y) && le(y, x) ==> x == y
  }

  ghost predicate SortedBy<T>(le: (T, T) -> bool, s: seq<T>) {
    forall i, j :: 0 <= i < j < |s| ==> le(s[i], s[j])
  }

  predicate Distinct<T(==)>(s: seq<T>) {
    forall i, j :: 0 <= i < j < |s| ==> s[i] != s[j]
  }

  function Insert<T>(le: (T, T) -> bool, x: T, s: seq<T>): seq<T> {
    if |s| == 0 || le(x, s[0]) then [x] + s else [s[0]] + Insert(le, x, s[1..])
  }

  function Sort<T>(le: (T, T) -> bool, s: seq<T>): seq<T> {
    if |s| == 0 then [] else Insert(le, s[0], Sort(le, s[1..]))
  }

  lemma {:induction false} InsertSorted<T(!new)>(le: (T, T) -> bool, x: T, s: seq<T>)
    requires Ordering(le) && SortedBy(le, s)
    ensures SortedBy(le, Insert(le, x, s))
    ensures multiset(Insert(le, x, s)) == multiset(s) + multiset{x}
  {
    if |s| == 0 {
    } else if le(x, s[0]) {
      assert forall j :: 0 < j < |s| ==> le(x, s[j]);
    } else {
      InsertSorted(le, x, s[1..]);
      var r := Insert(le, x, s[1..]);
      assert s == [s[0]] + s[1..];
      assert multiset(r) == multiset(s[1..]) + multiset{x};
      forall j | 0 <= j < |r| ensures le(s[0], r[j]) {
        assert r[j] in multiset(r);
        if r[j] in s[1..] {
          var k :| 0 <= k < |s[1..]| && s[1..][k] == r[j];
          assert s[k + 1] == r[j];
        }
      }
    }
  }

  lemma {:induction false} SortSorts<T(!new)>(le: (T, T) -> bool, s: seq<T>)
    requires Ordering(le)
    ensures SortedBy(le, Sort(le, s))
    ensures multiset(Sort(le, s)) == multiset(s)
    ensures |Sort(le, s)| == |s|
  {
    if |s| > 0 {
      SortSorts(le, s[1..]);
      InsertSorted(le, s[0], Sort(le, s[1..]));
      assert s == [s[0]] + s[1..];
    }
    assert |multiset(Sort(le, s))| == |Sort(le, s)|;
  }

  lemma TailMultiset<T>(a: seq<T>, b: seq<T>)
    requires |a| > 0 && |b| > 0 && a[0] == b[0] && multiset(a) == multiset(b)
    ensures multiset(a[1..]) == multiset(b[1..])
  {
    assert a == [a[0]] + a[1..] && b == [b[0]] + b[1..];
    assert multiset(a[1..]) == multiset(a) - multiset{a[0]};
    assert multiset(b[1..]) == multiset(b) - multiset{b[0]};
  }

  lemma SortedHeads<T(!new)>(le: (T, T) -> bool, a: seq<T>, b: seq<T>)
    requires Ordering(le) && NoTies(le, a) && SortedBy(le, a) && SortedBy(le, b)
    requires multiset(a) == multiset(b) && |a| > 0
    ensures |b| == |a| && a[0] == b[0]
  {
    assert |multiset(a)| == |a| && |multiset(b)| == |b|;
    assert b[0] in multiset(a) && a[0] in multiset(b);
    assert b[0] in a && a[0] in b;
    assert le(a[0], b[0]) && le(b[0], a[0]);
  }

  lemma {:induction false} SortedUnique<T(!new)>(le: (T, T) -> bool, a: seq<T>, b: seq<T>)
    requires Ordering(le) && NoTies(le, a)
    requires SortedBy(le, a) && SortedBy(le, b)
    requires multiset(a) == multiset(b)
    ensures a == b
  {
    assert |multiset(a)| == |a| && |multiset(b)| == |b|;
    if |a| > 0 {
      SortedHeads(le, a, b);
      TailMultiset(a, b);
      SortedUnique(le, a[1..], b[1..]);
      assert a == [a[0]] + a[1..] && b == [b[0]] + b[1..];
    }
  }

  /** Sorting does not depend on the order of its input, when nothing ties. */
  lemma SortPermutation<T(!new)>(le: (T, T) -> bool, a: seq<T>, b: seq<T>)
    requires Ordering(le) && NoTies(le, a)
    requires multiset(a) == multiset(b)
    ensures Sort(le, a) == Sort(le, b)
  {
    SortSorts(le, a);
    SortSorts(le, b);
    assert forall x :: x in Sort(le, a) ==> x in multiset(a);
    SortedUnique(le, Sort(le, a), Sort(le, b));
  }

  lemma SameElements<T>(a: seq<T>, b: seq<T>)
    requires multiset(a) == multiset(b)
    ensures forall x :: x in a <==> x in b
  {
    assert forall x :: x in a <==> x in multiset(a);
    assert forall x :: x in b <==> x in multiset(b);
  }

  lemma SortElements<T(!new)>(le: (T, T) -> bool, s: seq<T>)
    requires Ordering(le)
    ensures forall x :: x in Sort(le, s) <==> x in s
  {
    SortSorts(le, s);
    SameElements(s, Sort(le, s));
  }

  /** Drops an element equal to its predecessor, as `slices.Compact` does. */
  function Compact<T(==)>(s: seq<T>): seq<T> {
    if |s| <= 1 then s
    else if s[0] == s[1] then Compact(s[1..])
    else [s[0]] + Compact(s[1..])
  }

  lemma {:induction false} CompactElements<T>(s: seq<T>)
    ensures forall x :: x in Compact(s) <==> x in s
    ensures |s| > 0 ==> |Compact(s)| > 0 && Compact(s)[0] == s[0]
  {
    if |s| > 1 {
      CompactElements(s[1..]);
      assert s == [s[0]] + s[1..];
    }
  }

  /** On a sorted sequence, adjacent duplicates are all the duplicates. */
  lemma {:induction false} CompactSorted<T(!new)>(le: (T, T) -> bool, s: seq<T>)
    requires SortedBy(le, s) && NoTies(le, s)
    ensures SortedBy(le, Compact(s)) && Distinct(Compact(s))
  {
    if |s| > 1 {
      CompactSorted(le, s[1..]);
      CompactElements(s[1..]);
      var c := Compact(s[1..]);
      assert s == [s[0]] + s[1..];
      if s[0] != s[1] {
        forall j | 0 <= j < |c| ensures le(s[0], c[j]) && c[j] != s[0] {
          assert c[j] in s[1..];
          var k :| 0 <= k < |s[1..]| && s[1..][k] == c[j];
          assert le(s[0], s[k + 1]);
          if s[k + 1] == s[0] {
            assert k + 1 == 1 || le(s[1], s[k + 1]);
            assert le(s[0], s[1]);
          }
        }
      }
    }
  }

  /** Sorting and compacting gives the elements in strictly increasing order. */
  ghost predicate SortedSet<T(!new)>(le: (T, T) -> bool, list: seq<T>, elements: seq<T>) {
    SortedBy(le, list) && Distinct(list) && forall x :: x in list <==> x in elements
  }

  lemma SortCompact<T(!new)>(le: (T, T) -> bool, s: seq<T>)
    requires Ordering(le) && NoTies(le, s)
    ensures SortedSet(le, Compact(Sort(le, s)), s)
  {
    var sorted := Sort(le, s);
    SortSorts(le, s);
    SortElements(le, s);
    hide Sort, Compact, SortedBy, Distinct;
    assert NoTies(le, sorted);
    CompactSorted(le, sorted);
    CompactElements(sorted);
  }

  lemma {:induction false} DistinctMultiset<T>(a: seq<T>, b: seq<T>)
    requires Distinct(a) && Distinct(b)
    requires forall x :: x in a <==> x in b
    ensures multiset(a) == multiset(b)
  {
    forall x ensures multiset(a)[x] == multiset(b)[x] {
      DistinctCount(a, x);
      DistinctCount(b, x);
    }
  }

  lemma {:induction false} DistinctCount<T>(a: seq<T>, x: T)
    requires Distinct(a)
    ensures multiset(a)[x] == if x in a then 1 else 0
  {
    if |a| > 0 {
      assert a == [a[0]] + a[1..];
      DistinctCount(a[1..], x);
      if x == a[0] {
        assert x !in a[1..];
      }
    }
  }

  /** A strictly increasing sequence is determined by its elements. */
  lemma StrictUnique<T(!new)>(le: (T, T) -> bool, a: seq<T>, b: seq<T>)
    requires Ordering(le) && NoTies(le, a)
    requires SortedBy(le, a) && Distinct(a) && SortedBy(le, b) && Distinct(b)
    requires forall x :: x in a <==> x in b
    ensures a == b
  {
    DistinctMultiset(a, b);
    SortedUnique(le, a, b);
  }

  lemma {:induction false} DistinctLength<T>(s: seq<T>)
    requires Distinct(s)
    ensures |set x | x in s| == |s|
  {
    if |s| > 0 {
      DistinctLength(s[1..]);
      assert s == [s[0]] + s[1..];
      assert (set x | x in s) == {s[0]} + (set x | x in s[1..]);
    } else {
      assert (set x | x in s) == {};
    }
  }

  // ---------------------------------------------------------------------------
  // Strings, compared as `cmp.Compare` and `strings.Compare` do

  predicate StringLe(a: string, b: string) {
    if |a| == 0 then true
    else if |b| == 0 then false
    else if a[0] != b[0] then a[0] < b[0]
    else StringLe(a[1..], b[1..])
  }

  lemma {:induction false} StringTotal(a: string, b: string)
    ensures StringLe(a, b) || StringLe(b, a)
  {
    if |a| > 0 && |b| > 0 { StringTotal(a[1..], b[1..]); }
  }

  lemma StringReflexive(a: string)
    ensures StringLe(a, a)
  {
    StringTotal(a, a);
  }

  lemma {:induction false} StringAntisymmetric(a: string, b: string)
    requires StringLe(a, b) && StringLe(b, a)
    ensures a == b
  {
    if |a| > 0 && |b| > 0 {
      StringAntisymmetric(a[1..], b[1..]);
      assert a == [a[0]] + a[1..] && b == [b[0]] + b[1..];
    }
  }

  lemma {:induction false} StringTransitive(a: string, b: string, c: string)
    requires StringLe(a, b) && StringLe(b, c)
    ensures StringLe(a, c)
  {
    if |a| > 0 && |b| > 0 && |c| > 0 && a[0] == b[0] && b[0] == c[0] {
      StringTransitive(a[1..], b[1..], c[1..]);
    }
  }

  /** a comes before b: it is a proper prefix, or smaller where they first differ. */
  ghost predicate Precedes(a: string, b: string) {
    a != b && (a <= b || exists k :: 0 <= k < |a| && k < |b| && a[..k] == b[..k] && a[k] < b[k])
  }

  lemma {:induction false} StringLeMeans(a: string, b: string)
    ensures StringLe(a, b) <==> a == b || Precedes(a, b)
  {
    if |a| > 0 && |b| > 0 && a[0] == b[0] {
      StringLeMeans(a[1..], b[1..]);
      assert a == [a[0]] + a[1..] && b == [b[0]] + b[1..];
      if k :| 0 <= k < |a[1..]| && k < |b[1..]| && a[1..][..k] == b[1..][..k] && a[1..][k] < b[1..][k] {
        assert a[..k + 1] == [a[0]] + a[1..][..k] && b[..k + 1] == [b[0]] + b[1..][..k];
        assert a[k + 1] < b[k + 1];
      }
      if k :| 0 <= k < |a| && k < |b| && a[..k] == b[..k] && a[k] < b[k] {
        assert a[1..][..k - 1] == a[..k][1..] && b[1..][..k - 1] == b[..k][1..];
        assert a[1..][k - 1] < b[1..][k - 1];
      }
    } else if |a| > 0 && |b| > 0 {
      assert a[..0] == b[..0];
      if k :| 0 <= k < |a| && k < |b| && a[..k] == b[..k] && a[k] < b[k] {
        SharedHead(a, b, k);
      }
    }
  }

  lemma SharedHead(a: string, b: string, k: nat)
    requires k <= |a| && k <= |b| && a[..k] == b[..k]
    ensures k > 0 ==> a[0] == b[0]
  {
    if k > 0 { assert a[..k][0] == b[..k][0]; }
  }

  lemma StringOrdering()
    ensures Ordering(StringLe)
  {
    forall a, b ensures StringLe(a, b) || StringLe(b, a) { StringTotal(a, b); }
    forall a, b, c | StringLe(a, b) && StringLe(b, c) ensures StringLe(a, c) { StringTransitive(a, b, c); }
  }

  lemma StringNoTies(s: seq<string>)
    ensures NoTies(StringLe, s)
  {
    forall a, b | a in s && b in s && StringLe(a, b) && StringLe(b, a) ensures a == b { StringAntisymmetric(a, b); }
  }

  /** StrictUnique and Sort for strings, with the order's laws discharged. */
  lemma StringsUnique(a: seq<string>, b: seq<string>)
    requires SortedBy(StringLe, a) && Distinct(a) && SortedBy(StringLe, b) && Distinct(b)
    requires forall x :: x in a <==> x in b
    ensures a == b
  {
    StringOrdering();
    StringNoTies(a);
    StrictUnique(StringLe, a, b);
  }

  lemma StringsSort(s: seq<string>)
    requires Distinct(s)
    ensures SortedBy(StringLe, Sort(StringLe, s)) && Distinct(Sort(StringLe, s))
    ensures forall x :: x in Sort(StringLe, s) <==> x in s
  {
    StringOrdering();
    SortSorts(StringLe, s);
    SortElements(StringLe, s);
    MultisetDistinct(s, Sort(StringLe, s));
  }

  lemma MultisetDistinct<T>(a: seq<T>, b: seq<T>)
    requires Distinct(a) && multiset(a) == multiset(b)
    ensures Distinct(b)
  {
    forall i, j | 0 <= i < j < |b| ensures b[i] != b[j] {
      if b[i] == b[j] {
        assert b == b[..i] + [b[i]] + b[i + 1..j] + [b[j]] + b[j + 1..];
        assert multiset(b)[b[i]] >= 2;
        DistinctCount(a, b[i]);
      }
    }
  }
}
