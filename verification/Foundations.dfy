/** Shared vocabulary: optional values, duplicate-free sequences, Python's string order, and a
    stable sort with the facts the models need about it. */
module Foundations {

  datatype Option<+T> = None | Some(value: T)

  ghost predicate NoDuplicates<T>(s: seq<T>) {
    forall i, j :: 0 <= i < j < |s| ==> s[i] != s[j]
  }

  function Filter<T>(keep: T -> bool, s: seq<T>): seq<T> {
    if s == [] then []
    else (if keep(s[0]) then [s[0]] else []) + Filter(keep, s[1..])
  }

  function Elements<T>(s: seq<T>): set<T> {
    set x | x in s
  }

  lemma {:induction false} FilterAppend<T>(keep: T -> bool, a: seq<T>, b: seq<T>)
    ensures Filter(keep, a + b) == Filter(keep, a) + Filter(keep, b)
  {
    if a == [] {
      assert a + b == b;
    } else {
      var head := if keep(a[0]) then [a[0]] else [];
      assert (a + b)[1..] == a[1..] + b;
      FilterAppend(keep, a[1..], b);
      assert Filter(keep, a + b) == head + Filter(keep, a[1..] + b);
      assert head + (Filter(keep, a[1..]) + Filter(keep, b)) == (head + Filter(keep, a[1..])) + Filter(keep, b);
    }
  }

  lemma {:induction false} FilterMember<T>(keep: T -> bool, s: seq<T>, x: T)
    ensures x in Filter(keep, s) <==> x in s && keep(x)
  {
    if s != [] {
      assert s == [s[0]] + s[1..];
      FilterMember(keep, s[1..], x);
    }
  }

  ghost function Kept<T>(keep: T -> bool, s: seq<T>): set<nat> {
    set i: nat | i < |s| && keep(s[i])
  }

  /** As many elements are kept as there are positions to keep. */
  lemma {:induction false} FilterPositions<T>(keep: T -> bool, s: seq<T>)
    ensures |Filter(keep, s)| == |Kept(keep, s)|
  {
    if s == [] {
      assert Kept(keep, s) == {};
    } else {
      var n := |s| - 1;
      var front, last := s[..n], [s[n]];
      assert s == front + last;
      FilterPositions(keep, front);
      FilterAppend(keep, front, last);
      assert Filter(keep, last) == if keep(s[n]) then last else [];
      assert Kept(keep, s) == Kept(keep, front) + (if keep(s[n]) then {n} else {});
    }
  }

  lemma {:induction false} FilterAgrees<T>(keep: T -> bool, other: T -> bool, s: seq<T>)
    requires forall x :: x in s ==> keep(x) == other(x)
    ensures Filter(keep, s) == Filter(other, s)
  {
    if s != [] {
      assert s[0] in s;
      FilterAgrees(keep, other, s[1..]);
    }
  }

  /** Filtering keeps a duplicate-free sequence duplicate free. */
  lemma {:induction false} FilterNoDuplicates<T>(keep: T -> bool, s: seq<T>)
    requires NoDuplicates(s)
    ensures NoDuplicates(Filter(keep, s))
  {
    if s != [] {
      FilterNoDuplicates(keep, s[1..]);
      FilterMember(keep, s[1..], s[0]);
    }
  }

  lemma {:induction false} FilterEmptyIff<T>(keep: T -> bool, s: seq<T>)
    ensures Filter(keep, s) == [] <==> forall v :: v in s ==> !keep(v)
  {
    if Filter(keep, s) != [] {
      FilterMember(keep, s, Filter(keep, s)[0]);
    }
    forall v | v in s && keep(v)
      ensures Filter(keep, s) != []
    {
      FilterMember(keep, s, v);
    }
  }

  ghost predicate Only<T>(keep: T -> bool, s: seq<T>, v: T) {
    v in s && keep(v) && forall w :: w in s && keep(w) ==> w == v
  }

  lemma FilterSingleIff<T>(keep: T -> bool, s: seq<T>)
    requires NoDuplicates(s)
    ensures |Filter(keep, s)| == 1 <==> exists v :: Only(keep, s, v)
  {
    var kept := Filter(keep, s);
    FilterNoDuplicates(keep, s);
    if |kept| == 1 {
      FilterMember(keep, s, kept[0]);
      forall w | w in s && keep(w)
        ensures w == kept[0]
      {
        FilterMember(keep, s, w);
      }
      assert Only(keep, s, kept[0]);
    }
    if v :| Only(keep, s, v) {
      FilterMember(keep, s, v);
      if |kept| > 1 {
        FilterMember(keep, s, kept[0]);
        FilterMember(keep, s, kept[1]);
      }
    }
  }

  lemma NoDuplicatesAppend<T>(a: seq<T>, b: seq<T>)
    requires NoDuplicates(a) && NoDuplicates(b)
    requires forall x :: x in a ==> x !in b
    ensures NoDuplicates(a + b)
  {
    forall i, j | 0 <= i < j < |a + b|
      ensures (a + b)[i] != (a + b)[j]
    {
      if i < |a| <= j {
        assert (a + b)[i] in a && (a + b)[j] in b;
      }
    }
  }

  // ---------------------------------------------------------------- string order

  /** Python's `<=` on strings: lexicographic by code point. */
  predicate StringLe(a: string, b: string) {
    a == "" || (b != "" && (a[0] < b[0] || (a[0] == b[0] && StringLe(a[1..], b[1..]))))
  }

  lemma {:induction false} StringLeTotal(a: string, b: string)
    ensures StringLe(a, b) || StringLe(b, a)
  {
    if a != "" && b != "" {
      StringLeTotal(a[1..], b[1..]);
    }
  }

  lemma {:induction false} StringLeTransitive(a: string, b: string, c: string)
    requires StringLe(a, b) && StringLe(b, c)
    ensures StringLe(a, c)
  {
    if a != "" && a[0] == b[0] == c[0] {
      StringLeTransitive(a[1..], b[1..], c[1..]);
    }
  }

  lemma {:induction false} StringLeAntisymmetric(a: string, b: string)
    requires StringLe(a, b) && StringLe(b, a)
    ensures a == b
  {
    if a != "" && b != "" {
      StringLeAntisymmetric(a[1..], b[1..]);
      assert a == [a[0]] + a[1..] && b == [b[0]] + b[1..];
    }
  }

  /** Python's `<=` on tuples of strings: the first difference decides. */
  predicate TupleLe(a: seq<string>, b: seq<string>) {
    a == [] || (b != [] && if a[0] == b[0] then TupleLe(a[1..], b[1..]) else StringLe(a[0], b[0]))
  }

  lemma {:induction false} TupleLeTotal(a: seq<string>, b: seq<string>)
    ensures TupleLe(a, b) || TupleLe(b, a)
  {
    if a != [] && b != [] {
      StringLeTotal(a[0], b[0]);
      TupleLeTotal(a[1..], b[1..]);
    }
  }

  lemma {:induction false} TupleLeTransitive(a: seq<string>, b: seq<string>, c: seq<string>)
    requires TupleLe(a, b) && TupleLe(b, c)
    ensures TupleLe(a, c)
  {
    if a != [] && a[0] == b[0] == c[0] {
      TupleLeTransitive(a[1..], b[1..], c[1..]);
    } else if a != [] && a[0] != b[0] && b[0] != c[0] {
      StringLeTransitive(a[0], b[0], c[0]);
      if a[0] == c[0] {
        StringLeAntisymmetric(a[0], b[0]);
      }
    }
  }

  /** Sorting by a tuple of strings is sorting by a total preorder. */
  function ByTuple<T>(key: T -> seq<string>): (T, T) -> bool {
    (x: T, y: T) => TupleLe(key(x), key(y))
  }

  lemma ByTupleIsPreorder<T(!new)>(key: T -> seq<string>)
    ensures TotalPreorder(ByTuple(key))
  {
    var le := ByTuple(key);
    forall x, y
      ensures le(x, y) || le(y, x)
    {
      TupleLeTotal(key(x), key(y));
    }
    forall x, y, z | le(x, y) && le(y, z)
      ensures le(x, z)
    {
      TupleLeTransitive(key(x), key(y), key(z));
    }
  }

  // ---------------------------------------------------------------- stable sort

  ghost predicate TotalPreorder<T(!new)>(le: (T, T) -> bool) {
    && (forall x, y :: le(x, y) || le(y, x))
    && (forall x, y, z :: le(x, y) && le(y, z) ==> le(x, z))
  }

  ghost predicate Sorted<T>(le: (T, T) -> bool, s: seq<T>) {
    forall i, j :: 0 <= i < j < |s| ==> le(s[i], s[j])
  }

  function Insert<T>(le: (T, T) -> bool, x: T, s: seq<T>): seq<T> {
    if s == [] || le(x, s[0]) then [x] + s else [s[0]] + Insert(le, x, s[1..])
  }

  /** Stable: an element goes before the later elements it does not exceed. */
  function Sort<T>(le: (T, T) -> bool, s: seq<T>): seq<T> {
    if s == [] then [] else Insert(le, s[0], Sort(le, s[1..]))
  }

  lemma {:induction false} InsertPermutes<T>(le: (T, T) -> bool, x: T, s: seq<T>)
    ensures multiset(Insert(le, x, s)) == multiset{x} + multiset(s)
  {
    if s != [] {
      assert s == [s[0]] + s[1..];
      if !le(x, s[0]) {
        InsertPermutes(le, x, s[1..]);
      }
    }
  }

  lemma {:induction false} SortPermutes<T>(le: (T, T) -> bool, s: seq<T>)
    ensures multiset(Sort(le, s)) == multiset(s)
  {
    if s != [] {
      assert s == [s[0]] + s[1..];
      SortPermutes(le, s[1..]);
      InsertPermutes(le, s[0], Sort(le, s[1..]));
    }
  }

  lemma {:induction false} InsertSorts<T(!new)>(le: (T, T) -> bool, x: T, s: seq<T>)
    requires TotalPreorder(le) && Sorted(le, s)
    ensures Sorted(le, Insert(le, x, s))
  {
    if s != [] && !le(x, s[0]) {
      var rest := Insert(le, x, s[1..]);
      InsertSorts(le, x, s[1..]);
      InsertPermutes(le, x, s[1..]);
      forall j | 0 <= j < |rest|
        ensures le(s[0], rest[j])
      {
        assert rest[j] in multiset(rest);
        assert rest[j] == x || rest[j] in s[1..];
      }
    }
  }

  lemma {:induction false} SortSorts<T(!new)>(le: (T, T) -> bool, s: seq<T>)
    requires TotalPreorder(le)
    ensures Sorted(le, Sort(le, s))
  {
    if s != [] {
      SortSorts(le, s[1..]);
      InsertSorts(le, s[0], Sort(le, s[1..]));
    }
  }

  /** Sorting what is already in order changes nothing. */
  lemma {:induction false} SortOfSorted<T>(le: (T, T) -> bool, s: seq<T>)
    requires Sorted(le, s)
    ensures Sort(le, s) == s
  {
    if s != [] {
      SortOfSorted(le, s[1..]);
      assert |s| > 1 ==> le(s[0], s[1]);
      assert s == [s[0]] + s[1..];
    }
  }

  lemma PermutationMembers<T>(a: seq<T>, b: seq<T>)
    requires multiset(a) == multiset(b)
    ensures |a| == |b|
    ensures forall x :: x in a <==> x in b
  {
    assert |multiset(a)| == |multiset(b)|;
    forall x
      ensures x in a <==> x in b
    {
      assert x in multiset(a) <==> x in a;
      assert x in multiset(b) <==> x in b;
    }
  }

  /** Duplicate freedom is a property of the multiset, so a permutation keeps it. */
  lemma NoDuplicatesIffMultiplicities<T>(s: seq<T>)
    ensures NoDuplicates(s) <==> forall x :: multiset(s)[x] <= 1
  {
    if NoDuplicates(s) {
      forall x
        ensures multiset(s)[x] <= 1
      {
        MultiplicityOfDistinct(s, x);
      }
    }
    if forall x :: multiset(s)[x] <= 1 {
      forall i, j | 0 <= i < j < |s|
        ensures s[i] != s[j]
      {
        assert s == s[..i] + [s[i]] + s[i + 1..j] + [s[j]] + s[j + 1..];
        assert multiset(s)[s[i]] <= 1;
      }
    }
  }

  lemma {:induction false} MultiplicityOfDistinct<T>(s: seq<T>, x: T)
    requires NoDuplicates(s)
    ensures multiset(s)[x] <= 1
    ensures multiset(s)[x] == 1 <==> x in s
  {
    if s != [] {
      assert s == [s[0]] + s[1..];
      MultiplicityOfDistinct(s[1..], x);
    }
  }

  lemma PermutationNoDuplicates<T>(a: seq<T>, b: seq<T>)
    requires multiset(a) == multiset(b) && NoDuplicates(a)
    ensures NoDuplicates(b)
  {
    NoDuplicatesIffMultiplicities(a);
    NoDuplicatesIffMultiplicities(b);
  }

  // ---------------------------------------------------------------- distinct values

  function Values<T(==)>(s: seq<T>, f: T -> string): set<string> {
    set v | v in s :: f(v)
  }

  lemma {:induction false} DistinctCount<T>(s: seq<T>, f: T -> string)
    requires forall i, j :: 0 <= i < j < |s| ==> f(s[i]) != f(s[j])
    ensures |Values(s, f)| == |s|
  {
    if s != [] {
      var n := |s| - 1;
      DistinctCount(s[..n], f);
      assert s == s[..n] + [s[n]];
      assert Values(s, f) == Values(s[..n], f) + {f(s[n])};
      assert f(s[n]) !in Values(s[..n], f);
    }
  }

  /** Counting as many values as elements means no value occurs twice. */
  lemma {:induction false} CountedDistinct<T>(s: seq<T>, f: T -> string)
    ensures |Values(s, f)| <= |s|
    ensures |Values(s, f)| == |s| ==> forall i, j :: 0 <= i < j < |s| ==> f(s[i]) != f(s[j])
  {
    if s != [] {
      var n := |s| - 1;
      CountedDistinct(s[..n], f);
      ValuesOfLast(s, f);
      forall i, j | |Values(s, f)| == |s| && 0 <= i < j < |s|
        ensures f(s[i]) != f(s[j])
      {
        if j < n {
          assert s[..n][i] == s[i] && s[..n][j] == s[j];
        }
      }
    }
  }

  lemma ValuesOfLast<T>(s: seq<T>, f: T -> string)
    requires s != []
    ensures var n := |s| - 1; Values(s, f) == Values(s[..n], f) + {f(s[n])}
    ensures forall i :: 0 <= i < |s| - 1 ==> f(s[i]) in Values(s[..|s| - 1], f)
  {
    var n := |s| - 1;
    assert s == s[..n] + [s[n]];
    forall i | 0 <= i < n
      ensures f(s[i]) in Values(s[..n], f)
    {
      assert s[..n][i] in s[..n];
    }
  }

  /** Pairwise distinct values of `f` survive sorting. */
  lemma SortedDistinctCount<T>(le: (T, T) -> bool, s: seq<T>, f: T -> string)
    requires forall i, j :: 0 <= i < j < |s| ==> f(s[i]) != f(s[j])
    ensures |Values(Sort(le, s), f)| == |Sort(le, s)|
  {
    DistinctCount(s, f);
    SortPermutes(le, s);
    PermutationMembers(Sort(le, s), s);
    assert Values(Sort(le, s), f) == Values(s, f);
  }

  /** Sorting keeps how many elements a test accepts. */
  lemma {:induction false} SortKeepsFilterCount<T>(le: (T, T) -> bool, keep: T -> bool, s: seq<T>)
    ensures |Filter(keep, Sort(le, s))| == |Filter(keep, s)|
  {
    if s != [] {
      SortKeepsFilterCount(le, keep, s[1..]);
      InsertAddsToFilter(le, keep, s[0], Sort(le, s[1..]));
    }
  }

  lemma {:induction false} InsertAddsToFilter<T>(le: (T, T) -> bool, keep: T -> bool, x: T, s: seq<T>)
    ensures |Filter(keep, Insert(le, x, s))| == (if keep(x) then 1 else 0) + |Filter(keep, s)|
  {
    if s == [] || le(x, s[0]) {
      assert ([x] + s)[1..] == s;
    } else {
      InsertAddsToFilter(le, keep, x, s[1..]);
      assert ([s[0]] + Insert(le, x, s[1..]))[1..] == Insert(le, x, s[1..]);
    }
  }

  lemma CountedElements(s: seq<string>)
    ensures |Elements(s)| <= |s|
    ensures |Elements(s)| == |s| <==> NoDuplicates(s)
  {
    CountedDistinct(s, (v: string) => v);
    assert Values(s, (v: string) => v) == Elements(s);
    if NoDuplicates(s) {
      DistinctCount(s, (v: string) => v);
    }
  }
}
