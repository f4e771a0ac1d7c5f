/**
  Orders and sorting: the lexicographic order of byte strings, a stable sort, and what
  a sort by a total order settles.
 */
module Order {
  import opened Bytes

  ghost predicate TotalPreorder<T(!new)>(le: (T, T) -> bool) {
    && (forall a, b :: le(a, b) || le(b, a))
    && (forall a, b, c | le(a, b) && le(b, c) :: le(a, c))
  }

  ghost predicate TotalOrder<T(!new)>(le: (T, T) -> bool) {
    TotalPreorder(le) && Antisymmetric(le)
  }

  ghost predicate Antisymmetric<T(!new)>(le: (T, T) -> bool) {
    forall a, b | le(a, b) && le(b, a) :: a == b
  }

  ghost predicate Sorted<T>(xs: seq<T>, le: (T, T) -> bool) {
    forall i, j | 0 <= i < j < |xs| :: le(xs[i], xs[j])
  }

  /** Inserts after everything that is not greater, so equal keys keep their order. */
  function Insert<T>(xs: seq<T>, x: T, le: (T, T) -> bool): (r: seq<T>)
    ensures multiset(r) == multiset(xs) + multiset{x}
    decreases |xs|
  {
    if xs == [] then [x]
    else
      var last := xs[|xs| - 1];
      var front := xs[..|xs| - 1];
      assert xs == front + [last];
      if le(last, x) then xs + [x] else Insert(front, x, le) + [last]
  }

  function Sort<T>(xs: seq<T>, le: (T, T) -> bool): (r: seq<T>)
    ensures multiset(r) == multiset(xs) && |r| == |xs|
    decreases |xs|
  {
    if xs == [] then []
    else
      assert xs == xs[..|xs| - 1] + [xs[|xs| - 1]];
      var r := Insert(Sort(xs[..|xs| - 1], le), xs[|xs| - 1], le);
      assert |r| == |multiset(r)|;
      r
  }

  lemma InMultiset<T>(xs: seq<T>, x: T)
    ensures x in multiset(xs) <==> x in xs
  {
  }

  lemma {:induction false} InsertSorted<T(!new)>(xs: seq<T>, x: T, le: (T, T) -> bool)
    requires TotalPreorder(le) && Sorted(xs, le)
    ensures Sorted(Insert(xs, x, le), le)
    decreases |xs|
  {
    if xs != [] {
      var last, front := xs[|xs| - 1], xs[..|xs| - 1];
      assert xs == front + [last];
      if le(last, x) {
        forall i | 0 <= i < |xs| ensures le(xs[i], x) { assert le(xs[i], last); }
      } else {
        InsertSorted(front, x, le);
        var r := Insert(front, x, le);
        forall i | 0 <= i < |r| ensures le(r[i], last) {
          assert r[i] in multiset(r);
          assert r[i] == x || r[i] in multiset(front);
          if r[i] != x { assert r[i] in front; }
        }
      }
    }
  }

  lemma {:induction false} SortSorted<T(!new)>(xs: seq<T>, le: (T, T) -> bool)
    requires TotalPreorder(le)
    ensures Sorted(Sort(xs, le), le)
    decreases |xs|
  {
    if xs != [] {
      SortSorted(xs[..|xs| - 1], le);
      InsertSorted(Sort(xs[..|xs| - 1], le), xs[|xs| - 1], le);
    }
  }

  /** In order with no ties. */
  ghost predicate Strict<T>(xs: seq<T>, le: (T, T) -> bool) {
    forall i, j | 0 <= i < j < |xs| :: !le(xs[j], xs[i])
  }

  lemma StrictIsSorted<T(!new)>(xs: seq<T>, le: (T, T) -> bool)
    requires TotalPreorder(le) && Strict(xs, le)
    ensures Sorted(xs, le)
  {
  }

  lemma {:induction false} InsertStrict<T(!new)>(xs: seq<T>, x: T, le: (T, T) -> bool)
    requires TotalPreorder(le) && Strict(xs, le) && forall y | y in xs :: !(le(x, y) && le(y, x))
    ensures Strict(Insert(xs, x, le), le)
    decreases |xs|
  {
    if xs != [] {
      var last, front := xs[|xs| - 1], xs[..|xs| - 1];
      if le(last, x) {
        forall i | 0 <= i < |xs| ensures !le(x, xs[i]) {
          assert xs[i] in xs;
          assert i < |xs| - 1 ==> !le(last, xs[i]);
        }
      } else {
        InsertStrict(front, x, le);
        var r := Insert(front, x, le);
        forall i | 0 <= i < |r| ensures !le(last, r[i]) {
          assert r[i] in multiset(r);
          if r[i] != x { assert r[i] in multiset(front); }
        }
      }
    }
  }

  ghost predicate NoRepeats<T>(xs: seq<T>) { forall i, j | 0 <= i < j < |xs| :: xs[i] != xs[j] }

  /** Sorting different elements by a total order leaves no ties. */
  lemma {:induction false} SortStrict<T(!new)>(xs: seq<T>, le: (T, T) -> bool)
    requires TotalOrder(le) && NoRepeats(xs)
    ensures Strict(Sort(xs, le), le)
    decreases |xs|
  {
    if xs != [] {
      var front, last := xs[..|xs| - 1], xs[|xs| - 1];
      SortStrict(front, le);
      forall y | y in Sort(front, le) ensures !(le(last, y) && le(y, last)) {
        SameElements(Sort(front, le), front, y);
      }
      InsertStrict(Sort(front, le), last, le);
    }
  }

  lemma SameElements<T>(xs: seq<T>, ys: seq<T>, x: T)
    requires multiset(xs) == multiset(ys) && x in xs
    ensures x in ys
  {
    assert x in multiset(ys);
  }

  lemma SameGreatest<T(!new)>(xs: seq<T>, ys: seq<T>, le: (T, T) -> bool)
    requires Antisymmetric(le) && Sorted(xs, le) && Sorted(ys, le) && multiset(xs) == multiset(ys)
    requires xs != [] && ys != []
    ensures xs[|xs| - 1] == ys[|ys| - 1]
  {
    SameElements(xs, ys, xs[|xs| - 1]);
    SameElements(ys, xs, ys[|ys| - 1]);
  }

  lemma DropSameLast<T>(xs: seq<T>, ys: seq<T>)
    requires multiset(xs) == multiset(ys) && xs != [] && ys != [] && xs[|xs| - 1] == ys[|ys| - 1]
    ensures multiset(xs[..|xs| - 1]) == multiset(ys[..|ys| - 1])
  {
    var a := xs[|xs| - 1];
    assert xs == xs[..|xs| - 1] + [a] && ys == ys[..|ys| - 1] + [a];
    assert multiset(xs[..|xs| - 1]) == multiset(xs) - multiset{a};
    assert multiset(ys[..|ys| - 1]) == multiset(ys) - multiset{a};
  }

  lemma SameLength<T>(xs: seq<T>, ys: seq<T>)
    requires multiset(xs) == multiset(ys)
    ensures |xs| == |ys|
  {
    assert |xs| == |multiset(xs)| == |multiset(ys)| == |ys|;
  }

  /** Under a total order there is one sorted arrangement. */
  lemma {:induction false} SortedUnique<T(!new)>(xs: seq<T>, ys: seq<T>, le: (T, T) -> bool)
    requires Antisymmetric(le) && Sorted(xs, le) && Sorted(ys, le) && multiset(xs) == multiset(ys)
    ensures xs == ys
    decreases |xs|
  {
    SameLength(xs, ys);
    if xs != [] {
      SameGreatest(xs, ys, le);
      DropSameLast(xs, ys);
      SortedUnique(xs[..|xs| - 1], ys[..|ys| - 1], le);
      assert xs == xs[..|xs| - 1] + [xs[|xs| - 1]];
    }
  }

  lemma AppendIsInsert<T>(xs: seq<T>, x: T, le: (T, T) -> bool)
    requires xs == [] || le(xs[|xs| - 1], x)
    ensures Insert(xs, x, le) == xs + [x]
  {
  }

  lemma FrontSorted<T>(xs: seq<T>, le: (T, T) -> bool)
    requires xs != [] && Sorted(xs, le)
    ensures Sorted(xs[..|xs| - 1], le)
  {
  }

  /** A sort leaves what is in order as it is, whatever ties there are. */
  lemma {:induction false} SortOfSorted<T>(xs: seq<T>, le: (T, T) -> bool)
    requires Sorted(xs, le)
    ensures Sort(xs, le) == xs
    decreases |xs|
  {
    if xs != [] {
      var front, last := xs[..|xs| - 1], xs[|xs| - 1];
      assert xs == front + [last];
      AppendIsInsert(front, last, le);
      FrontSorted(xs, le);
      SortOfSorted(front, le);
    }
  }

  // Removing and counting.

  function Without<T>(xs: seq<T>, k: nat): (r: seq<T>)
    requires k < |xs|
    ensures |r| == |xs| - 1 && multiset(r) == multiset(xs) - multiset{xs[k]}
  {
    assert xs == xs[..k] + [xs[k]] + xs[k + 1..];
    xs[..k] + xs[k + 1..]
  }

  function Keep<T(!new)>(xs: seq<T>, p: T -> bool): (r: seq<T>)
    ensures forall x :: x in r <==> x in xs && p(x)
    ensures |r| <= |xs|
  {
    if xs == [] then []
    else
      var r := Keep(xs[..|xs| - 1], p);
      if p(xs[|xs| - 1]) then r + [xs[|xs| - 1]] else r
  }

  function Count<T>(xs: seq<T>, p: T -> bool): nat {
    if xs == [] then 0 else Count(xs[..|xs| - 1], p) + if p(xs[|xs| - 1]) then 1 else 0
  }

  lemma {:induction false} CountAppends<T>(xs: seq<T>, ys: seq<T>, p: T -> bool)
    ensures Count(xs + ys, p) == Count(xs, p) + Count(ys, p)
    decreases |ys|
  {
    if ys == [] {
      assert xs + ys == xs;
    } else {
      assert (xs + ys)[..|xs + ys| - 1] == xs + ys[..|ys| - 1];
      CountAppends(xs, ys[..|ys| - 1], p);
    }
  }

  lemma CountOne<T>(x: T, p: T -> bool)
    ensures Count([x], p) == if p(x) then 1 else 0
  {
    assert [x][..0] == [];
  }

  lemma Cut<T>(xs: seq<T>, k: nat)
    requires k < |xs|
    ensures xs[..k] + [xs[k]] + xs[k + 1..] == xs
  {
  }

  lemma CountMiddle<T>(xs: seq<T>, x: T, ys: seq<T>, p: T -> bool)
    ensures Count(xs + [x] + ys, p) == Count(xs + ys, p) + if p(x) then 1 else 0
  {
    CountAppends(xs + [x], ys, p);
    CountAppends(xs, [x], p);
    CountAppends(xs, ys, p);
    CountOne(x, p);
  }

  lemma CountWithout<T>(xs: seq<T>, k: nat, p: T -> bool)
    requires k < |xs|
    ensures Count(Without(xs, k), p) == Count(xs, p) - if p(xs[k]) then 1 else 0
  {
    var front, x, back := xs[..k], xs[k], xs[k + 1..];
    assert front + [x] + back == xs by { Cut(xs, k); }
    CountMiddle(front, x, back, p);
    assert Without(xs, k) == front + back;
  }

  lemma {:induction false} CountInsert<T>(xs: seq<T>, x: T, le: (T, T) -> bool, p: T -> bool)
    ensures Count(Insert(xs, x, le), p) == Count(xs, p) + if p(x) then 1 else 0
    decreases |xs|
  {
    if xs == [] {
      CountOne(x, p);
    } else {
      var last, front := xs[|xs| - 1], xs[..|xs| - 1];
      CountOne(x, p);
      CountOne(last, p);
      CountAppends(xs, [x], p);
      CountInsert(front, x, le, p);
      CountAppends(Insert(front, x, le), [last], p);
    }
  }

  /** More elements satisfy a weaker predicate. */
  lemma {:induction false} CountGrows<T>(xs: seq<T>, ys: seq<T>, p: T -> bool, q: T -> bool)
    requires |xs| == |ys| && forall i | 0 <= i < |xs| :: p(xs[i]) ==> q(ys[i])
    ensures Count(xs, p) <= Count(ys, q)
    decreases |xs|
  {
    if xs != [] { CountGrows(xs[..|xs| - 1], ys[..|ys| - 1], p, q); }
  }


  // Byte strings.

  predicate LexLe(a: bytes, b: bytes) {
    a == [] || (b != [] && (a[0] < b[0] || (a[0] == b[0] && LexLe(a[1..], b[1..]))))
  }

  predicate LexLt(a: bytes, b: bytes) { LexLe(a, b) && a != b }

  lemma {:induction false} LexTotal(a: bytes, b: bytes)
    ensures LexLe(a, b) || LexLe(b, a)
  {
    if a != [] && b != [] { LexTotal(a[1..], b[1..]); }
  }

  lemma {:induction false} LexAntisymmetric(a: bytes, b: bytes)
    requires LexLe(a, b) && LexLe(b, a)
    ensures a == b
  {
    if a != [] && b != [] {
      LexAntisymmetric(a[1..], b[1..]);
      assert a == [a[0]] + a[1..] && b == [b[0]] + b[1..];
    }
  }

  lemma {:induction false} LexTransitive(a: bytes, b: bytes, c: bytes)
    requires LexLe(a, b) && LexLe(b, c)
    ensures LexLe(a, c)
  {
    if a != [] && b != [] && c != [] && a[0] == b[0] == c[0] { LexTransitive(a[1..], b[1..], c[1..]); }
  }

  /** Compare by one part, then by the next. */
  predicate Then(lt: bool, eq: bool, rest: bool) { lt || (eq && rest) }

  // Sizes.

  lemma SameSizeSubset<T>(a: set<T>, b: set<T>)
    requires a <= b && |a| == |b|
    ensures a == b
  {
    assert b == a + (b - a);
    assert |b - a| == 0;
  }

  lemma MapSize<K, V>(m: map<K, V>)
    ensures |m| == |m.Keys|
  {
  }
}
