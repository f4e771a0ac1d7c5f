/**
  A section of a snapshot: a count, then that many records, each of which is added to
  what was restored before it or refused.
 */
module Sections {
  import opened Bytes
  import opened Codec
  import opened Order

  datatype Added<+A, +E> = Into(acc: A) | Refuse(why: E)

  function AddAll<R, A, E>(add: (A, R) -> Added<A, E>, acc: A, rows: seq<R>): Added<A, E>
    decreases |rows|
  {
    if rows == [] then Into(acc)
    else
      match add(acc, rows[0])
      case Refuse(e) => Refuse(e)
      case Into(next) => AddAll(add, next, rows[1..])
  }

  function TakeInto<R, A, E>(c: Codec<R>, add: (A, R) -> Added<A, E>, short: E, b: bytes, n: nat, acc: A): Parse<A, E>
    decreases n
  {
    if n == 0 then Got(acc, b)
    else
      match c.take(b)
      case Stop(_) => Stop(short)
      case Got(r, rest) =>
        match add(acc, r)
        case Refuse(e) => Stop(e)
        case Into(next) => TakeInto(c, add, short, rest, n - 1, next)
  }

  function TakeRows<R, A, E>(c: Codec<R>, add: (A, R) -> Added<A, E>, short: E, b: bytes, acc: A): Parse<A, E> {
    var (n, rest) :- TakeU32(b, short);
    TakeInto(c, add, short, rest, n, acc)
  }

  function PutRows<R>(c: Codec<R>, rows: seq<R>, tail: bytes): bytes
    requires |rows| < 0x1_0000_0000
  {
    PutU32(|rows|, PutMany(rows, c.put, tail))
  }

  // Reading back.

  ghost predicate Gives<A, E>(p: Parse<A, E>, added: Added<A, E>, rest: bytes) {
    && (added.Into? ==> p == Got(added.acc, rest))
    && (added.Refuse? ==> p == Stop(added.why))
  }

  lemma {:induction false} IntoReads<R(!new), A, E>(c: Codec<R>, add: (A, R) -> Added<A, E>, short: E, rows: seq<R>,
        tail: bytes, acc: A)
    requires Canonical(c) && forall r | r in rows :: c.ok(r)
    ensures Gives(TakeInto(c, add, short, PutMany(rows, c.put, tail), |rows|, acc), AddAll(add, acc, rows), tail)
    decreases |rows|
  {
    if rows != [] {
      var rest := PutMany(rows[1..], c.put, tail);
      assert rows[0] in rows && c.take(c.put(rows[0], rest)) == Got(rows[0], rest);
      var added := add(acc, rows[0]);
      if added.Into? { IntoReads(c, add, short, rows[1..], tail, added.acc); }
    }
  }

  lemma RowsRead<R(!new), A, E>(c: Codec<R>, add: (A, R) -> Added<A, E>, short: E, rows: seq<R>, tail: bytes, acc: A)
    requires Canonical(c) && |rows| < 0x1_0000_0000 && forall r | r in rows :: c.ok(r)
    ensures Gives(TakeRows(c, add, short, PutRows(c, rows, tail), acc), AddAll(add, acc, rows), tail)
  {
    TakeU32App(|rows|, PutMany(rows, c.put, tail), short);
    IntoReads(c, add, short, rows, tail, acc);
  }

  // Cutting.

  /** The first `m` of `length` bytes: short if they end inside what was read, and otherwise read alike. */
  ghost predicate CutAt<A, E>(whole: Parse<A, E>, cut: Parse<A, E>, length: nat, m: nat, short: E)
    requires whole.Got? && m <= length
  {
    && |whole.rest| <= length
    && (m < length - |whole.rest| ==> cut == Stop(short))
    && (m >= length - |whole.rest| ==> cut == Got(whole.value, whole.rest[..m - (length - |whole.rest|)]))
  }

  lemma {:induction false} IntoCut<R(!new), A, E>(c: Codec<R>, add: (A, R) -> Added<A, E>, short: E, b: bytes, n: nat,
        acc: A, m: nat)
    requires Canonical(c) && TakeInto(c, add, short, b, n, acc).Got? && m <= |b|
    ensures CutAt(TakeInto(c, add, short, b, n, acc), TakeInto(c, add, short, b[..m], n, acc), |b|, m, short)
    decreases n
  {
    if n > 0 {
      var r := c.take(b);
      Cuts(c, b, m);
      var size := |b| - |r.rest|;
      var m' := if m < size then 0 else m - size;
      IntoCut(c, add, short, r.rest, n - 1, add(acc, r.value).acc, m');
    }
  }

  lemma U32Cuts<E>(b: bytes, m: nat, short: E)
    requires TakeU32(b, short).Got? && m <= |b|
    ensures CutAt(TakeU32(b, short), TakeU32(b[..m], short), |b|, m, short) && |TakeU32(b, short).rest| == |b| - 4
  {
    if m >= 4 { assert b[..m][..4] == b[..4] && b[..m][4..] == b[4..][..m - 4]; }
  }

  lemma RowsCut<R(!new), A, E>(c: Codec<R>, add: (A, R) -> Added<A, E>, short: E, b: bytes, acc: A, m: nat)
    requires Canonical(c) && TakeRows(c, add, short, b, acc).Got? && m <= |b|
    ensures CutAt(TakeRows(c, add, short, b, acc), TakeRows(c, add, short, b[..m], acc), |b|, m, short)
    ensures |TakeRows(c, add, short, b, acc).rest| < |b|
  {
    var n := TakeU32(b, short);
    U32Cuts(b, m, short);
    IntoCut(c, add, short, n.rest, n.value, acc, if m < 4 then 0 else m - 4);
  }

  // What every added record keeps.

  lemma {:induction false} IntoKeeps<R(!new), A(!new), E>(c: Codec<R>, add: (A, R) -> Added<A, E>, short: E, b: bytes,
        n: nat, acc: A, good: A -> bool)
    requires good(acc) && forall a: A, r: R | good(a) && add(a, r).Into? :: good(add(a, r).acc)
    ensures var p := TakeInto(c, add, short, b, n, acc); p.Got? ==> good(p.value)
    decreases n
  {
    if n > 0 {
      var r := c.take(b);
      if r.Got? && add(acc, r.value).Into? { IntoKeeps(c, add, short, r.rest, n - 1, add(acc, r.value).acc, good); }
    }
  }

  lemma RowsKeep<R(!new), A(!new), E>(c: Codec<R>, add: (A, R) -> Added<A, E>, short: E, b: bytes, acc: A,
        good: A -> bool)
    requires good(acc) && forall a: A, r: R | good(a) && add(a, r).Into? :: good(add(a, r).acc)
    ensures var p := TakeRows(c, add, short, b, acc); p.Got? ==> good(p.value)
  {
    var n := TakeU32(b, short);
    if n.Got? { IntoKeeps(c, add, short, n.rest, n.value, acc, good); }
  }

  // Adding the entries of a map.

  /** The entries of a map, each once, in some order. */
  ghost predicate Lists<K, V>(m: map<K, V>, s: seq<(K, V)>) {
    && |s| == |m|
    && (forall i | 0 <= i < |s| :: s[i].0 in m && s[i].1 == m[s[i].0])
    && Distinct(s)
  }

  ghost predicate Distinct<K, V>(s: seq<(K, V)>) { forall i, j | 0 <= i < j < |s| :: s[i].0 != s[j].0 }

  ghost predicate Listed<K, V>(s: seq<(K, V)>, k: K) { exists i :: 0 <= i < |s| && s[i].0 == k }

  /** The entries written into a map, in order. */
  function Onto<K, V>(m: map<K, V>, s: seq<(K, V)>): map<K, V>
    decreases |s|
  {
    if s == [] then m else Onto(m[s[0].0 := s[0].1], s[1..])
  }

  lemma ListedFirst<K, V>(s: seq<(K, V)>, k: K)
    requires s != []
    ensures Listed(s, k) <==> s[0].0 == k || Listed(s[1..], k)
  {
    if Listed(s, k) && s[0].0 != k {
      var i :| 0 <= i < |s| && s[i].0 == k;
      assert s[1..][i - 1].0 == k;
    }
    if Listed(s[1..], k) {
      var i :| 0 <= i < |s[1..]| && s[1..][i].0 == k;
      assert s[i + 1].0 == k;
    }
  }

  lemma {:induction false} OntoHas<K, V>(m: map<K, V>, s: seq<(K, V)>, k: K)
    ensures k in Onto(m, s) <==> k in m || Listed(s, k)
    ensures k in m && !Listed(s, k) ==> Onto(m, s)[k] == m[k]
    decreases |s|
  {
    if s != [] {
      ListedFirst(s, k);
      OntoHas(m[s[0].0 := s[0].1], s[1..], k);
    }
  }

  lemma DistinctRest<K, V>(s: seq<(K, V)>)
    requires s != [] && Distinct(s)
    ensures Distinct(s[1..]) && !Listed(s[1..], s[0].0)
  {
  }

  lemma {:induction false} OntoGives<K, V>(m: map<K, V>, s: seq<(K, V)>, i: nat)
    requires Distinct(s) && i < |s|
    ensures s[i].0 in Onto(m, s) && Onto(m, s)[s[i].0] == s[i].1
    decreases |s|
  {
    DistinctRest(s);
    if i == 0 { OntoHas(m[s[0].0 := s[0].1], s[1..], s[0].0); } else { OntoGives(m[s[0].0 := s[0].1], s[1..], i - 1); }
  }

  lemma {:induction false} OntoSize<K, V>(m: map<K, V>, s: seq<(K, V)>)
    requires Distinct(s) && forall i | 0 <= i < |s| :: s[i].0 !in m
    ensures |Onto(m, s)| == |m| + |s|
    decreases |s|
  {
    if s != [] {
      var m' := m[s[0].0 := s[0].1];
      DistinctRest(s);
      assert m'.Keys == m.Keys + {s[0].0};
      MapSize(m);
      MapSize(m');
      forall i | 0 <= i < |s[1..]| ensures s[1..][i].0 !in m' { assert s[1..][i] == s[i + 1]; }
      OntoSize(m', s[1..]);
    }
  }

  /** Whatever the order, the entries make up the map. */
  lemma ListsMakeTheMap<K, V>(m: map<K, V>, s: seq<(K, V)>)
    requires Lists(m, s)
    ensures Onto(map[], s) == m
  {
    var r := Onto(map[], s);
    OntoSize(map[], s);
    MapSize(m);
    MapSize(r);
    forall k | k in r ensures k in m && r[k] == m[k] {
      OntoHas(map[], s, k);
      var i :| 0 <= i < |s| && s[i].0 == k;
      OntoGives(map[], s, i);
    }
    SameSizeSubset(r.Keys, m.Keys);
  }

  /** Where adding a row is not refused, it writes one entry, as long as the key is new. */
  ghost predicate WritesIf<R, A, E, K(!new), V(!new)>(add: (A, R) -> Added<A, E>, put: map<K, V> -> A, row: R, key: K,
        value: V) {
    forall m: map<K, V> | key !in m && add(put(m), row).Into? :: add(put(m), row) == Into(put(m[key := value]))
  }

  /** Adding a row is not refused, as long as the key is new. */
  ghost predicate Admits<R, A, E, K(!new), V(!new)>(add: (A, R) -> Added<A, E>, put: map<K, V> -> A, row: R, key: K) {
    forall m: map<K, V> | key !in m :: add(put(m), row).Into?
  }

  lemma {:induction false} WritesAll<R, A, E, K(!new), V(!new)>(
      add: (A, R) -> Added<A, E>, put: map<K, V> -> A, rows: seq<R>, entries: seq<(K, V)>, m: map<K, V>)
    requires |rows| == |entries| && Distinct(entries) && (forall i | 0 <= i < |entries| :: entries[i].0 !in m)
    requires forall i | 0 <= i < |rows| :: WritesIf(add, put, rows[i], entries[i].0, entries[i].1)
    ensures var r := AddAll(add, put(m), rows);
            && (r.Into? ==> r == Into(put(Onto(m, entries))))
            && ((forall i | 0 <= i < |rows| :: Admits(add, put, rows[i], entries[i].0)) ==> r.Into?)
    decreases |rows|
  {
    if rows != [] {
      var m' := m[entries[0].0 := entries[0].1];
      DistinctRest(entries);
      assert WritesIf(add, put, rows[0], entries[0].0, entries[0].1);
      forall i | 0 <= i < |entries[1..]| ensures entries[1..][i].0 !in m' { assert entries[1..][i] == entries[i + 1]; }
      forall i | 0 <= i < |rows[1..]| ensures WritesIf(add, put, rows[1..][i], entries[1..][i].0, entries[1..][i].1) {
        assert rows[1..][i] == rows[i + 1] && entries[1..][i] == entries[i + 1];
      }
      WritesAll(add, put, rows[1..], entries[1..], m');
      if forall i | 0 <= i < |rows| :: Admits(add, put, rows[i], entries[i].0) {
        assert Admits(add, put, rows[0], entries[0].0);
        forall i | 0 <= i < |rows[1..]| ensures Admits(add, put, rows[1..][i], entries[1..][i].0) {
          assert rows[1..][i] == rows[i + 1] && entries[1..][i] == entries[i + 1];
        }
      }
    }
  }

  method ListEntries<K(==), V>(m: map<K, V>) returns (s: seq<(K, V)>)
    ensures Lists(m, s)
  {
    s := [];
    var left := m.Keys;
    MapSize(m);
    while left != {}
      invariant left <= m.Keys && |s| == |m| - |left|
      invariant forall i | 0 <= i < |s| :: s[i].0 in m && s[i].0 !in left && s[i].1 == m[s[i].0]
      invariant forall i, j | 0 <= i < j < |s| :: s[i].0 != s[j].0
      decreases |left|
    {
      var k :| k in left;
      s := s + [(k, m[k])];
      left := left - {k};
    }
  }

  // One section after another.

  /** Sections `k` to `count - 1`. One that must be there stops an input that ends before it. */
  function TakeAll<A, E>(take: (nat, A, bytes) -> Parse<A, E>, missing: nat -> Option<E>, k: nat, count: nat, acc: A,
        b: bytes): Parse<A, E>
    decreases count - k
  {
    if k >= count then Got(acc, b)
    else if b == [] && missing(k).Some? then Stop(missing(k).value)
    else
      var (next, rest) :- take(k, acc, b);
      TakeAll(take, missing, k + 1, count, next, rest)
  }

  /** The section that the first `n` bytes end exactly before, if there is one. */
  function CutBefore<A, E>(take: (nat, A, bytes) -> Parse<A, E>, k: nat, count: nat, acc: A, b: bytes,
        n: nat): Option<nat>
    decreases count - k
  {
    if k >= count then None
    else if n == 0 then Some(k)
    else
      match take(k, acc, b)
      case Stop(_) => None
      case Got(next, rest) => if n < |b| - |rest| then None
        else CutBefore(take, k + 1, count, next, rest, n - (|b| - |rest|))
  }

  /** Every section reads at least a byte, and reads a cut input as `CutAt` says. */
  ghost predicate Sectioned<A(!new), E>(take: (nat, A, bytes) -> Parse<A, E>, count: nat, short: E) {
    forall k: nat, acc: A, b: bytes, m: nat {:trigger take(k, acc, b), take(k, acc, b[..m])} | k < count
      && take(k, acc, b).Got? && m <= |b| ::
      CutAt(take(k, acc, b), take(k, acc, b[..m]), |b|, m, short) && |take(k, acc, b).rest| < |b|
  }

  /** What an input cut to `n` bytes stops with. */
  function CutStop<E>(before: Option<nat>, missing: nat -> Option<E>, short: E): E {
    if before.Some? && missing(before.value).Some? then missing(before.value).value else short
  }

  lemma {:induction false} AllCut<A(!new), E>(take: (nat, A, bytes) -> Parse<A, E>, missing: nat -> Option<E>,
        short: E, k: nat, count: nat, acc: A, b: bytes, n: nat)
    requires Sectioned(take, count, short) && n < |b|
    requires var p := TakeAll(take, missing, k, count, acc, b); p.Got? && p.rest == []
    ensures TakeAll(take, missing, k, count, acc, b[..n])
            == Stop(CutStop(CutBefore(take, k, count, acc, b, n), missing, short))
    decreases count - k
  {
    var p, cut := take(k, acc, b), take(k, acc, b[..n]);
    assert CutAt(p, cut, |b|, n, short);
    if n >= |b| - |p.rest| {
      AllCut(take, missing, short, k + 1, count, p.value, p.rest, n - (|b| - |p.rest|));
    }
  }

  lemma {:induction false} AllKeep<A(!new), E>(take: (nat, A, bytes) -> Parse<A, E>, missing: nat -> Option<E>, k: nat,
        count: nat, acc: A, b: bytes, good: (nat, A) -> bool)
    requires k <= count && good(k, acc)
    requires forall j: nat, a: A, s: bytes | j < count && good(j, a) && take(j, a, s).Got? ::
             good(j + 1, take(j, a, s).value)
    ensures var p := TakeAll(take, missing, k, count, acc, b); p.Got? ==> good(count, p.value)
    decreases count - k
  {
    if k < count && take(k, acc, b).Got? {
      AllKeep(take, missing, k + 1, count, take(k, acc, b).value, take(k, acc, b).rest, good);
    }
  }

  lemma TakesOne<A, E>(take: (nat, A, bytes) -> Parse<A, E>, missing: nat -> Option<E>, k: nat, count: nat, acc: A,
        b: bytes, next: A, rest: bytes)
    requires k < count && b != [] && take(k, acc, b) == Got(next, rest)
    ensures TakeAll(take, missing, k, count, acc, b) == TakeAll(take, missing, k + 1, count, next, rest)
  {
  }

  // Writing a map and reading it back.

  function Each<T, R>(xs: seq<T>, row: T -> R): (rows: seq<R>)
    ensures |rows| == |xs| && forall i | 0 <= i < |xs| :: rows[i] == row(xs[i])
  {
    seq(|xs|, i requires 0 <= i < |xs| => row(xs[i]))
  }

  /** A map with every value changed. */
  function Mapped<K, V, W>(m: map<K, V>, back: V -> W): map<K, W> { map k | k in m :: back(m[k]) }

  lemma MappedLists<K, V, W>(m: map<K, V>, entries: seq<(K, V)>, back: V -> W)
    requires Lists(m, entries)
    ensures Lists(Mapped(m, back), Each(entries, (e: (K, V)) => (e.0, back(e.1))))
  {
    assert Mapped(m, back).Keys == m.Keys;
    MapSize(m);
    MapSize(Mapped(m, back));
  }

  /** What a section of `m`'s rows reads as: the map it was written from, or a refusal, and none if every row is
      admitted. */
  ghost predicate ReadsAs<A, E>(p: Parse<A, E>, value: A, rest: bytes, admitted: bool) {
    (p.Got? ==> p == Got(value, rest)) && (admitted ==> p.Got?)
  }

  lemma SectionReads<R(!new), A, E, K(!new), V(!new)>(
      c: Codec<R>, add: (A, R) -> Added<A, E>, short: E, put: map<K, V> -> A,
      rows: seq<R>, entries: seq<(K, V)>, m: map<K, V>, tail: bytes, admitted: bool)
    requires Canonical(c) && |rows| == |entries| < 0x1_0000_0000 && Lists(m, entries)
    requires forall i | 0 <= i < |rows| :: c.ok(rows[i]) && WritesIf(add, put, rows[i], entries[i].0, entries[i].1)
    requires admitted ==> forall i | 0 <= i < |rows| :: Admits(add, put, rows[i], entries[i].0)
    ensures PutRows(c, rows, tail) != []
    ensures ReadsAs(TakeRows(c, add, short, PutRows(c, rows, tail), put(map[])), put(m), tail, admitted)
  {
    RowsRead(c, add, short, rows, tail, put(map[]));
    WritesAll(add, put, rows, entries, map[]);
    ListsMakeTheMap(m, entries);
  }

  /**
    The entries of a map, in any order, written as rows: unless one of them is refused the
    section reads back as the map, each value as `back` leaves it.
   */
  lemma MapReads<R(!new), A, E, K(!new), V, W(!new)>(
      c: Codec<R>, add: (A, R) -> Added<A, E>, short: E, put: map<K, W> -> A,
      m: map<K, V>, entries: seq<(K, V)>, row: ((K, V)) -> R, back: V -> W, tail: bytes, admitted: bool)
    requires Canonical(c) && Lists(m, entries) && |entries| < 0x1_0000_0000
    requires forall k | k in m :: c.ok(row((k, m[k]))) && WritesIf(add, put, row((k, m[k])), k, back(m[k]))
    requires admitted ==> forall k | k in m :: Admits(add, put, row((k, m[k])), k)
    ensures var b := PutRows(c, Each(entries, row), tail);
            b != [] && ReadsAs(TakeRows(c, add, short, b, put(map[])), put(Mapped(m, back)), tail, admitted)
  {
    var rows, entries' := Each(entries, row), Each(entries, (e: (K, V)) => (e.0, back(e.1)));
    MappedLists(m, entries, back);
    forall i | 0 <= i < |rows|
      ensures c.ok(rows[i]) && WritesIf(add, put, rows[i], entries'[i].0, entries'[i].1)
      ensures admitted ==> Admits(add, put, rows[i], entries'[i].0)
    {
      var k := entries[i].0;
      assert k in m && entries[i] == (k, m[k]);
    }
    SectionReads(c, add, short, put, rows, entries', Mapped(m, back), tail, admitted);
  }

  lemma RowsFit<K, V, R>(m: map<K, V>, entries: seq<(K, V)>, row: ((K, V)) -> R, ok: R -> bool)
    requires Lists(m, entries) && forall k | k in m :: ok(row((k, m[k])))
    ensures forall i | 0 <= i < |entries| :: ok(row(entries[i]))
  {
    forall i | 0 <= i < |entries| ensures ok(row(entries[i])) {
      assert entries[i].0 in m && entries[i] == (entries[i].0, m[entries[i].0]);
    }
  }

  /** Reading a section record by record. */
  method ReadRows<R, A, E>(c: Codec<R>, add: (A, R) -> Added<A, E>, short: E, b: bytes, acc: A) returns (r: Parse<A, E>)
    ensures r == TakeRows(c, add, short, b, acc)
  {
    var n := TakeU32(b, short);
    if n.Stop? { return Stop(n.why); }
    var left: nat, rest, so := n.value, n.rest, acc;
    while left > 0
      invariant TakeInto(c, add, short, rest, left, so) == TakeInto(c, add, short, n.rest, n.value, acc)
    {
      var record := c.take(rest);
      if record.Stop? { return Stop(short); }
      var added := add(so, record.value);
      if added.Refuse? { return Stop(added.why); }
      left, rest, so := left - 1, record.rest, added.acc;
    }
    return Got(so, rest);
  }
}
