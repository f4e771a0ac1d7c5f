/**
  Record codecs: how a record is written in front of what follows, how it is read, and
  for which records the two are each other's inverse.
 */
module Codec {
  import opened Bytes

  datatype Codec<!T> = Codec(put: (T, bytes) -> bytes, take: bytes -> Parse<T, ()>, ok: T -> bool)

  ghost predicate Reads<T(!new)>(c: Codec<T>) {
    forall x: T, t: bytes | c.ok(x) :: c.take(c.put(x, t)) == Got(x, t)
  }

  ghost predicate Spells<T(!new)>(c: Codec<T>) {
    forall b: bytes | c.take(b).Got? :: c.ok(c.take(b).value) && b == c.put(c.take(b).value, c.take(b).rest)
  }

  ghost predicate Appends<T(!new)>(c: Codec<T>) {
    forall x: T, s: bytes, t: bytes {:trigger c.put(x, s + t)} | c.ok(x) :: c.put(x, s + t) == c.put(x, s) + t
  }

  /** What is written reads back, nothing else reads, and what follows is left alone. */
  ghost predicate Canonical<T(!new)>(c: Codec<T>) { Reads(c) && Spells(c) && Appends(c) }

  // One record after another.

  function TakePair<A, B>(a: Codec<A>, b: Codec<B>, s: bytes): Parse<(A, B), ()> {
    var (x, rest) :- a.take(s);
    var (y, rest) :- b.take(rest);
    Got((x, y), rest)
  }

  function Pair<A, B>(a: Codec<A>, b: Codec<B>): Codec<(A, B)> {
    Codec((x: (A, B), t: bytes) => a.put(x.0, b.put(x.1, t)),
          (s: bytes) => TakePair(a, b, s),
          (x: (A, B)) => a.ok(x.0) && b.ok(x.1))
  }

  lemma PairCanonical<A(!new), B(!new)>(a: Codec<A>, b: Codec<B>)
    requires Canonical(a) && Canonical(b)
    ensures Canonical(Pair(a, b))
  {
    var p := Pair(a, b);
    forall x: (A, B), t: bytes | p.ok(x) ensures p.take(p.put(x, t)) == Got(x, t) {
      var u := b.put(x.1, t);
      assert a.take(a.put(x.0, u)) == Got(x.0, u);
      assert b.take(u) == Got(x.1, t);
    }
    forall s: bytes | p.take(s).Got? ensures p.ok(p.take(s).value) && s == p.put(p.take(s).value, p.take(s).rest) {
      var x := a.take(s);
      assert s == a.put(x.value, x.rest) && x.rest == b.put(b.take(x.rest).value, b.take(x.rest).rest);
    }
    forall x: (A, B), s: bytes, t: bytes | p.ok(x) ensures p.put(x, s + t) == p.put(x, s) + t {
      assert b.put(x.1, s + t) == b.put(x.1, s) + t;
      assert a.put(x.0, b.put(x.1, s) + t) == a.put(x.0, b.put(x.1, s)) + t;
    }
  }

  // Basic fields.

  const Word: Codec<u64> := Codec(PutU64, (s: bytes) => TakeU64(s, ()), _ => true)

  lemma WordCanonical()
    ensures Canonical(Word)
  {
    forall x: u64, t: bytes ensures TakeU64(PutU64(x, t), ()) == Got(x, t) { TakeU64App(x, t, ()); }
    forall s: bytes | TakeU64(s, ()).Got? ensures var r := TakeU64(s, ()); s == PutU64(r.value, r.rest)
    {
      TakeU64Canonical(s, ());
    }
    forall x: u64, s: bytes, t: bytes ensures PutU64(x, s + t) == PutU64(x, s) + t { Assoc(U64(x), s, t); }
  }

  /** A string: its length in four bytes, then its bytes, which must be valid UTF-8. */
  function PutText(x: bytes, t: bytes): bytes { if Fits32(x) then PutLp32(x, t) else [] }

  function TakeText(utf8: bytes -> bool, s: bytes): Parse<bytes, ()> {
    var (x, rest) :- TakeLp32(s, ());
    if utf8(x) then Got(x, rest) else Stop(())
  }

  function Text(utf8: bytes -> bool): Codec<bytes> {
    Codec(PutText, (s: bytes) => TakeText(utf8, s), (x: bytes) => Fits32(x) && utf8(x))
  }

  lemma TextCanonical(utf8: bytes -> bool)
    ensures Canonical(Text(utf8))
  {
    var c := Text(utf8);
    forall x: bytes, t: bytes | c.ok(x) ensures c.take(c.put(x, t)) == Got(x, t) { TakeLp32App(x, t, ()); }
    forall s: bytes | c.take(s).Got? ensures c.ok(c.take(s).value) && s == c.put(c.take(s).value, c.take(s).rest)
    {
      TakeLp32Canonical(s, ());
    }
    forall x: bytes, s: bytes, t: bytes | c.ok(x) ensures c.put(x, s + t) == c.put(x, s) + t {
      assert Fits32(x);
      Assoc(x, s, t);
      Assoc(U32(|x|), x + s, t);
    }
  }

  // Cutting.

  ghost predicate Cut<T>(whole: Parse<T, ()>, cut: Parse<T, ()>, length: nat, m: nat)
    requires whole.Got? && m <= length
  {
    && |whole.rest| <= length
    && (m < length - |whole.rest| ==> cut.Stop?)
    && (m >= length - |whole.rest| ==> cut == Got(whole.value, whole.rest[..m - (length - |whole.rest|)]))
  }

  lemma PutSize<T(!new)>(c: Codec<T>, x: T, t: bytes)
    requires Appends(c) && c.ok(x)
    ensures c.put(x, t) == c.put(x, []) + t
  {
    assert [] + t == t;
    assert c.put(x, [] + t) == c.put(x, []) + t;
  }

  /** Reading the first `m` bytes: too short if they end inside the record, and the same record otherwise. */
  lemma Cuts<T(!new)>(c: Codec<T>, b: bytes, m: nat)
    requires Canonical(c) && c.take(b).Got? && m <= |b|
    ensures Cut(c.take(b), c.take(b[..m]), |b|, m)
  {
    var v, rest := c.take(b).value, c.take(b).rest;
    PutSize(c, v, rest);
    var size := |b| - |rest|;
    if m >= size {
      var r, more := rest[..m - size], rest[m - size..];
      assert r + more == rest;
      assert c.put(v, r + more) == c.put(v, r) + more;
      assert b[..m] == c.put(v, r);
      assert c.take(c.put(v, r)) == Got(v, r);
    } else {
      ShortStops(c, b, m);
    }
  }

  lemma LongerReads<T(!new)>(c: Codec<T>, s: bytes, more: bytes)
    requires Canonical(c) && c.take(s).Got?
    ensures c.take(s + more) == Got(c.take(s).value, c.take(s).rest + more)
  {
    var v, rest := c.take(s).value, c.take(s).rest;
    assert c.put(v, rest + more) == c.put(v, rest) + more;
    assert c.take(c.put(v, rest + more)) == Got(v, rest + more);
  }

  lemma ShortStops<T(!new)>(c: Codec<T>, b: bytes, m: nat)
    requires Canonical(c) && c.take(b).Got? && m <= |b| && m < |b| - |c.take(b).rest|
    ensures c.take(b[..m]).Stop?
  {
    assert b[..m] + b[m..] == b;
    if c.take(b[..m]).Got? { LongerReads(c, b[..m], b[m..]); }
  }
}
