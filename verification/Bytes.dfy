/**
  Bytes, big-endian integers and the reading discipline shared by every decoder of
  the repository: take a number of bytes from the front, or stop.

  Writers are given in "prepend" form: `PutX(v, tail)` is the encoding of `v`
  followed by `tail`. A record is then written by nesting its fields, and reading
  it back peels the same nesting.
 */
module Bytes {

  type byte = b: int | 0 <= b < 0x100
  type bytes = seq<byte>
  type u8 = byte
  type u16 = n: int | 0 <= n < 0x1_0000
  type u32 = n: int | 0 <= n < 0x1_0000_0000
  type u64 = n: int | 0 <= n < 0x1_0000_0000_0000_0000

  const U64_MAX: u64 := 0xFFFF_FFFF_FFFF_FFFF

  datatype Option<+T> = None | Some(value: T)

  /** A read from the front of some bytes: it stops, or yields a value and what is left. */
  datatype Parse<+T, +E> = Stop(why: E) | Got(value: T, rest: bytes) {
    predicate IsFailure() { Stop? }

    function PropagateFailure<U>(): Parse<U, E>
      requires Stop?
    {
      Stop(why)
    }

    function Extract(): (T, bytes)
      requires Got?
    {
      (value, rest)
    }
  }

  // Big-endian integers.

  function N16(b: bytes): u16
    requires |b| == 2
  {
    var hi: int, lo: int := b[0], b[1];
    hi * 0x100 + lo
  }

  function N32(b: bytes): u32
    requires |b| == 4
  {
    var hi: int, lo: int := N16(b[..2]), N16(b[2..]);
    hi * 0x1_0000 + lo
  }

  function N64(b: bytes): u64
    requires |b| == 8
  {
    var hi: int, lo: int := N32(b[..4]), N32(b[4..]);
    hi * 0x1_0000_0000 + lo
  }

  function U16(n: u16): (b: bytes)
    ensures |b| == 2 && N16(b) == n
  {
    [n / 0x100, n % 0x100]
  }

  function U32(n: u32): (b: bytes)
    ensures |b| == 4 && N32(b) == n
  {
    var hi, lo := U16(n / 0x1_0000), U16(n % 0x1_0000);
    assert (hi + lo)[..2] == hi && (hi + lo)[2..] == lo;
    hi + lo
  }

  function U64(n: u64): (b: bytes)
    ensures |b| == 8 && N64(b) == n
  {
    var hi, lo := U32(n / 0x1_0000_0000), U32(n % 0x1_0000_0000);
    assert (hi + lo)[..4] == hi && (hi + lo)[4..] == lo;
    hi + lo
  }

  /** The two halves of a four-byte and of an eight-byte number. */
  lemma Halves(hi: int, lo: int)
    ensures 0 <= lo < 0x1_0000 ==> (hi * 0x1_0000 + lo) / 0x1_0000 == hi && (hi * 0x1_0000 + lo) % 0x1_0000 == lo
    ensures 0 <= lo < 0x1_0000_0000 ==>
              (hi * 0x1_0000_0000 + lo) / 0x1_0000_0000 == hi && (hi * 0x1_0000_0000 + lo) % 0x1_0000_0000 == lo
  {
  }

  lemma U16Canonical(b: bytes)
    requires |b| == 2
    ensures U16(N16(b)) == b
  {
  }

  lemma U32Canonical(b: bytes)
    requires |b| == 4
    ensures U32(N32(b)) == b
  {
    Halves(N16(b[..2]), N16(b[2..]));
    U16Canonical(b[..2]);
    U16Canonical(b[2..]);
    assert b == b[..2] + b[2..];
  }

  lemma U64Canonical(b: bytes)
    requires |b| == 8
    ensures U64(N64(b)) == b
  {
    Halves(N32(b[..4]), N32(b[4..]));
    U32Canonical(b[..4]);
    U32Canonical(b[4..]);
    assert b == b[..4] + b[4..];
  }

  // Reading.

  function Take<E>(b: bytes, n: nat, short: E): Parse<bytes, E> {
    if |b| < n then Stop(short) else Got(b[..n], b[n..])
  }

  function TakeU8<E>(b: bytes, short: E): Parse<u8, E> {
    if b == [] then Stop(short) else Got(b[0], b[1..])
  }

  function TakeU16<E>(b: bytes, short: E): Parse<u16, E> {
    var (x, rest) :- Take(b, 2, short);
    Got(N16(x), rest)
  }

  function TakeU32<E>(b: bytes, short: E): Parse<u32, E> {
    var (x, rest) :- Take(b, 4, short);
    Got(N32(x), rest)
  }

  function TakeU64<E>(b: bytes, short: E): Parse<u64, E> {
    var (x, rest) :- Take(b, 8, short);
    Got(N64(x), rest)
  }

  function TakeLp16<E>(b: bytes, short: E): Parse<bytes, E> {
    var (n, rest) :- TakeU16(b, short);
    Take(rest, n, short)
  }

  function TakeLp32<E>(b: bytes, short: E): Parse<bytes, E> {
    var (n, rest) :- TakeU32(b, short);
    Take(rest, n, short)
  }

  // Writing.

  function PutU32(n: u32, tail: bytes): bytes { U32(n) + tail }

  function PutU64(n: u64, tail: bytes): bytes { U64(n) + tail }

  predicate Fits32(x: bytes) { |x| < 0x1_0000_0000 }

  function PutLp16(x: bytes, tail: bytes): bytes
    requires |x| < 0x1_0000
  {
    U16(|x|) + (x + tail)
  }

  function PutLp32(x: bytes, tail: bytes): bytes
    requires Fits32(x)
  {
    U32(|x|) + (x + tail)
  }

  // Reading what was written.

  lemma TakeApp<E>(x: bytes, tail: bytes, short: E)
    ensures Take(x + tail, |x|, short) == Got(x, tail)
  {
    assert (x + tail)[..|x|] == x && (x + tail)[|x|..] == tail;
  }

  lemma TakeU8App<E>(x: byte, tail: bytes, short: E)
    ensures TakeU8([x] + tail, short) == Got(x, tail)
  {
    assert ([x] + tail)[1..] == tail;
  }

  lemma TakeU16App<E>(n: u16, tail: bytes, short: E)
    ensures TakeU16(U16(n) + tail, short) == Got(n, tail)
  {
    TakeApp(U16(n), tail, short);
  }

  lemma TakeU32App<E>(n: u32, tail: bytes, short: E)
    ensures TakeU32(PutU32(n, tail), short) == Got(n, tail)
  {
    TakeApp(U32(n), tail, short);
  }

  lemma TakeU64App<E>(n: u64, tail: bytes, short: E)
    ensures TakeU64(PutU64(n, tail), short) == Got(n, tail)
  {
    TakeApp(U64(n), tail, short);
  }

  lemma TakeLp16App<E>(x: bytes, tail: bytes, short: E)
    requires |x| < 0x1_0000
    ensures TakeLp16(PutLp16(x, tail), short) == Got(x, tail)
  {
    TakeU16App(|x|, x + tail, short);
    TakeApp(x, tail, short);
  }

  lemma TakeLp32App<E>(x: bytes, tail: bytes, short: E)
    requires Fits32(x)
    ensures TakeLp32(PutLp32(x, tail), short) == Got(x, tail)
  {
    TakeU32App(|x|, x + tail, short);
    TakeApp(x, tail, short);
  }

  // What was read is what was written: each read has one spelling.

  lemma TakeCanonical<E>(b: bytes, n: nat, short: E)
    ensures var r := Take(b, n, short); r.Got? ==> |r.value| == n && b == r.value + r.rest
  {
  }

  lemma TakeU8Canonical<E>(b: bytes, short: E)
    ensures var r := TakeU8(b, short); r.Got? ==> b == [r.value] + r.rest
  {
  }

  lemma TakeU16Canonical<E>(b: bytes, short: E)
    ensures var r := TakeU16(b, short); r.Got? ==> b == U16(r.value) + r.rest
  {
    if |b| >= 2 { U16Canonical(b[..2]); }
  }

  lemma TakeU32Canonical<E>(b: bytes, short: E)
    ensures var r := TakeU32(b, short); r.Got? ==> b == PutU32(r.value, r.rest)
  {
    if |b| >= 4 { U32Canonical(b[..4]); }
  }

  lemma TakeU64Canonical<E>(b: bytes, short: E)
    ensures var r := TakeU64(b, short); r.Got? ==> b == PutU64(r.value, r.rest)
  {
    if |b| >= 8 { U64Canonical(b[..8]); }
  }

  lemma TakeLp16Canonical<E>(b: bytes, short: E)
    ensures var r := TakeLp16(b, short); r.Got? ==> |r.value| < 0x1_0000 && b == PutLp16(r.value, r.rest)
  {
    TakeU16Canonical(b, short);
  }

  lemma TakeLp32Canonical<E>(b: bytes, short: E)
    ensures var r := TakeLp32(b, short); r.Got? ==> Fits32(r.value) && b == PutLp32(r.value, r.rest)
  {
    TakeU32Canonical(b, short);
  }

  /**
    A read that went through on `b` reads the same value from `b` followed by more
    bytes, and leaves those as well; and a read that stopped for a reason other than
    running short stops for that reason whatever follows.
   */
  ghost predicate Extends<T, E>(short: E, before: Parse<T, E>, after: Parse<T, E>, more: bytes) {
    && (before.Got? ==> after == Got(before.value, before.rest + more))
    && (before.Stop? && before.why != short ==> after == before)
  }

  lemma TakeExtends<E>(b: bytes, more: bytes, n: nat, short: E)
    ensures Extends(short, Take(b, n, short), Take(b + more, n, short), more)
  {
    if |b| >= n {
      assert (b + more)[..n] == b[..n] && (b + more)[n..] == b[n..] + more;
    }
  }

  lemma TakeU8Extends<E>(b: bytes, more: bytes, short: E)
    ensures Extends(short, TakeU8(b, short), TakeU8(b + more, short), more)
  {
    if b != [] { assert (b + more)[1..] == b[1..] + more; }
  }

  lemma TakeU16Extends<E>(b: bytes, more: bytes, short: E)
    ensures Extends(short, TakeU16(b, short), TakeU16(b + more, short), more)
  {
    TakeExtends(b, more, 2, short);
  }

  lemma TakeU32Extends<E>(b: bytes, more: bytes, short: E)
    ensures Extends(short, TakeU32(b, short), TakeU32(b + more, short), more)
  {
    TakeExtends(b, more, 4, short);
  }

  lemma TakeU64Extends<E>(b: bytes, more: bytes, short: E)
    ensures Extends(short, TakeU64(b, short), TakeU64(b + more, short), more)
  {
    TakeExtends(b, more, 8, short);
  }

  lemma TakeLp16Extends<E>(b: bytes, more: bytes, short: E)
    ensures Extends(short, TakeLp16(b, short), TakeLp16(b + more, short), more)
  {
    TakeU16Extends(b, more, short);
    var r := TakeU16(b, short);
    if r.Got? { TakeExtends(r.rest, more, r.value, short); }
  }

  lemma TakeLp32Extends<E>(b: bytes, more: bytes, short: E)
    ensures Extends(short, TakeLp32(b, short), TakeLp32(b + more, short), more)
  {
    TakeU32Extends(b, more, short);
    var r := TakeU32(b, short);
    if r.Got? { TakeExtends(r.rest, more, r.value, short); }
  }

  // A counted run of records, each with its own reader and writer.

  function PutMany<T>(xs: seq<T>, put: (T, bytes) --> bytes, tail: bytes): bytes
    requires forall x: T, t: bytes | x in xs :: put.requires(x, t)
  {
    if xs == [] then tail else put(xs[0], PutMany(xs[1..], put, tail))
  }

  function TakeMany<T, E>(b: bytes, n: nat, take: bytes -> Parse<T, E>): (r: Parse<seq<T>, E>)
    ensures r.Got? ==> |r.value| == n
    decreases n
  {
    if n == 0 then Got([], b)
    else
      var (x, rest) :- take(b);
      var (xs, rest') :- TakeMany(rest, n - 1, take);
      Got([x] + xs, rest')
  }

  /** Appending one record to a buffer and writing the others after it. */
  lemma AppendStep<T>(out: bytes, xs: seq<T>, i: nat, put: (T, bytes) -> bytes, tail: bytes)
    requires i < |xs|
    requires put(xs[i], PutMany(xs[i + 1..], put, tail)) == put(xs[i], []) + PutMany(xs[i + 1..], put, tail)
    ensures out + PutMany(xs[i..], put, tail) == out + put(xs[i], []) + PutMany(xs[i + 1..], put, tail)
  {
    assert xs[i..][1..] == xs[i + 1..];
  }

  lemma Assoc(a: bytes, b: bytes, c: bytes)
    ensures (a + b) + c == a + (b + c)
  {
  }

  lemma CountedAppends(n: u64, k: u32, x: bytes)
    ensures U64(n) + U32(k) + x == PutU64(n, PutU32(k, x))
  {
  }

  /** `take` reads back what `put` wrote, for the records in `ok`. */
  ghost predicate ReadsBack<T(!new), E>(put: (T, bytes) --> bytes, take: bytes -> Parse<T, E>, ok: T -> bool) {
    forall x: T, t: bytes | ok(x) :: put.requires(x, t) && take(put(x, t)) == Got(x, t)
  }

  /** `take` reads only what `put` writes for a record in `ok`. */
  ghost predicate OneSpelling<T(!new), E>(put: (T, bytes) --> bytes, take: bytes -> Parse<T, E>, ok: T -> bool) {
    forall b: bytes | take(b).Got? ::
      ok(take(b).value) && put.requires(take(b).value, take(b).rest) && b == put(take(b).value, take(b).rest)
  }

  ghost predicate ExtendsAll<T, E>(take: bytes -> Parse<T, E>, short: E) {
    forall b: bytes, more: bytes :: Extends(short, take(b), take(b + more), more)
  }

  lemma {:induction false} TakeManyReadsBack<T(!new), E>(xs: seq<T>, put: (T, bytes) --> bytes, take: bytes -> Parse<T,
        E>, ok: T -> bool, tail: bytes)
    requires forall x | x in xs :: ok(x)
    requires ReadsBack(put, take, ok)
    ensures forall x: T, t: bytes | x in xs :: put.requires(x, t)
    ensures TakeMany(PutMany(xs, put, tail), |xs|, take) == Got(xs, tail)
  {
    if xs != [] {
      TakeManyReadsBack(xs[1..], put, take, ok, tail);
      assert ok(xs[0]);
      var rest := PutMany(xs[1..], put, tail);
      assert take(put(xs[0], rest)) == Got(xs[0], rest);
      assert xs == [xs[0]] + xs[1..];
    }
  }

  lemma {:induction false} TakeManyOneSpelling<T(!new), E>(b: bytes, n: nat, put: (T, bytes) --> bytes,
        take: bytes -> Parse<T, E>, ok: T -> bool)
    requires OneSpelling(put, take, ok)
    requires forall x: T, t: bytes | ok(x) :: put.requires(x, t)
    ensures var r := TakeMany(b, n, take);
            r.Got? ==> (forall x | x in r.value :: ok(x)) && b == PutMany(r.value, put, r.rest)
    decreases n
  {
    if n != 0 && take(b).Got? {
      TakeManyOneSpelling(take(b).rest, n - 1, put, take, ok);
    }
  }

  lemma {:induction false} TakeManyExtends<T, E>(b: bytes, more: bytes, n: nat, take: bytes -> Parse<T, E>, short: E)
    requires ExtendsAll(take, short)
    ensures Extends(short, TakeMany(b, n, take), TakeMany(b + more, n, take), more)
    decreases n
  {
    if n != 0 {
      assert Extends(short, take(b), take(b + more), more);
      if take(b).Got? {
        TakeManyExtends(take(b).rest, more, n - 1, take, short);
      }
    }
  }

  /** What the first record with an error stops a reader with. */
  function FirstError<T, E>(xs: seq<T>, err: T -> Option<E>): Option<E> {
    if xs == [] then None else if err(xs[0]).Some? then err(xs[0]) else FirstError(xs[1..], err)
  }

  lemma {:induction false} NoError<T(!new), E>(xs: seq<T>, err: T -> Option<E>)
    ensures FirstError(xs, err).None? <==> forall x | x in xs :: err(x).None?
    decreases |xs|
  {
    if xs != [] {
      assert xs == [xs[0]] + xs[1..];
      NoError(xs[1..], err);
    }
  }

  /** A read that checks what it reads: the first record in error stops the run, and nothing else does. */
  ghost predicate Checks<T(!new), E>(put: (T, bytes) --> bytes, take: bytes -> Parse<T, E>, err: T -> Option<E>,
        ok: T -> bool) {
    forall x: T, t: bytes | ok(x) :: put.requires(x, t) && take(put(x, t)) == Unless(err(x), x, t)
  }

  /** A refusal if there is one, and the value otherwise. */
  function Unless<T, E>(e: Option<E>, value: T, rest: bytes): Parse<T, E> {
    if e.Some? then Stop(e.value) else Got(value, rest)
  }

  lemma {:induction false} TakeManyChecks<T(!new), E>(xs: seq<T>, put: (T, bytes) --> bytes, take: bytes -> Parse<T,
        E>, err: T -> Option<E>, ok: T -> bool, tail: bytes)
    requires Checks(put, take, err, ok) && forall x | x in xs :: ok(x)
    ensures forall x: T, t: bytes | x in xs :: put.requires(x, t)
    ensures TakeMany(PutMany(xs, put, tail), |xs|, take) == Unless(FirstError(xs, err), xs, tail)
    decreases |xs|
  {
    if xs != [] {
      assert xs == [xs[0]] + xs[1..];
      assert ok(xs[0]);
      TakeManyChecks(xs[1..], put, take, err, ok, tail);
      var rest := PutMany(xs[1..], put, tail);
      assert take(put(xs[0], rest)) == Unless(err(xs[0]), xs[0], rest);
    }
  }

  /** A proper prefix of something read to its end is only ever too short. */
  lemma PrefixIsShort<T, E>(take: bytes -> Parse<T, E>, short: E, b: bytes, n: nat)
    requires n < |b| && take(b).Got? && take(b).rest == []
    requires Extends(short, take(b[..n]), take(b[..n] + b[n..]), b[n..])
    ensures take(b[..n]) == Stop(short)
  {
    assert b[..n] + b[n..] == b;
  }
}
