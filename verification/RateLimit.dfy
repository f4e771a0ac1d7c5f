/**
  The sign-in limiter: a sliding window of failure times per key under a cap on keys,
  against a log that keeps every failure.

  Keys are the bytes of the strings the source uses.
 */
module RateLimit {
  import opened Bytes
  import opened Order

  const MAX_FAILURES := 5
  const WINDOW_SECS: u64 := 60
  const MAX_KEYS := 65536
  const TENANT_FLOOD_CEILING := 200

  type Failures = map<bytes, seq<u64>>

  function SaturatingAdd(a: u64, b: u64): u64 { if a + b > U64_MAX then U64_MAX else a + b }

  predicate Within(t: u64, now: u64) { SaturatingAdd(t, WINDOW_SECS) >= now }

  function CountWithin(ts: seq<u64>, now: u64): nat { Count(ts, t => Within(t, now)) }

  function Retained(ts: seq<u64>, now: u64): seq<u64> { Keep(ts, t => Within(t, now)) }

  function TimesOf(m: Failures, key: bytes): seq<u64> { if key in m then m[key] else [] }

  function Recent(m: Failures, key: bytes, now: u64): nat { CountWithin(TimesOf(m, key), now) }

  predicate Blocked(m: Failures, key: bytes, now: u64) { Recent(m, key, now) >= MAX_FAILURES }

  // Shedding.

  predicate AnyWithin(ts: seq<u64>, now: u64) { exists t | t in ts :: Within(t, now) }

  function Unexpired(m: Failures, now: u64): Failures { map k | k in m && AnyWithin(m[k], now) :: m[k] }

  function Newest(ts: seq<u64>): (n: u64)
    ensures forall t | t in ts :: t <= n
    ensures ts != [] ==> n in ts
  {
    if ts == [] then 0
    else
      var n := Newest(ts[..|ts| - 1]);
      assert ts == ts[..|ts| - 1] + [ts[|ts| - 1]];
      if |ts| > 1 && n > ts[|ts| - 1] then n else ts[|ts| - 1]
  }

  type Aged = (u64, bytes)

  predicate AgedLe(a: Aged, b: Aged) { a.0 < b.0 || (a.0 == b.0 && LexLe(a.1, b.1)) }

  function Age(m: Failures, k: bytes): Aged
    requires k in m
  {
    (Newest(m[k]), k)
  }

  /** `r` is `m` without the keys first in line for eviction: oldest newest failure, then key. */
  ghost predicate IsCapped(m: Failures, r: Failures) {
    && r.Keys <= m.Keys && (forall k | k in r :: r[k] == m[k])
    && |r| == (if |m| <= MAX_KEYS then |m| else MAX_KEYS)
    && forall j, k | j in m && j !in r && k in r :: AgedLe(Age(m, j), Age(m, k))
  }

  ghost function Capped(m: Failures): (r: Failures)
    ensures IsCapped(m, r)
  {
    CapExists(m);
    var r :| IsCapped(m, r);
    r
  }

  ghost function Shed(m: Failures, now: u64): Failures { Capped(Unexpired(m, now)) }

  function Pushed(m: Failures, key: bytes, now: u64): Failures { m[key := Retained(TimesOf(m, key), now) + [now]] }

  ghost function AfterFailure(m: Failures, key: bytes, now: u64): Failures { Shed(Pushed(m, key, now), now) }

  /** The keys the cap drops although they still have a failure within the window. */
  ghost function Evicted(m: Failures, key: bytes, now: u64): set<bytes> {
    Unexpired(Pushed(m, key, now), now).Keys - AfterFailure(m, key, now).Keys
  }

  // The order of eviction.

  lemma AgedIsAnOrder()
    ensures TotalOrder(AgedLe)
  {
    forall a: Aged, b: Aged ensures AgedLe(a, b) || AgedLe(b, a) { LexTotal(a.1, b.1); }
    forall a: Aged, b: Aged | AgedLe(a, b) && AgedLe(b, a) ensures a == b { LexAntisymmetric(a.1, b.1); }
    forall a: Aged, b: Aged, c: Aged | AgedLe(a, b) && AgedLe(b, c) ensures AgedLe(a, c) {
      if a.0 == b.0 == c.0 { LexTransitive(a.1, b.1, c.1); }
    }
  }

  /** Every key once, with its newest failure. */
  ghost predicate Lists(m: Failures, s: seq<Aged>) {
    && |s| == |m|
    && (forall i | 0 <= i < |s| :: s[i].1 in m && s[i] == Age(m, s[i].1))
    && (forall i, j | 0 <= i < j < |s| :: s[i].1 != s[j].1)
  }

  ghost function KeysIn(s: seq<Aged>): set<bytes> { if s == [] then {} else KeysIn(s[..|s| - 1]) + {s[|s| - 1].1} }

  ghost predicate Listed(s: seq<Aged>, k: bytes) { exists i | 0 <= i < |s| :: s[i].1 == k }

  lemma {:induction false} KeysInAre(s: seq<Aged>, k: bytes)
    ensures k in KeysIn(s) <==> Listed(s, k)
    decreases |s|
  {
    if s != [] {
      var front := s[..|s| - 1];
      KeysInAre(front, k);
      if Listed(front, k) { var i :| 0 <= i < |front| && front[i].1 == k; assert s[i].1 == k; }
      if Listed(s, k) && s[|s| - 1].1 != k { var i :| 0 <= i < |s| && s[i].1 == k; assert front[i].1 == k; }
    }
  }

  lemma {:induction false} KeysCount(s: seq<Aged>)
    requires forall i, j | 0 <= i < j < |s| :: s[i].1 != s[j].1
    ensures |KeysIn(s)| == |s|
    decreases |s|
  {
    if s != [] {
      KeysCount(s[..|s| - 1]);
      KeysInAre(s[..|s| - 1], s[|s| - 1].1);
    }
  }

  lemma ListsAll(m: Failures, s: seq<Aged>)
    requires Lists(m, s)
    ensures KeysIn(s) == m.Keys
  {
    KeysCount(s);
    forall k | k in KeysIn(s) ensures k in m { KeysInAre(s, k); }
    SameSizeSubset(KeysIn(s), m.Keys);
  }

  /** The sorted list of a map's keys. */
  ghost predicate Queue(m: Failures, s: seq<Aged>) { Lists(m, s) && Sorted(s, AgedLe) }

  lemma SortLists(m: Failures, s: seq<Aged>)
    requires Lists(m, s)
    ensures Queue(m, Sort(s, AgedLe))
  {
    var r := Sort(s, AgedLe);
    AgedIsAnOrder();
    SortStrict(s, AgedLe);
    StrictIsSorted(r, AgedLe);
    forall i | 0 <= i < |r| ensures r[i].1 in m && r[i] == Age(m, r[i].1) { SameElements(r, s, r[i]); }
    forall i, j | 0 <= i < j < |r| ensures r[i].1 != r[j].1 { assert !AgedLe(r[j], r[i]); }
  }

  lemma FirstKeys(s: seq<Aged>, n: nat, i: nat)
    requires n <= |s| && i < |s| && forall i, j | 0 <= i < j < |s| :: s[i].1 != s[j].1
    ensures s[i].1 in KeysIn(s[..n]) <==> i < n
  {
    var front := s[..n];
    KeysInAre(front, s[i].1);
    if i < n { assert front[i].1 == s[i].1; }
    if Listed(front, s[i].1) { var j :| 0 <= j < |front| && front[j].1 == s[i].1; }
  }

  lemma RemovedSize(m: Failures, gone: set<bytes>)
    requires gone <= m.Keys
    ensures |m - gone| == |m| - |gone|
  {
    MapSize(m);
    MapSize(m - gone);
    assert (m - gone).Keys == m.Keys - gone;
  }

  lemma KeyIndex(m: Failures, s: seq<Aged>, k: bytes) returns (i: nat)
    requires Lists(m, s) && k in m
    ensures i < |s| && s[i].1 == k
  {
    ListsAll(m, s);
    KeysInAre(s, k);
    i :| 0 <= i < |s| && s[i].1 == k;
  }

  lemma FirstAreOldest(m: Failures, s: seq<Aged>, n: nat, j: bytes, k: bytes)
    requires Queue(m, s) && n <= |s| && j in m && k in m && j in KeysIn(s[..n]) && k !in KeysIn(s[..n])
    ensures AgedLe(Age(m, j), Age(m, k))
  {
    var a := KeyIndex(m, s, j);
    var b := KeyIndex(m, s, k);
    FirstKeys(s, n, a);
    FirstKeys(s, n, b);
    assert AgedLe(s[a], s[b]);
  }

  /** Removing the first of the sorted list leaves what the cap keeps. */
  lemma CapFromList(m: Failures, s: seq<Aged>)
    requires Queue(m, s) && |m| > MAX_KEYS
    ensures IsCapped(m, m - KeysIn(s[..|m| - MAX_KEYS]))
  {
    var excess := |m| - MAX_KEYS;
    var gone := KeysIn(s[..excess]);
    KeysCount(s[..excess]);
    forall k | k in gone ensures k in m { KeysInAre(s[..excess], k); }
    RemovedSize(m, gone);
    forall j, k | j in m && j in gone && k in m && k !in gone ensures AgedLe(Age(m, j), Age(m, k)) {
      FirstAreOldest(m, s, excess, j, k);
    }
  }

  lemma CapExists(m: Failures)
    ensures exists r :: IsCapped(m, r)
  {
    if |m| <= MAX_KEYS {
      assert IsCapped(m, m);
    } else {
      var l := SomeList(m);
      SortLists(m, l);
      CapFromList(m, Sort(l, AgedLe));
    }
  }

  lemma SomeoneElse(a: set<bytes>, b: set<bytes>, k: bytes) returns (j: bytes)
    requires |a| == |b| && k in a && k !in b
    ensures j in b && j !in a
  {
    if b <= a {
      SameSizeSubset(b, a);
      assert false;
    }
    j :| j in b && j !in a;
  }

  lemma CapsAgree(m: Failures, r: Failures, r': Failures, k: bytes)
    requires IsCapped(m, r) && IsCapped(m, r') && |r.Keys| == |r'.Keys|
    ensures k in r ==> k in r'
  {
    if k in r && k !in r' {
      AgedIsAnOrder();
      var j := SomeoneElse(r.Keys, r'.Keys, k);
      assert false;
    }
  }

  /** The order of eviction leaves no choice. */
  lemma CapUnique(m: Failures, r: Failures, r': Failures)
    requires IsCapped(m, r) && IsCapped(m, r')
    ensures r == r'
  {
    MapSize(r);
    MapSize(r');
    forall k ensures k in r <==> k in r' {
      CapsAgree(m, r, r', k);
      CapsAgree(m, r', r, k);
    }
    assert r.Keys == r'.Keys;
  }

  lemma {:induction false} SomeList(m: Failures) returns (s: seq<Aged>)
    ensures Lists(m, s)
    decreases |m|
  {
    s := [];
    if m != map[] {
      var k :| k in m;
      var rest := m - {k};
      MapSize(m);
      MapSize(rest);
      assert rest.Keys == m.Keys - {k};
      s := SomeList(rest);
      s := s + [Age(m, k)];
    }
  }

  // The limiter.

  class RateLimiter {
    var failures: Failures

    constructor ()
      ensures failures == map[]
    {
      failures := map[];
    }

    method IsBlocked(key: bytes, now: u64) returns (r: bool)
      ensures r <==> Blocked(failures, key, now)
    {
      if key !in failures { return false; }
      r := CountWithin(failures[key], now) >= MAX_FAILURES;
    }

    method RecordFailure(key: bytes, now: u64)
      modifies this
      ensures failures == AfterFailure(old(failures), key, now)
    {
      var entry := if key in failures then failures[key] else [];
      entry := Retained(entry, now);
      entry := entry + [now];
      failures := failures[key := entry];
      ShedOld(now);
    }

    /** No key is left whose failures have all aged out, and every other one stays unless the cap is reached. */
    method ShedOld(now: u64)
      modifies this
      ensures forall k | k in failures :: k in old(failures) && exists t | t in failures[k] :: now <= t + 60
      ensures forall k, t | k in old(failures) && t in old(failures)[k] && now <= t + 60 ::
                k in failures || |failures| == 65536
      ensures failures == Shed(old(failures), now)
    {
      failures := Unexpired(failures, now);
      ghost var unexpired := failures;
      failures := EvictOldest(failures);
      forall k, t | k in old(failures) && t in old(failures)[k] && now <= t + 60
        ensures k in failures || |failures| == 65536
      {
        assert Within(t, now) && k in unexpired;
        if |unexpired| <= MAX_KEYS { CapUnique(unexpired, unexpired, failures); }
      }
    }

    /** The key is no longer blocked at any time, and no other key is touched. */
    method RecordSuccess(key: bytes)
      modifies this
      ensures forall now: u64 :: !Blocked(failures, key, now)
      ensures forall k | k != key :: TimesOf(failures, k) == old(TimesOf(failures, k))
      ensures failures == old(failures) - {key}
    {
      failures := failures - {key};
    }
  }

  lemma RemoveMore(m: Failures, gone: set<bytes>, k: bytes)
    ensures (m - gone) - {k} == m - (gone + {k})
  {
  }

  method EvictOldest(m: Failures) returns (r: Failures)
    ensures r == Capped(m)
  {
    if |m| <= MAX_KEYS {
      CapUnique(m, m, Capped(m));
      return m;
    }
    var newest := ListKeys(m);
    SortLists(m, newest);
    newest := Sort(newest, AgedLe);
    var excess := |m| - MAX_KEYS;
    r := m;
    for i := 0 to excess
      invariant r == m - KeysIn(newest[..i])
    {
      assert newest[..i + 1][..i] == newest[..i];
      RemoveMore(m, KeysIn(newest[..i]), newest[i].1);
      r := r - {newest[i].1};
    }
    CapFromList(m, newest);
    CapUnique(m, r, Capped(m));
  }

  method ListKeys(m: Failures) returns (s: seq<Aged>)
    ensures Lists(m, s)
  {
    s := [];
    var left := m.Keys;
    MapSize(m);
    while left != {}
      invariant left <= m.Keys && |s| == |m| - |left|
      invariant forall i | 0 <= i < |s| :: s[i].1 in m && s[i].1 !in left && s[i] == Age(m, s[i].1)
      invariant forall i, j | 0 <= i < j < |s| :: s[i].1 != s[j].1
      decreases |left|
    {
      var k :| k in left;
      s := s + [Age(m, k)];
      left := left - {k};
    }
  }

  // Whole runs, against a log of every failure since its key was last cleared.

  datatype Failure = Failure(key: bytes, now: u64)

  datatype World = World(failures: Failures, log: seq<Failure>, evicted: set<bytes>)

  /** A failure for the key not more than sixty seconds before `now`. */
  function CountedAt(key: bytes, now: u64): Failure -> bool { (f: Failure) => f.key == key && now <= f.now + 60 }

  function NotOf(key: bytes): Failure -> bool { (f: Failure) => f.key != key }

  function LogCount(log: seq<Failure>, key: bytes, now: u64): nat {
    Count(log, CountedAt(key, now))
  }

  ghost function ApplyFailure(w: World, key: bytes, now: u64): World {
    World(AfterFailure(w.failures, key, now), w.log + [Failure(key, now)], w.evicted + Evicted(w.failures, key, now))
  }

  ghost function ApplySuccess(w: World, key: bytes): World {
    World(w.failures - {key}, Keep(w.log, NotOf(key)), w.evicted - {key})
  }

  /** The limiter counts nothing the log does not hold. */
  ghost predicate NoMore(w: World) {
    forall key: bytes, now: u64 :: Recent(w.failures, key, now) <= LogCount(w.log, key, now)
  }

  /** From `clock` on, it counts everything the log holds for a key that was not evicted. */
  ghost predicate NoLess(w: World, clock: u64) {
    forall key: bytes, now: u64 | key !in w.evicted && now >= clock ::
      LogCount(w.log, key, now) <= Recent(w.failures, key, now)
  }

  lemma {:induction false} RetainedCount(ts: seq<u64>, at: u64, now: u64)
    ensures CountWithin(Retained(ts, at), now) <= CountWithin(ts, now)
    ensures now >= at ==> CountWithin(Retained(ts, at), now) == CountWithin(ts, now)
    decreases |ts|
  {
    if ts != [] {
      var front, last := ts[..|ts| - 1], ts[|ts| - 1];
      RetainedCount(front, at, now);
      assert Within(last, at) ==> Retained(ts, at) == Retained(front, at) + [last];
    }
  }

  lemma {:induction false} NoneWithin(ts: seq<u64>, at: u64, now: u64)
    requires !AnyWithin(ts, at) && now >= at
    ensures CountWithin(ts, now) == 0
    decreases |ts|
  {
    if ts != [] {
      var front := ts[..|ts| - 1];
      assert forall t | t in front :: t in ts;
      NoneWithin(front, at, now);
      assert ts[|ts| - 1] in ts;
    }
  }

  lemma PushedCount(m: Failures, key: bytes, at: u64, k: bytes, now: u64)
    ensures var pushed := Recent(Pushed(m, key, at), k, now);
            var one := if k == key && Within(at, now) then 1 else 0;
            && pushed <= Recent(m, k, now) + one
            && (now >= at ==> pushed == Recent(m, k, now) + one)
  {
    if k == key {
      var kept := Retained(TimesOf(m, key), at);
      RetainedCount(TimesOf(m, key), at, now);
      CountAppends(kept, [at], t => Within(t, now));
      CountOne(at, t => Within(t, now));
    }
  }

  lemma LogPushed(log: seq<Failure>, key: bytes, at: u64, k: bytes, now: u64)
    ensures LogCount(log + [Failure(key, at)], k, now) == LogCount(log, k, now) + if k == key && Within(at, now) then 1
            else 0
  {
    CountAppends(log, [Failure(key, at)], CountedAt(k, now));
    CountOne(Failure(key, at), CountedAt(k, now));
  }

  lemma ShedCount(m: Failures, at: u64, k: bytes, now: u64)
    ensures var shed := Capped(Unexpired(m, at));
            && Recent(shed, k, now) <= Recent(m, k, now)
            && (now >= at && (k in shed || k !in Unexpired(m, at)) ==> Recent(shed, k, now) == Recent(m, k, now))
  {
    if k in m && k !in Unexpired(m, at) && now >= at { NoneWithin(m[k], at, now); }
  }

  /** From then on a failure counts once for its key, and every key that is not evicted keeps its count. */
  lemma FailureCounts(m: Failures, key: bytes, at: u64, k: bytes, now: u64)
    requires at <= now && k !in Evicted(m, key, at)
    ensures Recent(AfterFailure(m, key, at), k, now) == Recent(m, k, now) + if k == key && Within(at, now) then 1 else 0
  {
    PushedCount(m, key, at, k, now);
    ShedCount(Pushed(m, key, at), at, k, now);
  }

  lemma FailureKeeps(w: World, key: bytes, at: u64, clock: u64)
    requires NoMore(w)
    ensures NoMore(ApplyFailure(w, key, at))
    ensures NoLess(w, clock) && clock <= at ==> NoLess(ApplyFailure(w, key, at), at)
  {
    var w', m := ApplyFailure(w, key, at), Pushed(w.failures, key, at);
    forall k: bytes, now: u64
      ensures Recent(w'.failures, k, now) <= LogCount(w'.log, k, now)
      ensures NoLess(w, clock) && clock <= at <= now && k !in w'.evicted ==>
              LogCount(w'.log, k, now) <= Recent(w'.failures, k, now)
    {
      PushedCount(w.failures, key, at, k, now);
      LogPushed(w.log, key, at, k, now);
      ShedCount(m, at, k, now);
      assert Recent(w.failures, k, now) <= LogCount(w.log, k, now);
    }
  }

  lemma {:induction false} ClearedCount(log: seq<Failure>, key: bytes, k: bytes, now: u64)
    ensures LogCount(Keep(log, NotOf(key)), k, now) == if k == key then 0 else LogCount(log, k, now)
    decreases |log|
  {
    if log != [] {
      var front, last := log[..|log| - 1], log[|log| - 1];
      var kept := Keep(front, NotOf(key));
      ClearedCount(front, key, k, now);
      CountAppends(kept, [last], CountedAt(k, now));
      CountOne(last, CountedAt(k, now));
    }
  }

  lemma SuccessKeeps(w: World, key: bytes, clock: u64)
    requires NoMore(w)
    ensures NoMore(ApplySuccess(w, key))
    ensures NoLess(w, clock) ==> NoLess(ApplySuccess(w, key), clock)
  {
    var w' := ApplySuccess(w, key);
    forall k: bytes, now: u64
      ensures Recent(w'.failures, k, now) == if k == key then 0 else Recent(w.failures, k, now)
      ensures LogCount(w'.log, k, now) == if k == key then 0 else LogCount(w.log, k, now)
    {
      ClearedCount(w.log, key, k, now);
    }
  }

  datatype Step = Fail(key: bytes, now: u64) | Clear(key: bytes)

  ghost function Apply(w: World, step: Step): World {
    match step
    case Fail(key, now) => ApplyFailure(w, key, now)
    case Clear(key) => ApplySuccess(w, key)
  }

  ghost function Run(steps: seq<Step>): World
    decreases |steps|
  {
    if steps == [] then World(map[], [], {}) else Apply(Run(steps[..|steps| - 1]), steps[|steps| - 1])
  }

  /** The latest time a step was given, and whether the times never went back. */
  ghost function Clock(steps: seq<Step>): u64
    decreases |steps|
  {
    if steps == [] then 0
    else if steps[|steps| - 1].Fail? then steps[|steps| - 1].now
    else Clock(steps[..|steps| - 1])
  }

  ghost predicate Forward(steps: seq<Step>)
    decreases |steps|
  {
    steps == [] || (Forward(steps[..|steps| - 1]) && Clock(steps[..|steps| - 1]) <= Clock(steps))
  }

  lemma {:induction false} RunKeeps(steps: seq<Step>)
    ensures NoMore(Run(steps)) && (Forward(steps) ==> NoLess(Run(steps), Clock(steps)))
    ensures |Run(steps).failures| <= MAX_KEYS
    decreases |steps|
  {
    if steps != [] {
      var init, step := steps[..|steps| - 1], steps[|steps| - 1];
      RunKeeps(init);
      match step
      case Fail(key, now) => FailureKeeps(Run(init), key, now, Clock(init));
      case Clear(key) =>
        SuccessKeeps(Run(init), key, Clock(init));
        RemovedFits(Run(init).failures, key);
    }
  }

  lemma RemovedFits(m: Failures, key: bytes)
    ensures |m - {key}| <= |m|
  {
    MapSize(m);
    MapSize(m - {key});
    if key in m { assert (m - {key}).Keys == m.Keys - {key}; } else { assert m - {key} == m; }
  }

  /**
    The limiter refines the log. Under any clock it never blocks a key the log would not
    block; under a clock that does not go back it blocks exactly those, but for keys the
    cap evicted; and it never holds more keys than the cap.
   */
  lemma RefinesTheLog(steps: seq<Step>, key: bytes, now: u64)
    ensures var w := Run(steps);
            && (Blocked(w.failures, key, now) ==> LogCount(w.log, key, now) >= 5)
            && (Forward(steps) && Clock(steps) <= now && key !in w.evicted ==>
                  (Blocked(w.failures, key, now) <==> LogCount(w.log, key, now) >= 5))
            && |w.failures| <= 65536
  {
    RunKeeps(steps);
    assert Recent(Run(steps).failures, key, now) <= LogCount(Run(steps).log, key, now);
  }

  /** A key the cap evicts has no newer failure than any key it keeps. */
  lemma EvictsTheOldest(w: World, key: bytes, now: u64, gone: bytes, kept: bytes)
    requires gone in Unexpired(Pushed(w.failures, key, now), now) && gone !in ApplyFailure(w, key, now).failures
    requires kept in ApplyFailure(w, key, now).failures
    ensures var m := Pushed(w.failures, key, now);
            gone in m && Newest(m[gone]) <= Newest(ApplyFailure(w, key, now).failures[kept])
    ensures gone in ApplyFailure(w, key, now).evicted && |ApplyFailure(w, key, now).failures| == MAX_KEYS
  {
    var m := Unexpired(Pushed(w.failures, key, now), now);
    assert AgedLe(Age(m, gone), Age(m, kept));
    MapSize(m);
    MapSize(Capped(m));
    if |m| <= MAX_KEYS { SameSizeSubset(Capped(m).Keys, m.Keys); }
  }
}
