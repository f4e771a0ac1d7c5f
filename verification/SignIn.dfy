/**
  Sign-in under the limiter: which attempts reach the credential check, and how many
  failing checks any minute can hold for an identifier and for a tenant.

  Whether a check would succeed is part of the attempt; identifiers are given as the
  source normalises them.
 */
module SignIn {
  import opened Bytes
  import opened Order
  import opened RateLimit

  function TenantPrefix(tenant: bytes): bytes { tenant + [0] }

  function KeyFor(tenant: bytes, identifier: bytes): bytes { tenant + [0] + identifier }

  function FirstZero(b: bytes): nat { if b == [] || b[0] == 0 then 0 else 1 + FirstZero(b[1..]) }

  lemma {:induction false} ZeroEndsTenant(tenant: bytes, rest: bytes)
    requires 0 !in tenant
    ensures FirstZero(tenant + [0] + rest) == |tenant|
  {
    var b := tenant + [0] + rest;
    if tenant != [] {
      assert b[0] == tenant[0] && tenant[0] in tenant;
      assert b[1..] == tenant[1..] + [0] + rest;
      ZeroEndsTenant(tenant[1..], rest);
    }
  }

  /** A tenant's prefix reaches its own keys and no other tenant's. */
  lemma PrefixIsolates(tenant: bytes, other: bytes, identifier: bytes)
    requires 0 !in tenant && 0 !in other
    ensures TenantPrefix(tenant) <= KeyFor(other, identifier) <==> tenant == other
  {
    var key := KeyFor(other, identifier);
    ZeroEndsTenant(other, identifier);
    if TenantPrefix(tenant) <= key {
      ZeroEndsTenant(tenant, key[|tenant| + 1..]);
      assert key == TenantPrefix(tenant) + key[|tenant| + 1..];
      assert tenant == key[..|tenant|] && other == key[..|other|];
    }
  }

  lemma KeysTell(tenant: bytes, identifier: bytes, other: bytes, identifier': bytes)
    requires 0 !in tenant && 0 !in other && KeyFor(tenant, identifier) == KeyFor(other, identifier')
    ensures tenant == other && identifier == identifier'
  {
    assert TenantPrefix(tenant) <= KeyFor(tenant, identifier);
    PrefixIsolates(tenant, other, identifier');
    assert KeyFor(tenant, identifier)[|tenant| + 1..] == identifier;
    assert KeyFor(other, identifier')[|tenant| + 1..] == identifier';
  }

  // The flood count.

  ghost function Total(m: Failures, keys: set<bytes>, now: u64): nat {
    if keys == {} then 0
    else
      var k :| k in keys;
      Recent(m, k, now) + Total(m, keys - {k}, now)
  }

  lemma {:induction false} TotalPick(m: Failures, keys: set<bytes>, k: bytes, now: u64)
    requires k in keys
    ensures Total(m, keys, now) == Recent(m, k, now) + Total(m, keys - {k}, now)
    decreases |keys|
  {
    var first :| first in keys && Total(m, keys, now) == Recent(m, first, now) + Total(m, keys - {first}, now);
    if first != k {
      TotalPick(m, keys - {first}, k, now);
      TotalPick(m, keys - {k}, first, now);
      assert keys - {first} - {k} == keys - {k} - {first};
    }
  }

  function TenantKeys(m: Failures, prefix: bytes): set<bytes> { set k | k in m && prefix <= k }

  ghost predicate Flooded(m: Failures, prefix: bytes, now: u64) {
    Total(m, TenantKeys(m, prefix), now) >= TENANT_FLOOD_CEILING
  }

  method TenantIsFlooded(m: Failures, prefix: bytes, now: u64) returns (r: bool)
    ensures r <==> Flooded(m, prefix, now)
  {
    var keys, count := TenantKeys(m, prefix), 0;
    while keys != {}
      invariant keys <= TenantKeys(m, prefix)
      invariant count + Total(m, keys, now) == Total(m, TenantKeys(m, prefix), now)
      decreases |keys|
    {
      var k :| k in keys;
      TotalPick(m, keys, k, now);
      count := count + CountWithin(m[k], now);
      keys := keys - {k};
    }
    return count >= TENANT_FLOOD_CEILING;
  }

  // Attempts.

  datatype Attempt = Attempt(now: u64, tenant: bytes, identifier: bytes, succeeds: bool)

  datatype Outcome = RateLimited | SignedIn | Wrong

  class Accounts {
    const limiter: RateLimiter

    constructor ()
      ensures fresh(limiter) && limiter.failures == map[]
    {
      limiter := new RateLimiter();
    }

    /** A blocked identifier leaves no trace; a flood is recorded but not checked; a success clears. */
    method SignInAt(a: Attempt) returns (r: Outcome)
      modifies limiter
      ensures r.SignedIn? ==> a.succeeds
      ensures r.Wrong? ==> !a.succeeds
      ensures var key, m := KeyFor(a.tenant, a.identifier), old(limiter.failures);
              && (r.RateLimited? <==> Blocked(m, key, a.now) || Flooded(m, TenantPrefix(a.tenant), a.now))
              && (Blocked(m, key, a.now) ==> limiter.failures == m)
              && (r.SignedIn? ==> limiter.failures == m - {key})
              && (!r.SignedIn? && !Blocked(m, key, a.now) ==> limiter.failures == AfterFailure(m, key, a.now))
      ensures forall d: Desk | d.failures == old(limiter.failures) :: Follows(d, a, r, limiter.failures)
    {
      var key := KeyFor(a.tenant, a.identifier);
      var blocked := limiter.IsBlocked(key, a.now);
      if blocked { return RateLimited; }
      var flooded := TenantIsFlooded(limiter.failures, TenantPrefix(a.tenant), a.now);
      if flooded {
        limiter.RecordFailure(key, a.now);
        return RateLimited;
      }
      if a.succeeds {
        limiter.RecordSuccess(key);
        return SignedIn;
      }
      limiter.RecordFailure(key, a.now);
      return Wrong;
    }
  }

  /**
    A call did what the machine's step does: the limiter is the step's, no check ran exactly
    when the call was refused, and otherwise the check is the one the call reports.
   */
  ghost predicate Follows(d: Desk, a: Attempt, r: Outcome, failures: Failures) {
    var d' := Apply(d, a);
    && failures == d'.failures
    && (r.RateLimited? <==> d'.checks == d.checks)
    && (!r.RateLimited? ==> d'.checks == d.checks + [Check(KeyFor(a.tenant, a.identifier), a.now, r.SignedIn?)])
  }

  /** A credential check that ran. */
  datatype Check = Check(key: bytes, now: u64, ok: bool)

  /** What the cap dropped when a failure was recorded. */
  datatype Eviction = Eviction(keys: set<bytes>, now: u64)

  datatype Desk = Desk(failures: Failures, checks: seq<Check>, evictions: seq<Eviction>)

  ghost function Recorded(d: Desk, key: bytes, now: u64): Desk {
    d.(failures := AfterFailure(d.failures, key, now),
       evictions := d.evictions + [Eviction(Evicted(d.failures, key, now), now)])
  }

  ghost function Apply(d: Desk, a: Attempt): Desk {
    var key := KeyFor(a.tenant, a.identifier);
    if Blocked(d.failures, key, a.now) then d
    else if Flooded(d.failures, TenantPrefix(a.tenant), a.now) then Recorded(d, key, a.now)
    else if a.succeeds then d.(failures := d.failures - {key}, checks := d.checks + [Check(key, a.now, true)])
    else Recorded(d, key, a.now).(checks := d.checks + [Check(key, a.now, false)])
  }

  ghost function Run(attempts: seq<Attempt>): Desk
    decreases |attempts|
  {
    if attempts == [] then Desk(map[], [], []) else Apply(Run(attempts[..|attempts| - 1]), attempts[|attempts| - 1])
  }

  // Under any clock.

  ghost predicate AtMostFive(m: Failures) { forall k | k in m :: |m[k]| <= 5 }

  lemma {:induction false} RetainedLength(ts: seq<u64>, now: u64)
    ensures |Retained(ts, now)| == CountWithin(ts, now)
    decreases |ts|
  {
    if ts != [] { RetainedLength(ts[..|ts| - 1], now); }
  }

  lemma FailureIsBounded(m: Failures, key: bytes, now: u64)
    requires AtMostFive(m) && !Blocked(m, key, now)
    ensures AtMostFive(AfterFailure(m, key, now))
  {
    RetainedLength(TimesOf(m, key), now);
  }

  /** However the clock moves, no key ever holds more than five times. */
  lemma {:induction false} NoKeyHoldsMoreThanFive(attempts: seq<Attempt>)
    ensures AtMostFive(Run(attempts).failures)
    decreases |attempts|
  {
    if attempts != [] {
      var init, a := attempts[..|attempts| - 1], attempts[|attempts| - 1];
      NoKeyHoldsMoreThanFive(init);
      var d, key := Run(init), KeyFor(a.tenant, a.identifier);
      if !Blocked(d.failures, key, a.now) { FailureIsBounded(d.failures, key, a.now); }
    }
  }

  // Under a clock that does not go back.

  function Clock(attempts: seq<Attempt>): u64 { if attempts == [] then 0 else attempts[|attempts| - 1].now }

  ghost predicate Forward(attempts: seq<Attempt>) {
    forall i, j | 0 <= i < j < |attempts| :: attempts[i].now <= attempts[j].now
  }

  /** The closed minute that starts at `from`. */
  predicate InWindow(t: u64, from: u64) { from <= t <= from + 60 }

  function FailingIn(mine: bytes -> bool, from: u64): Check -> bool {
    (c: Check) => !c.ok && mine(c.key) && InWindow(c.now, from)
  }

  /** The failing checks of `mine` in the closed minute that starts at `from`. */
  function WindowCount(checks: seq<Check>, mine: bytes -> bool, from: u64): nat { Count(checks, FailingIn(mine, from)) }

  /** In that minute nothing of `mine` was cleared by a success or evicted. Before and after, anything may happen. */
  ghost predicate Undisturbed(d: Desk, mine: bytes -> bool, from: u64) {
    && (forall i | 0 <= i < |d.checks| && mine(d.checks[i].key) && InWindow(d.checks[i].now, from) :: !d.checks[i].ok)
    && (forall i, k | 0 <= i < |d.evictions| && InWindow(d.evictions[i].now, from) && k in d.evictions[i].keys ::
      !mine(k))
  }

  function FailedSince(k: bytes, from: u64, now: u64): Check -> bool {
    (c: Check) => !c.ok && c.key == k && from <= c.now && Within(c.now, now)
  }

  /** The failing checks for a key since `from` that still count at `now`. */
  function Since(checks: seq<Check>, k: bytes, from: u64, now: u64): nat { Count(checks, FailedSince(k, from, now)) }

  /** The limiter counts every failing check for `mine` since `from`. */
  ghost predicate Held(d: Desk, mine: bytes -> bool, from: u64, clock: u64) {
    forall k: bytes, now: u64 | mine(k) && clock <= now :: Since(d.checks, k, from, now) <= Recent(d.failures, k, now)
  }

  ghost predicate Until(checks: seq<Check>, clock: u64) { forall i | 0 <= i < |checks| :: checks[i].now <= clock }

  /** Up to the end of the minute the limiter counts what it must, and the minute holds no more than the limit. */
  ghost predicate Watched(d: Desk, mine: bytes -> bool, limit: nat, from: u64, clock: u64) {
    && Until(d.checks, clock)
    && (clock <= from + 60 ==> Held(d, mine, from, clock))
    && WindowCount(d.checks, mine, from) <= limit
  }

  lemma CheckedOne(checks: seq<Check>, c: Check, p: Check -> bool)
    ensures Count(checks + [c], p) == Count(checks, p) + if p(c) then 1 else 0
  {
    CountAppends(checks, [c], p);
    CountOne(c, p);
  }

  lemma {:induction false} NoneCounted<T>(xs: seq<T>, p: T -> bool)
    requires forall i | 0 <= i < |xs| :: !p(xs[i])
    ensures Count(xs, p) == 0
    decreases |xs|
  {
    if xs != [] { NoneCounted(xs[..|xs| - 1], p); }
  }

  lemma {:induction false} SomeCounted<T>(xs: seq<T>, i: nat, p: T -> bool)
    requires i < |xs| && p(xs[i])
    ensures Count(xs, p) > 0
    decreases |xs|
  {
    if i < |xs| - 1 { SomeCounted(xs[..|xs| - 1], i, p); }
  }

  /** Before the minute begins there is nothing to count. */
  lemma EarlyIsHeld(d: Desk, mine: bytes -> bool, from: u64, clock: u64)
    requires Until(d.checks, clock) && clock < from
    ensures Held(d, mine, from, clock)
  {
    forall k: bytes, now: u64 ensures Since(d.checks, k, from, now) == 0
    {
      NoneCounted(d.checks, FailedSince(k, from, now));
    }
  }

  /** A recorded failure, and the check that failed if one ran. */
  lemma FailureHolds(d: Desk, mine: bytes -> bool, from: u64, clock: u64, key: bytes, at: u64, checks: seq<Check>)
    requires Held(d, mine, from, clock) && clock <= at && forall k | k in Evicted(d.failures, key, at) :: !mine(k)
    requires checks == d.checks || checks == d.checks + [Check(key, at, false)]
    ensures Held(Recorded(d, key, at).(checks := checks), mine, from, at)
  {
    var m := AfterFailure(d.failures, key, at);
    forall k: bytes, now: u64 | mine(k) && at <= now ensures Since(checks, k, from, now) <= Recent(m, k, now) {
      FailureCounts(d.failures, key, at, k, now);
      CheckedOne(d.checks, Check(key, at, false), FailedSince(k, from, now));
      assert Since(d.checks, k, from, now) <= Recent(d.failures, k, now);
    }
  }

  lemma SuccessHolds(d: Desk, mine: bytes -> bool, from: u64, clock: u64, key: bytes, at: u64)
    requires Held(d, mine, from, clock) && clock <= at && !mine(key)
    ensures Held(d.(failures := d.failures - {key}, checks := d.checks + [Check(key, at, true)]), mine, from, at)
  {
    forall k: bytes, now: u64 | mine(k) && at <= now
      ensures Since(d.checks + [Check(key, at, true)], k, from, now) <= Recent(d.failures - {key}, k, now)
    {
      CheckedOne(d.checks, Check(key, at, true), FailedSince(k, from, now));
      assert Since(d.checks, k, from, now) <= Recent(d.failures, k, now);
    }
  }

  /** What was undisturbed after an attempt was undisturbed before it. */
  lemma UndisturbedBefore(d: Desk, a: Attempt, mine: bytes -> bool, from: u64)
    requires Undisturbed(Apply(d, a), mine, from)
    ensures Undisturbed(d, mine, from)
  {
    var d' := Apply(d, a);
    forall i | 0 <= i < |d.checks| && mine(d.checks[i].key) && InWindow(d.checks[i].now, from) ensures !d.checks[i].ok {
      assert d'.checks[i] == d.checks[i];
    }
    forall i, k | 0 <= i < |d.evictions| && InWindow(d.evictions[i].now, from) && k in d.evictions[i].keys
      ensures !mine(k) {
      assert d'.evictions[i] == d.evictions[i];
    }
  }

  /** One attempt: what the limiter counts stays right up to the end of the minute. */
  lemma AttemptHolds(d: Desk, a: Attempt, mine: bytes -> bool, from: u64, clock: u64)
    requires Until(d.checks, clock) && Held(d, mine, from, clock) && clock <= a.now <= from + 60
    requires Undisturbed(Apply(d, a), mine, from)
    ensures Until(Apply(d, a).checks, a.now) && Held(Apply(d, a), mine, from, a.now)
  {
    var d', key := Apply(d, a), KeyFor(a.tenant, a.identifier);
    if a.now < from {
      EarlyIsHeld(d', mine, from, a.now);
    } else if Blocked(d.failures, key, a.now) {
    } else if !Flooded(d.failures, TenantPrefix(a.tenant), a.now) && a.succeeds {
      assert d'.checks[|d.checks|] == Check(key, a.now, true);
      SuccessHolds(d, mine, from, clock, key, a.now);
    } else {
      assert d'.evictions[|d.evictions|] == Eviction(Evicted(d.failures, key, a.now), a.now);
      FailureHolds(d, mine, from, clock, key, a.now, d'.checks);
    }
  }

  /** The limiter is exact for `mine` and is about to let a check for one of them run within the minute. */
  ghost predicate Guarded(d: Desk, a: Attempt, mine: bytes -> bool, own: Attempt -> bool, from: u64) {
    && Held(d, mine, from, a.now) && Until(d.checks, a.now) && InWindow(a.now, from)
    && mine(KeyFor(a.tenant, a.identifier)) && own(a)
    && !Blocked(d.failures, KeyFor(a.tenant, a.identifier), a.now)
    && !Flooded(d.failures, TenantPrefix(a.tenant), a.now)
  }

  /** The limiter lets a check for `mine` run only while the minute is below `limit`. */
  ghost predicate Guards(mine: bytes -> bool, own: Attempt -> bool, limit: nat, from: u64) {
    forall d: Desk, a: Attempt | Guarded(d, a, mine, own, from) :: WindowCount(d.checks, mine, from) < limit
  }

  lemma AttemptKeeps(d: Desk, a: Attempt, mine: bytes -> bool, own: Attempt -> bool, limit: nat, from: u64, clock: u64)
    requires Guards(mine, own, limit, from) && clock <= a.now && Undisturbed(Apply(d, a), mine, from)
    requires Watched(d, mine, limit, from, clock) && (mine(KeyFor(a.tenant, a.identifier)) ==> own(a))
    ensures Watched(Apply(d, a), mine, limit, from, a.now)
  {
    var d', key := Apply(d, a), KeyFor(a.tenant, a.identifier);
    if a.now <= from + 60 { AttemptHolds(d, a, mine, from, clock); }
    CheckedOne(d.checks, Check(key, a.now, a.succeeds), FailingIn(mine, from));
    if d'.checks != d.checks && FailingIn(mine, from)(Check(key, a.now, a.succeeds)) {
      assert Guarded(d, a, mine, own, from);
    }
  }

  lemma {:induction false} RunIsWatched(attempts: seq<Attempt>, mine: bytes -> bool, own: Attempt -> bool, limit: nat,
        from: u64)
    requires Guards(mine, own, limit, from) && Forward(attempts) && Undisturbed(Run(attempts), mine, from)
    requires forall i | 0 <= i < |attempts| && mine(KeyFor(attempts[i].tenant, attempts[i].identifier)) ::
             own(attempts[i])
    ensures Watched(Run(attempts), mine, limit, from, Clock(attempts))
    decreases |attempts|
  {
    if attempts != [] {
      var init, a := attempts[..|attempts| - 1], attempts[|attempts| - 1];
      UndisturbedBefore(Run(init), a, mine, from);
      RunIsWatched(init, mine, own, limit, from);
      AttemptKeeps(Run(init), a, mine, own, limit, from, Clock(init));
    }
  }

  // The two limits.

  /** A check in a minute that `now` ends or falls in still counts at `now`. */
  lemma WindowIsWithin(t: u64, from: u64, now: u64)
    requires InWindow(t, from) && InWindow(now, from)
    ensures Within(t, now)
  {
    assert now <= t + 60;
  }

  lemma IdentifierIsGuarded(key: bytes, from: u64)
    ensures Guards(k => k == key, _ => true, MAX_FAILURES, from)
  {
    var mine, own := (k: bytes) => k == key, (_: Attempt) => true;
    forall d: Desk, a: Attempt | Guarded(d, a, mine, own, from)
      ensures WindowCount(d.checks, mine, from) < MAX_FAILURES {
      forall i | 0 <= i < |d.checks| && FailingIn(mine, from)(d.checks[i])
        ensures FailedSince(key, from, a.now)(d.checks[i]) {
        WindowIsWithin(d.checks[i].now, from, a.now);
      }
      CountGrows(d.checks, d.checks, FailingIn(mine, from), FailedSince(key, from, a.now));
      assert Since(d.checks, key, from, a.now) <= Recent(d.failures, key, a.now);
    }
  }

  /**
    Any closed minute holds at most five failing credential checks for an identifier, if in
    that minute no success cleared it and no eviction dropped it.
   */
  lemma FiveFailingChecksPerIdentifier(attempts: seq<Attempt>, tenant: bytes, identifier: bytes, from: u64)
    requires Forward(attempts) && Undisturbed(Run(attempts), k => k == KeyFor(tenant, identifier), from)
    ensures WindowCount(Run(attempts).checks, k => k == KeyFor(tenant, identifier), from) <= 5
  {
    var key := KeyFor(tenant, identifier);
    IdentifierIsGuarded(key, from);
    RunIsWatched(attempts, k => k == key, _ => true, MAX_FAILURES, from);
  }

  function InKeys(keys: set<bytes>, from: u64, now: u64): Check -> bool {
    (c: Check) => !c.ok && c.key in keys && from <= c.now && Within(c.now, now)
  }

  lemma {:induction false} CountSplits(checks: seq<Check>, keys: set<bytes>, k: bytes, from: u64, now: u64)
    requires k in keys
    ensures Count(checks, InKeys(keys, from, now))
            == Since(checks, k, from, now) + Count(checks, InKeys(keys - {k}, from, now))
    decreases |checks|
  {
    if checks != [] { CountSplits(checks[..|checks| - 1], keys, k, from, now); }
  }

  /** Key by key the limiter counts at least the failing checks, so it does in total. */
  lemma {:induction false} TotalCovers(m: Failures, checks: seq<Check>, keys: set<bytes>, from: u64, now: u64)
    requires forall k | k in keys :: Since(checks, k, from, now) <= Recent(m, k, now)
    ensures Count(checks, InKeys(keys, from, now)) <= Total(m, keys, now)
    decreases |keys|
  {
    if keys == {} {
      NoneCounted(checks, InKeys(keys, from, now));
    } else {
      var k :| k in keys;
      TotalPick(m, keys, k, now);
      CountSplits(checks, keys, k, from, now);
      TotalCovers(m, checks, keys - {k}, from, now);
    }
  }

  /** A tenant that is not flooded has had fewer than two hundred failing checks in the minute. */
  lemma NotFloodedIsBelow(d: Desk, prefix: bytes, from: u64, now: u64)
    requires Held(d, k => prefix <= k, from, now) && InWindow(now, from) && !Flooded(d.failures, prefix, now)
    ensures WindowCount(d.checks, k => prefix <= k, from) < TENANT_FLOOD_CEILING
  {
    var mine, keys := (k: bytes) => prefix <= k, TenantKeys(d.failures, prefix);
    forall i | 0 <= i < |d.checks| && FailingIn(mine, from)(d.checks[i]) ensures InKeys(keys, from, now)(d.checks[i]) {
      var k := d.checks[i].key;
      WindowIsWithin(d.checks[i].now, from, now);
      SomeCounted(d.checks, i, FailedSince(k, from, now));
      assert Since(d.checks, k, from, now) <= Recent(d.failures, k, now);
    }
    CountGrows(d.checks, d.checks, FailingIn(mine, from), InKeys(keys, from, now));
    TotalCovers(d.failures, d.checks, keys, from, now);
  }

  lemma TenantIsGuarded(tenant: bytes, from: u64)
    ensures Guards(k => TenantPrefix(tenant) <= k, (a: Attempt) => a.tenant == tenant, TENANT_FLOOD_CEILING, from)
  {
    var mine, own := (k: bytes) => TenantPrefix(tenant) <= k, (a: Attempt) => a.tenant == tenant;
    forall d: Desk, a: Attempt | Guarded(d, a, mine, own, from)
      ensures WindowCount(d.checks, mine, from) < TENANT_FLOOD_CEILING {
      NotFloodedIsBelow(d, TenantPrefix(tenant), from, a.now);
      SameCount(d.checks, FailingIn(k => TenantPrefix(tenant) <= k, from), FailingIn(mine, from));
    }
  }

  lemma SameCount<T>(xs: seq<T>, p: T -> bool, q: T -> bool)
    requires forall x | x in xs :: p(x) <==> q(x)
    ensures Count(xs, p) == Count(xs, q)
  {
    CountGrows(xs, xs, p, q);
    CountGrows(xs, xs, q, p);
  }

  /** Every attempt whose key falls under the tenant's prefix is the tenant's own. */
  ghost predicate OwnKeys(attempts: seq<Attempt>, tenant: bytes) {
    forall i | 0 <= i < |attempts| && TenantPrefix(tenant) <= KeyFor(attempts[i].tenant, attempts[i].identifier) ::
      attempts[i].tenant == tenant
  }

  /** So it is when no tenant id contains a NUL. */
  lemma NoZeroOwnKeys(attempts: seq<Attempt>, tenant: bytes)
    requires 0 !in tenant && forall i | 0 <= i < |attempts| :: 0 !in attempts[i].tenant
    ensures OwnKeys(attempts, tenant)
  {
    forall i | 0 <= i < |attempts| && TenantPrefix(tenant) <= KeyFor(attempts[i].tenant, attempts[i].identifier)
      ensures attempts[i].tenant == tenant
    {
      PrefixIsolates(tenant, attempts[i].tenant, attempts[i].identifier);
    }
  }

  /**
    Any closed minute holds at most two hundred failing credential checks for a tenant, if
    in that minute none of its keys was cleared by a success or dropped by an eviction.
   */
  lemma TwoHundredFailingChecksPerTenant(attempts: seq<Attempt>, tenant: bytes, from: u64)
    requires Forward(attempts) && OwnKeys(attempts, tenant)
             && Undisturbed(Run(attempts), k => TenantPrefix(tenant) <= k, from)
    ensures WindowCount(Run(attempts).checks, k => TenantPrefix(tenant) <= k, from) <= 200
  {
    TenantIsGuarded(tenant, from);
    RunIsWatched(attempts, k => TenantPrefix(tenant) <= k, (a: Attempt) => a.tenant == tenant, TENANT_FLOOD_CEILING,
      from);
  }

  // The flood ceiling, against the log of every failure.

  function LoggedIn(prefix: bytes, now: u64): Failure -> bool { (f: Failure) => prefix <= f.key && now <= f.now + 60 }

  function LoggedFor(keys: set<bytes>, now: u64): Failure -> bool { (f: Failure) => f.key in keys && now <= f.now + 60 }

  lemma {:induction false} LogSplits(log: seq<Failure>, keys: set<bytes>, k: bytes, now: u64)
    requires k in keys
    ensures Count(log, LoggedFor(keys, now)) == LogCount(log, k, now) + Count(log, LoggedFor(keys - {k}, now))
    decreases |log|
  {
    if log != [] { LogSplits(log[..|log| - 1], keys, k, now); }
  }

  /** Key by key the limiter and the log compare as they do in total. */
  lemma {:induction false} TotalAgainstLog(m: Failures, log: seq<Failure>, keys: set<bytes>, now: u64)
    ensures (forall k | k in keys :: Recent(m, k, now) <= LogCount(log, k, now)) ==>
              Total(m, keys, now) <= Count(log, LoggedFor(keys, now))
    ensures (forall k | k in keys :: LogCount(log, k, now) <= Recent(m, k, now)) ==>
              Count(log, LoggedFor(keys, now)) <= Total(m, keys, now)
    decreases |keys|
  {
    if keys == {} {
      NoneCounted(log, LoggedFor(keys, now));
    } else {
      var k :| k in keys;
      TotalPick(m, keys, k, now);
      LogSplits(log, keys, k, now);
      TotalAgainstLog(m, log, keys - {k}, now);
    }
  }

  /** What is logged under the prefix is logged for a key the limiter holds, if it dropped none of them. */
  lemma LoggedIsHeld(w: World, prefix: bytes, clock: u64, now: u64)
    requires NoLess(w, clock) && clock <= now && forall k | k in w.evicted :: !(prefix <= k)
    ensures Count(w.log, LoggedIn(prefix, now)) <= Count(w.log, LoggedFor(TenantKeys(w.failures, prefix), now))
  {
    var keys := TenantKeys(w.failures, prefix);
    forall i | 0 <= i < |w.log| && LoggedIn(prefix, now)(w.log[i]) ensures LoggedFor(keys, now)(w.log[i]) {
      var k := w.log[i].key;
      SomeCounted(w.log, i, CountedAt(k, now));
      assert LogCount(w.log, k, now) <= Recent(w.failures, k, now);
    }
    CountGrows(w.log, w.log, LoggedIn(prefix, now), LoggedFor(keys, now));
  }

  /**
    The ceiling refines the log as the limit per key does: under any clock a tenant is
    flooded only if the log holds two hundred failures under its prefix in the last minute,
    and under a clock that does not go back exactly then, unless one of its keys was evicted.
   */
  lemma FloodRefinesTheLog(steps: seq<Step>, prefix: bytes, now: u64)
    ensures var w := RateLimit.Run(steps);
            && (Flooded(w.failures, prefix, now) ==> Count(w.log, LoggedIn(prefix, now)) >= 200)
            && (RateLimit.Forward(steps) && RateLimit.Clock(steps) <= now
                && (forall k | k in w.evicted :: !(prefix <= k)) ==>
                  (Flooded(w.failures, prefix, now) <==> Count(w.log, LoggedIn(prefix, now)) >= 200))
  {
    RunKeeps(steps);
    var w, keys := RateLimit.Run(steps), TenantKeys(RateLimit.Run(steps).failures, prefix);
    forall k ensures Recent(w.failures, k, now) <= LogCount(w.log, k, now) {}
    TotalAgainstLog(w.failures, w.log, keys, now);
    CountGrows(w.log, w.log, LoggedFor(keys, now), LoggedIn(prefix, now));
    if RateLimit.Forward(steps) && RateLimit.Clock(steps) <= now && (forall k | k in w.evicted :: !(prefix <= k)) {
      LoggedIsHeld(w, prefix, RateLimit.Clock(steps), now);
    }
  }
}
