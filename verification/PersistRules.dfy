/**
  Why a restore refuses, said of the store that was written: which section a cut is named
  after, which section a store that does not hold together is refused in and as what, and
  that the four sections older servers wrote still restore.
 */
module PersistRules {
  import opened Bytes
  import opened Order
  import opened Codec
  import opened Sections
  import opened Inventory
  import opened InventoryStore
  import opened Persist
  import opened PersistRoundTrip

  // Cuts.

  /** A snapshot from each of its sections on, and at last nothing. */
  function Suffixes(env: Env, l: Listing): seq<bytes>
    requires Countable(l)
  {
    seq(8, j requires 0 <= j < 8 => From(env, l, j))
  }

  /** Each section, read where it was written, leads to the next. */
  ghost predicate Chain<A, E>(take: (nat, A, bytes) -> Parse<A, E>, at: nat -> A, parts: seq<bytes>) {
    parts != [] && forall j | 0 <= j < |parts| - 1 ::
      take(j, at(j), parts[j]) == Got(at(j + 1), parts[j + 1]) && |parts[j + 1]| < |parts[j]|
  }

  /** Cutting away section `k` and what follows ends exactly before section `k`. */
  lemma {:induction false} CutIsBefore<A, E>(take: (nat, A, bytes) -> Parse<A, E>, at: nat -> A, parts: seq<bytes>,
        j: nat, k: nat)
    requires Chain(take, at, parts) && j <= k < |parts| - 1
    ensures 0 < |parts[k]| <= |parts[j]|
    ensures CutBefore(take, j, |parts| - 1, at(j), parts[j], |parts[j]| - |parts[k]|) == Some(k)
    decreases k - j
  {
    assert |parts[j + 1]| < |parts[j]|;
    if j < k { CutIsBefore(take, at, parts, j + 1, k); }
  }

  /** And only that does. */
  lemma {:induction false} BeforeIsACut<A, E>(take: (nat, A, bytes) -> Parse<A, E>, at: nat -> A, parts: seq<bytes>,
        j: nat, n: nat)
    requires Chain(take, at, parts) && j <= |parts| - 1
    ensures var before := CutBefore(take, j, |parts| - 1, at(j), parts[j], n);
            before.Some? ==> before.value < |parts| - 1 && n + |parts[before.value]| == |parts[j]|
    decreases |parts| - j
  {
    if j < |parts| - 1 && n > 0 {
      var gone := |parts[j]| - |parts[j + 1]|;
      if n >= gone { BeforeIsACut(take, at, parts, j + 1, n - gone); }
    }
  }

  ghost predicate SnapshotChain(env: Env, s: Store, parts: seq<bytes>) {
    |parts| == 8 && Chain(Taker(env), (j: nat) => Part(s, j), parts)
  }

  lemma SectionLeads(env: Env, s: Store, j: nat, b: bytes, rest: bytes)
    requires j < 7 && Returns(env, s, j, b, rest, true)
    ensures Taker(env)(j, Part(s, j), b) == Got(Part(s, j + 1), rest) && |rest| < |b|
  {
    SectionCuts(env, j, Part(s, j), b, 0);
  }

  lemma LayoutLeads(env: Env, s: Store, l: Listing, j: nat, b: bytes, rest: bytes)
    requires Written(env, s, l) && Integrity(env, s) && j < 7
    requires b == From(env, l, j) && rest == From(env, l, j + 1)
    ensures Taker(env)(j, Part(s, j), b) == Got(Part(s, j + 1), rest) && |rest| < |b|
  {
    SectionReturns(env, s, l, j, true);
    SectionLeads(env, s, j, b, rest);
  }

  lemma LayoutIsAChain(env: Env, s: Store, l: Listing, parts: seq<bytes>)
    requires Written(env, s, l) && Integrity(env, s) && parts == Suffixes(env, l)
    ensures SnapshotChain(env, s, parts)
  {
    var take := Taker(env);
    forall j | 0 <= j < 7 ensures take(j, Part(s, j), parts[j]) == Got(Part(s, j + 1), parts[j + 1])
                                  && |parts[j + 1]| < |parts[j]| {
      LayoutLeads(env, s, l, j, parts[j], parts[j + 1]);
    }
  }

  /** What a cut of a headed snapshot is refused as, from the section it ends before. */
  lemma CutMeans(env: Env, b: bytes, rest: bytes, n: nat, before: Option<nat>)
    requires HEADER <= b && b[8..] == rest && TryRestore(env, b).Whole? && n < |b|
    requires before == if n < 8 then None else CutBefore(Taker(env), 0, 7, Nothing, rest, n - 8)
    ensures TryRestore(env, b[..n])
            == Bad(match NamedBy(true, before) case None => Malformed case Some(section) => Truncated(section))
  {
    EveryCutIsRefused(env, b, n);
    assert EndsAfter(env, b, n) == NamedBy(true, before);
  }

  lemma NamesAre(k: nat)
    requires k < 7
    ensures NamedBy(true, None) == None
    ensures NamedBy(true, Some(k))
            == Some([Header, Tenants, ApiKeys, Users, Sessions, Inventories, LinkRecords][k])
  {
  }

  lemma NothingFirst(s: Store)
    ensures Part(s, 0) == Nothing
  {
  }

  /** The snapshot of a store that holds together, from its suffixes. */
  lemma WholeFrom(env: Env, s: Store, l: Listing, parts: seq<bytes>, b: bytes)
    requires Written(env, s, l) && Integrity(env, s) && parts == Suffixes(env, l) && b == Layout(env, l)
    ensures HEADER <= b && b[8..] == parts[0] && |b| == 8 + |parts[0]| && TryRestore(env, b).Whole?
  {
    SnapshotRestores(env, s, l);
    var rest := FromTenants(env, l);
    assert parts[0] == rest && b == HEADER + rest;
  }

  lemma CutFound(env: Env, s: Store, parts: seq<bytes>, k: nat)
    requires SnapshotChain(env, s, parts) && k < 7
    ensures 0 < |parts[k]| <= |parts[0]|
    ensures CutBefore(Taker(env), 0, 7, Nothing, parts[0], |parts[0]| - |parts[k]|) == Some(k)
  {
    CutIsBefore(Taker(env), (j: nat) => Part(s, j), parts, 0, k);
    NothingFirst(s);
  }

  lemma CutNamesAt(env: Env, b: bytes, rest: bytes, size: nat, n: nat, k: nat)
    requires HEADER <= b && b[8..] == rest && TryRestore(env, b).Whole? && 0 < size <= |rest| && n + size == |b|
    requires k < 7 && CutBefore(Taker(env), 0, 7, Nothing, rest, |rest| - size) == Some(k)
    ensures TryRestore(env, b[..n])
            == Bad(Truncated([Header, Tenants, ApiKeys, Users, Sessions, Inventories, LinkRecords][k]))
  {
    CutMeans(env, b, rest, n, Some(k));
    NamesAre(k);
  }

  lemma ChainCut(env: Env, s: Store, parts: seq<bytes>, b: bytes, k: nat, n: nat)
    requires SnapshotChain(env, s, parts) && HEADER <= b && b[8..] == parts[0] && |b| == 8 + |parts[0]|
             && TryRestore(env, b).Whole? && k < 7 && n + |parts[k]| == |b|
    ensures TryRestore(env, b[..n])
            == Bad(Truncated([Header, Tenants, ApiKeys, Users, Sessions, Inventories, LinkRecords][k]))
  {
    CutFound(env, s, parts, k);
    CutNamesAt(env, b, parts[0], |parts[k]|, n, k);
  }

  lemma ChainCutElsewhere(env: Env, s: Store, parts: seq<bytes>, b: bytes, n: nat)
    requires SnapshotChain(env, s, parts) && HEADER <= b && b[8..] == parts[0] && |b| == 8 + |parts[0]|
             && TryRestore(env, b).Whole? && n < |b| && forall k | 0 <= k < 7 :: n + |parts[k]| != |b|
    ensures TryRestore(env, b[..n]) == Bad(Malformed)
  {
    NothingFirst(s);
    if n >= 8 { BeforeIsACut(Taker(env), (j: nat) => Part(s, j), parts, 0, n - 8); }
    NamesAre(0);
    CutMeans(env, b, parts[0], n, None);
  }

  /**
    The snapshot of a store that holds together, cut short: refused as truncated after the section
    before the first one missing where the cut is between two sections, and as malformed
    where it is anywhere else.
   */
  lemma CutNamesTheSection(env: Env, s: Store, l: Listing, parts: seq<bytes>, b: bytes, n: nat)
    requires Written(env, s, l) && Integrity(env, s) && parts == Suffixes(env, l) && b == Layout(env, l) && n < |b|
    ensures forall k | 0 <= k < 7 && n + |parts[k]| == |b| ::
              TryRestore(env, b[..n])
              == Bad(Truncated([Header, Tenants, ApiKeys, Users, Sessions, Inventories, LinkRecords][k]))
    ensures (forall k | 0 <= k < 7 :: n + |parts[k]| != |b|) ==> TryRestore(env, b[..n]) == Bad(Malformed)
  {
    LayoutIsAChain(env, s, l, parts);
    WholeFrom(env, s, l, parts, b);
    CutChain(env, s, parts, b, n);
  }

  lemma CutChain(env: Env, s: Store, parts: seq<bytes>, b: bytes, n: nat)
    requires SnapshotChain(env, s, parts) && HEADER <= b && b[8..] == parts[0] && |b| == 8 + |parts[0]|
             && TryRestore(env, b).Whole? && n < |b|
    ensures forall k | 0 <= k < 7 && n + |parts[k]| == |b| ::
              TryRestore(env, b[..n])
              == Bad(Truncated([Header, Tenants, ApiKeys, Users, Sessions, Inventories, LinkRecords][k]))
    ensures (forall k | 0 <= k < 7 :: n + |parts[k]| != |b|) ==> TryRestore(env, b[..n]) == Bad(Malformed)
  {
    forall k | 0 <= k < 7 && n + |parts[k]| == |b|
      ensures TryRestore(env, b[..n])
              == Bad(Truncated([Header, Tenants, ApiKeys, Users, Sessions, Inventories, LinkRecords][k]))
    {
      ChainCut(env, s, parts, b, k, n);
    }
    if forall k | 0 <= k < 7 :: n + |parts[k]| != |b| { ChainCutElsewhere(env, s, parts, b, n); }
  }

  // Stores that do not hold together.

  /** An account the snapshot has. */
  predicate Held(s: Store, who: Account) { who in s.users && who.0 in s.tenants }

  lemma {:induction false} AddAllWhy<R, A(!new), E>(add: (A, R) -> Added<A, E>, acc: A, rows: seq<R>, good: A -> bool,
        why: E -> bool)
    requires good(acc)
    requires forall a: A, i | good(a) && 0 <= i < |rows| ::
               var x := add(a, rows[i]); (x.Into? ==> good(x.acc)) && (x.Refuse? ==> why(x.why))
    ensures var r := AddAll(add, acc, rows); r.Refuse? ==> why(r.why)
    decreases |rows|
  {
    if rows != [] && add(acc, rows[0]).Into? {
      assert forall i | 0 <= i < |rows[1..]| :: rows[1..][i] == rows[i + 1];
      AddAllWhy(add, add(acc, rows[0]).acc, rows[1..], good, why);
    }
  }

  /** The rows of a map are refused only for a reason one of them is refused for. */
  lemma MapWhy<R(!new), A(!new), E, K(!new), V>(
      c: Codec<R>, add: (A, R) -> Added<A, E>, short: E, m: map<K, V>, entries: seq<(K, V)>, row: ((K, V)) -> R,
      tail: bytes, acc: A, good: A -> bool, why: E -> bool)
    requires Canonical(c) && Lists(m, entries) && |entries| < 0x1_0000_0000 && forall k | k in m :: c.ok(row((k, m[k])))
    requires good(acc)
    requires forall a: A, k | good(a) && k in m ::
               var x := add(a, row((k, m[k]))); (x.Into? ==> good(x.acc)) && (x.Refuse? ==> why(x.why))
    ensures var p := TakeRows(c, add, short, PutRows(c, Each(entries, row), tail), acc); p.Stop? ==> why(p.why)
  {
    var rows := Each(entries, row);
    RowsFit(m, entries, row, c.ok);
    forall a: A, i | good(a) && 0 <= i < |rows|
      ensures add(a, rows[i]).Into? ==> good(add(a, rows[i]).acc)
      ensures add(a, rows[i]).Refuse? ==> why(add(a, rows[i]).why)
    {
      var k := entries[i].0;
      assert k in m && rows[i] == row((k, m[k]));
    }
    AddAllWhy(add, acc, rows, good, why);
    RowsRead(c, add, short, rows, tail, acc);
  }

  /** What section `k` asks of the store. */
  ghost predicate Named(env: Env, s: Store, k: nat) {
    match k
    case 1 => ApiKeysNamed(s)
    case 2 => UsersNamed(s)
    case 3 => SessionsNamed(s)
    case 4 => InventoriesNamed(env, s)
    case 5 => LinksNamed(env, s)
    case 6 => LifecycleRecordsNamed(env, s)
    case _ => true
  }

  /** Every account the records of section `k` name is there. */
  ghost predicate AllHeld(s: Store, k: nat) {
    match k
    case 4 => forall who | who in s.inventories :: Held(s, who)
    case 5 => forall x | x in s.links :: Held(s, x.0)
    case 6 => forall x | x in s.lifecycle :: Held(s, x.0)
    case _ => false
  }

  /** Only an account that is missing is an orphan; everything else device state is refused for is inconsistent. */
  predicate Reason(section: Section, held: bool, e: RestoreError) {
    e == Inconsistent(section) || (e == Orphan(section) && !held)
  }

  predicate SameAccounts(a: Store, base: Store) { a.tenants == base.tenants && a.users == base.users }

  lemma KeysWhy(env: Env, base: Store, m: map<key32, ApiKey>, entries: seq<(key32, ApiKey)>, tail: bytes)
    requires Lists(m, entries) && |entries| < 0x1_0000_0000
    requires forall k | k in m :: KeyCodec(env).ok(KeyRowOf((k, m[k])))
    ensures var p := TakeRows(KeyCodec(env), AddKey, Malformed,
                              PutRows(KeyCodec(env), Each(entries, KeyRowOf), tail), base);
            p.Stop? ==> p.why == Orphan(ApiKeys)
  {
    KeyRowsCanonical(env);
    MapWhy(KeyCodec(env), AddKey, Malformed, m, entries, KeyRowOf, tail, base, a => true, e => e == Orphan(ApiKeys));
  }

  lemma UsersWhy(env: Env, base: Store, m: map<Account, bytes>, entries: seq<(Account, bytes)>, tail: bytes)
    requires Lists(m, entries) && |entries| < 0x1_0000_0000
    requires forall k | k in m :: UserCodec(env).ok(UserRowOf((k, m[k])))
    ensures var p := TakeRows(UserCodec(env), AddUser, Malformed,
                              PutRows(UserCodec(env), Each(entries, UserRowOf), tail), base);
            p.Stop? ==> p.why == Orphan(Users)
  {
    TenantRowsCanonical(env);
    MapWhy(UserCodec(env), AddUser, Malformed, m, entries, UserRowOf, tail, base, a => true, e => e == Orphan(Users));
  }

  lemma SessionsWhy(env: Env, base: Store, m: map<key32, Session>, entries: seq<(key32, Session)>, tail: bytes)
    requires Lists(m, entries) && |entries| < 0x1_0000_0000
    requires forall k | k in m :: SessionCodec(env).ok(SessionRowOf((k, m[k])))
    ensures var p := TakeRows(SessionCodec(env), AddSession, Malformed,
                              PutRows(SessionCodec(env), Each(entries, SessionRowOf), tail), base);
            p.Stop? ==> p.why == Orphan(Sessions)
  {
    KeyRowsCanonical(env);
    MapWhy(SessionCodec(env), AddSession, Malformed, m, entries, SessionRowOf, tail, base, a => true,
      e => e == Orphan(Sessions));
  }

  lemma StateRowWhy(env: Env, base: Store, a: Store, e: (Account, DeviceInventory), held: bool)
    requires SameAccounts(a, base) && (held ==> Held(base, e.0))
    ensures var x := AddState(env)(a, StateRowOf(e));
            (x.Into? ==> SameAccounts(x.acc, base)) && (x.Refuse? ==> Reason(Inventories, held, x.why))
  {
  }

  lemma InventoriesWhy(env: Env, base: Store, m: map<Account, DeviceInventory>,
        entries: seq<(Account, DeviceInventory)>, tail: bytes, held: bool)
    requires Lists(m, entries) && |entries| < 0x1_0000_0000
    requires forall k | k in m :: StateRowCodec(env).ok(StateRowOf((k, m[k])))
    requires held ==> forall k | k in m :: Held(base, k)
    ensures var p := TakeRows(StateRowCodec(env), AddState(env), Malformed,
                              PutRows(StateRowCodec(env), Each(entries, StateRowOf), tail), base);
            p.Stop? ==> Reason(Inventories, held, p.why)
  {
    StateRowsCanonical(env);
    forall a: Store, k | SameAccounts(a, base) && k in m
      ensures var x := AddState(env)(a, StateRowOf((k, m[k])));
              (x.Into? ==> SameAccounts(x.acc, base)) && (x.Refuse? ==> Reason(Inventories, held, x.why))
    {
      StateRowWhy(env, base, a, (k, m[k]), held);
    }
    MapWhy(StateRowCodec(env), AddState(env), Malformed, m, entries, StateRowOf, tail, base,
      a => SameAccounts(a, base), e => Reason(Inventories, held, e));
  }

  lemma LinkRowWhy(env: Env, base: Store, a: Store, e: (RetryKey, InventoryMutation), held: bool)
    requires SameAccounts(a, base) && (held ==> Held(base, e.0.0))
    ensures var x := AddLink(env)(a, LinkRowOf(e));
            (x.Into? ==> SameAccounts(x.acc, base)) && (x.Refuse? ==> Reason(LinkRecords, held, x.why))
  {
  }

  lemma LinksWhy(env: Env, base: Store, m: map<RetryKey, InventoryMutation>,
        entries: seq<(RetryKey, InventoryMutation)>, tail: bytes, held: bool)
    requires Lists(m, entries) && |entries| < 0x1_0000_0000
    requires forall k | k in m :: LinkCodec(env).ok(LinkRowOf((k, m[k])))
    requires held ==> forall k | k in m :: Held(base, k.0)
    ensures var p := TakeRows(LinkCodec(env), AddLink(env), Malformed,
                              PutRows(LinkCodec(env), Each(entries, LinkRowOf), tail), base);
            p.Stop? ==> Reason(LinkRecords, held, p.why)
  {
    LinkRowsCanonical(env);
    forall a: Store, k | SameAccounts(a, base) && k in m
      ensures var x := AddLink(env)(a, LinkRowOf((k, m[k])));
              (x.Into? ==> SameAccounts(x.acc, base)) && (x.Refuse? ==> Reason(LinkRecords, held, x.why))
    {
      LinkRowWhy(env, base, a, (k, m[k]), held);
    }
    MapWhy(LinkCodec(env), AddLink(env), Malformed, m, entries, LinkRowOf, tail, base,
      a => SameAccounts(a, base), e => Reason(LinkRecords, held, e));
  }

  lemma LifecycleRowWhy(env: Env, base: Store, a: Store, e: (RetryKey, LifecycleMutation), held: bool)
    requires SameAccounts(a, base) && (held ==> Held(base, e.0.0))
    ensures var x := AddLifecycle(env)(a, LifecycleRowOf(e));
            (x.Into? ==> SameAccounts(x.acc, base)) && (x.Refuse? ==> Reason(LifecycleRecords, held, x.why))
  {
  }

  lemma LifecycleWhy(env: Env, base: Store, m: map<RetryKey, LifecycleMutation>,
        entries: seq<(RetryKey, LifecycleMutation)>, tail: bytes, held: bool)
    requires Lists(m, entries) && |entries| < 0x1_0000_0000
    requires forall k | k in m :: LifecycleRowCodec(env).ok(LifecycleRowOf((k, m[k])))
    requires held ==> forall k | k in m :: Held(base, k.0)
    ensures var p := TakeRows(LifecycleRowCodec(env), AddLifecycle(env), Malformed,
                              PutRows(LifecycleRowCodec(env), Each(entries, LifecycleRowOf), tail), base);
            p.Stop? ==> Reason(LifecycleRecords, held, p.why)
  {
    LifecycleRowsCanonical(env);
    forall a: Store, k | SameAccounts(a, base) && k in m
      ensures var x := AddLifecycle(env)(a, LifecycleRowOf((k, m[k])));
              (x.Into? ==> SameAccounts(x.acc, base)) && (x.Refuse? ==> Reason(LifecycleRecords, held, x.why))
    {
      LifecycleRowWhy(env, base, a, (k, m[k]), held);
    }
    MapWhy(LifecycleRowCodec(env), AddLifecycle(env), Malformed, m, entries, LifecycleRowOf, tail, base,
      a => SameAccounts(a, base), e => Reason(LifecycleRecords, held, e));
  }

  /** What the refusals of each section say. */
  predicate SaysWhy(k: nat, held: bool, e: RestoreError) {
    match k
    case 1 => e == Orphan(ApiKeys)
    case 2 => e == Orphan(Users)
    case 3 => e == Orphan(Sessions)
    case 4 => Reason(Inventories, held, e)
    case 5 => Reason(LinkRecords, held, e)
    case 6 => Reason(LifecycleRecords, held, e)
    case _ => false
  }

  lemma KeySectionWhy(env: Env, s: Store, l: Listing)
    requires Written(env, s, l)
    ensures var p := TakeSection(env, 1, Part(s, 1), From(env, l, 1)); p.Stop? ==> SaysWhy(1, AllHeld(s, 1), p.why)
  {
    KeysWhy(env, Part(s, 1), s.apiKeys, l.apiKeys, FromUsers(env, l));
  }

  lemma UserSectionWhy(env: Env, s: Store, l: Listing)
    requires Written(env, s, l)
    ensures var p := TakeSection(env, 2, Part(s, 2), From(env, l, 2)); p.Stop? ==> SaysWhy(2, AllHeld(s, 2), p.why)
  {
    UsersWhy(env, Part(s, 2), s.users, l.users, FromSessions(env, l));
  }

  lemma SessionSectionWhy(env: Env, s: Store, l: Listing)
    requires Written(env, s, l)
    ensures var p := TakeSection(env, 3, Part(s, 3), From(env, l, 3)); p.Stop? ==> SaysWhy(3, AllHeld(s, 3), p.why)
  {
    SessionsWhy(env, Part(s, 3), s.sessions, l.sessions, FromInventories(env, l));
  }

  lemma InventorySectionWhy(env: Env, s: Store, l: Listing)
    requires Written(env, s, l)
    ensures var p := TakeSection(env, 4, Part(s, 4), From(env, l, 4)); p.Stop? ==> SaysWhy(4, AllHeld(s, 4), p.why)
  {
    InventoriesWhy(env, Part(s, 4), s.inventories, l.inventories, FromLinks(env, l), AllHeld(s, 4));
  }

  lemma LinkSectionWhy(env: Env, s: Store, l: Listing)
    requires Written(env, s, l)
    ensures var p := TakeSection(env, 5, Part(s, 5), From(env, l, 5)); p.Stop? ==> SaysWhy(5, AllHeld(s, 5), p.why)
  {
    LinksWhy(env, Part(s, 5), s.links, l.links, FromLifecycleRecords(env, l), AllHeld(s, 5));
  }

  lemma LifecycleSectionWhy(env: Env, s: Store, l: Listing)
    requires Written(env, s, l)
    ensures var p := TakeSection(env, 6, Part(s, 6), From(env, l, 6)); p.Stop? ==> SaysWhy(6, AllHeld(s, 6), p.why)
  {
    LifecycleWhy(env, Part(s, 6), s.lifecycle, l.lifecycle, [], AllHeld(s, 6));
  }

  lemma SectionWhy(env: Env, s: Store, l: Listing, k: nat)
    requires Written(env, s, l) && 1 <= k < 7
    ensures var p := TakeSection(env, k, Part(s, k), From(env, l, k)); p.Stop? ==> SaysWhy(k, AllHeld(s, k), p.why)
  {
    if k == 1 { KeySectionWhy(env, s, l); }
    else if k == 2 { UserSectionWhy(env, s, l); }
    else if k == 3 { SessionSectionWhy(env, s, l); }
    else if k == 4 { InventorySectionWhy(env, s, l); }
    else if k == 5 { LinkSectionWhy(env, s, l); }
    else { LifecycleSectionWhy(env, s, l); }
  }

  // The first section that asks something the store does not meet.

  lemma PartKeys(s: Store, k: nat)
    requires k > 1
    ensures ApiKeysNamed(Part(s, k)) <==> ApiKeysNamed(s)
  {
    var keys := Relabelled(s.apiKeys);
    forall x | x in s.apiKeys ensures x in keys && keys[x].tenant == s.apiKeys[x].tenant {}
    if ApiKeysNamed(Part(s, k)) {
      forall x | x in s.apiKeys ensures s.apiKeys[x].tenant in s.tenants {
        assert x in keys && keys[x].tenant in s.tenants;
      }
    }
  }

  /** Every section before section `k` asks nothing the store does not meet. */
  ghost predicate NamedBefore(env: Env, s: Store, k: nat) {
    && (k > 1 ==> ApiKeysNamed(s)) && (k > 2 ==> UsersNamed(s)) && (k > 3 ==> SessionsNamed(s))
    && (k > 4 ==> InventoriesNamed(env, s)) && (k > 5 ==> LinksNamed(env, s))
    && (k > 6 ==> LifecycleRecordsNamed(env, s))
  }

  lemma StatesAlike(env: Env, s: Store, k: nat)
    requires k >= 3
    ensures forall who: Account, inv: DeviceInventory ::
              StateOk(env, Part(s, k), who, inv) <==> StateOk(env, s, who, inv)
  {
  }

  lemma NamedHolds(env: Env, s: Store, k: nat)
    requires k < 7 && NamedBefore(env, s, k)
    ensures Integrity(env, Part(s, k)) && (k <= 5 ==> Part(s, k).lifecycle == map[])
    ensures k == 0 ==> Part(s, k).inventories == map[] && Part(s, k).links == map[]
  {
    if k > 1 { PartKeys(s, k); }
    if k >= 3 { StatesAlike(env, s, k); }
  }

  /** Once section `k` was read as written, the store meets what it asks. */
  lemma HoldsNamed(env: Env, s: Store, k: nat)
    requires 1 <= k < 7 && Integrity(env, Part(s, k + 1))
    ensures Named(env, s, k)
  {
    if k == 1 { PartKeys(s, 2); }
    if k >= 4 { StatesAlike(env, s, k + 1); }
  }

  lemma RefusedIsStopped(env: Env, s: Store, k: nat, b: bytes, rest: bytes)
    requires 1 <= k < 7 && NamedBefore(env, s, k) && !Named(env, s, k) && Returns(env, s, k, b, rest, false)
    ensures TakeSection(env, k, Part(s, k), b).Stop?
  {
    NamedHolds(env, s, k);
    if TakeSection(env, k, Part(s, k), b).Got? {
      SectionKeeps(env, k, Part(s, k), b);
      HoldsNamed(env, s, k);
    }
  }

  lemma NamedReturns(env: Env, s: Store, l: Listing, j: nat)
    requires Written(env, s, l) && j < 7 && NamedBefore(env, s, j + 1)
    ensures Returns(env, s, j, From(env, l, j), From(env, l, j + 1), true)
  {
    if j == 0 { Section0(env, s, l, true); }
    else if j == 1 { Section1(env, s, l, true); }
    else if j == 2 { Section2(env, s, l, true); }
    else if j == 3 { Section3(env, s, l, true); }
    else if j == 4 { Section4(env, s, l, true); }
    else if j == 5 { Section5(env, s, l, true); }
    else { Section6(env, s, l, true); }
  }

  /** The sections before it are read, and the restore stops where section `k` does. */
  lemma {:induction false} StopsAt(env: Env, s: Store, l: Listing, j: nat, k: nat, why: RestoreError)
    requires Written(env, s, l) && j <= k < 7 && NamedBefore(env, s, k)
    requires TakeSection(env, k, Part(s, k), From(env, l, k)) == Stop(why)
    ensures TakeAll(Taker(env), Missing(true), j, 7, Part(s, j), From(env, l, j)) == Stop(why)
    decreases k - j
  {
    if j == k {
      SectionReturns(env, s, l, k, false);
      OneReturns(env, s, k, From(env, l, k), From(env, l, k + 1), false);
    } else {
      NamedReturns(env, s, l, j);
      OneReturns(env, s, j, From(env, l, j), From(env, l, j + 1), true);
      StopsAt(env, s, l, j + 1, k, why);
    }
  }

  lemma StopsTheRestore(env: Env, s: Store, l: Listing, k: nat, why: RestoreError)
    requires Written(env, s, l) && k < 7 && NamedBefore(env, s, k)
    requires TakeSection(env, k, Part(s, k), From(env, l, k)) == Stop(why)
    ensures TryRestore(env, Layout(env, l)) == Bad(why)
  {
    StopsAt(env, s, l, 0, k, why);
    NothingFirst(s);
    LayoutIsHeaded(env, l);
  }

  lemma StopsFrom(env: Env, s: Store, l: Listing, parts: seq<bytes>, k: nat, why: RestoreError)
    requires Written(env, s, l) && parts == Suffixes(env, l) && k < 7 && NamedBefore(env, s, k)
    requires TakeSection(env, k, Part(s, k), parts[k]) == Stop(why)
    ensures TryRestore(env, Layout(env, l)) == Bad(why)
  {
    StopsTheRestore(env, s, l, k, why);
  }

  lemma RefusesSaying(env: Env, s: Store, k: nat, b: bytes, rest: bytes) returns (why: RestoreError)
    requires 1 <= k < 7 && NamedBefore(env, s, k) && !Named(env, s, k) && Answers(env, s, k, b, rest)
    ensures TakeSection(env, k, Part(s, k), b) == Stop(why) && SaysWhy(k, AllHeld(s, k), why)
  {
    RefusedIsStopped(env, s, k, b, rest);
    why := TakeSection(env, k, Part(s, k), b).why;
  }

  /** Section `k`, if it is refused, is refused saying why. */
  ghost predicate Answers(env: Env, s: Store, k: nat, b: bytes, rest: bytes)
    requires k < 7
  {
    && Returns(env, s, k, b, rest, false)
    && var p := TakeSection(env, k, Part(s, k), b); p.Stop? ==> SaysWhy(k, AllHeld(s, k), p.why)
  }

  lemma SectionAnswers(env: Env, s: Store, l: Listing, k: nat)
    requires Written(env, s, l) && 1 <= k < 7
    ensures Answers(env, s, k, From(env, l, k), From(env, l, k + 1))
  {
    SectionReturns(env, s, l, k, false);
    SectionWhy(env, s, l, k);
  }

  lemma LayoutAnswers(env: Env, s: Store, l: Listing, parts: seq<bytes>)
    requires Written(env, s, l) && parts == Suffixes(env, l)
    ensures AllAnswer(env, s, parts)
  {
    forall k | 1 <= k < 7 ensures Answers(env, s, k, parts[k], parts[k + 1]) { SectionAnswers(env, s, l, k); }
  }

  ghost predicate AllAnswer(env: Env, s: Store, parts: seq<bytes>) {
    |parts| == 8 && forall k | 1 <= k < 7 :: Answers(env, s, k, parts[k], parts[k + 1])
  }

  lemma SectionRefuses(env: Env, s: Store, parts: seq<bytes>, k: nat) returns (why: RestoreError)
    requires AllAnswer(env, s, parts) && 1 <= k < 7 && NamedBefore(env, s, k) && !Named(env, s, k)
    ensures TakeSection(env, k, Part(s, k), parts[k]) == Stop(why) && SaysWhy(k, AllHeld(s, k), why)
  {
    why := RefusesSaying(env, s, k, parts[k], parts[k + 1]);
  }

  /**
    In whatever order the maps were walked, the snapshot of a store that does not hold together is
    refused in the first section that asks something it does not meet: as an orphan for a
    missing tenant or user, and as inconsistent for device state where every account is there.
   */
  lemma RefusalNamesTheSection(env: Env, s: Store, l: Listing, parts: seq<bytes>, k: nat)
    requires Written(env, s, l) && parts == Suffixes(env, l)
    requires 1 <= k < 7 && NamedBefore(env, s, k) && !Named(env, s, k)
    ensures var r := TryRestore(env, Layout(env, l)); r.Bad? && SaysWhy(k, AllHeld(s, k), r.error)
  {
    LayoutAnswers(env, s, l, parts);
    var why := SectionRefuses(env, s, parts, k);
    StopsFrom(env, s, l, parts, k, why);
  }

  // What older servers wrote.

  function LegacyFrom(env: Env, l: Listing, k: nat): bytes
    requires Countable(l)
    decreases 4 - k
  {
    if k == 0 then PutRows(TenantCodec(env), Each(l.tenants, TenantRowOf), LegacyFrom(env, l, 1))
    else if k == 1 then PutRows(KeyCodec(env), Each(l.apiKeys, KeyRowOf), LegacyFrom(env, l, 2))
    else if k == 2 then PutRows(UserCodec(env), Each(l.users, UserRowOf), LegacyFrom(env, l, 3))
    else if k == 3 then PutRows(SessionCodec(env), Each(l.sessions, SessionRowOf), [])
    else []
  }

  /** Nothing of a device is stored. */
  predicate NoDevices(s: Store) { s.inventories == map[] && s.links == map[] && s.lifecycle == map[] }

  lemma LegacyReturns(env: Env, s: Store, l: Listing, k: nat, b: bytes, rest: bytes, admitted: bool)
    requires Written(env, s, l) && k < 4 && (admitted ==> NamedBefore(env, s, 4))
    requires b == LegacyFrom(env, l, k) && rest == LegacyFrom(env, l, k + 1)
    ensures Returns(env, s, k, b, rest, admitted)
  {
    if k == 0 { TenantsReturn(env, s, l.tenants, b, rest, admitted); }
    else if k == 1 { ApiKeysReturn(env, s, l.apiKeys, b, rest, admitted); }
    else if k == 2 { UsersReturn(env, s, l.users, b, rest, admitted); }
    else { SessionsReturn(env, s, l.sessions, b, rest, admitted); }
  }

  lemma LegacyStep(env: Env, s: Store, k: nat, b: bytes, rest: bytes, admitted: bool, whole: Parse<Store, RestoreError>)
    requires k < 4 && Returns(env, s, k, b, rest, admitted)
    requires whole == TakeAll(Taker(env), Missing(false), k + 1, 4, Part(s, k + 1), rest)
    requires ReadsAs(whole, Part(s, 4), [], admitted)
    ensures ReadsAs(TakeAll(Taker(env), Missing(false), k, 4, Part(s, k), b), Part(s, 4), [], admitted)
  {
    if TakeSection(env, k, Part(s, k), b).Got? {
      TakesOne(Taker(env), Missing(false), k, 4, Part(s, k), b, Part(s, k + 1), rest);
    }
  }

  lemma {:induction false} LegacySections(env: Env, s: Store, l: Listing, k: nat, admitted: bool)
    requires Written(env, s, l) && k <= 4 && (admitted ==> NamedBefore(env, s, 4))
    ensures ReadsAs(TakeAll(Taker(env), Missing(false), k, 4, Part(s, k), LegacyFrom(env, l, k)), Part(s, 4), [],
                    admitted)
    decreases 4 - k
  {
    if k < 4 {
      LegacySections(env, s, l, k + 1, admitted);
      LegacyReturns(env, s, l, k, LegacyFrom(env, l, k), LegacyFrom(env, l, k + 1), admitted);
      LegacyStep(env, s, k, LegacyFrom(env, l, k), LegacyFrom(env, l, k + 1), admitted,
        TakeAll(Taker(env), Missing(false), k + 1, 4, Part(s, k + 1), LegacyFrom(env, l, k + 1)));
    }
  }

  /** Fewer tenants than the header would count cannot look like the header. */
  lemma LegacyIsHeadless(env: Env, l: Listing, b: bytes)
    requires Countable(l) && |l.tenants| < 0xFFFF_FFFF && b == LegacyFrom(env, l, 0)
    ensures !(HEADER <= b)
  {
    var rows := PutMany(Each(l.tenants, TenantRowOf), TenantCodec(env).put, LegacyFrom(env, l, 1));
    assert b == U32(|l.tenants|) + rows;
    assert b[..4] == U32(|l.tenants|);
    HeaderStarts(b);
  }

  lemma HeaderStarts(b: bytes)
    requires |b| >= 4 && b[..4] != [0xFF, 0xFF, 0xFF, 0xFF]
    ensures !(HEADER <= b)
  {
    assert HEADER[..4] == [0xFF, 0xFF, 0xFF, 0xFF];
  }

  /**
    The four sections older servers wrote, with no header: they restore if and only if the
    store holds together, and then to the same store, which has no devices.
   */
  lemma LegacyRestores(env: Env, s: Store, l: Listing, b: bytes)
    requires Written(env, s, l) && NoDevices(s) && |l.tenants| < 0xFFFF_FFFF && b == LegacyFrom(env, l, 0)
    ensures TryRestore(env, b).Whole? <==> Integrity(env, s)
    ensures Integrity(env, s) ==> TryRestore(env, b) == Whole(Relabel(s))
  {
    LegacyIsHeadless(env, l, b);
    if Integrity(env, s) { IntegrityNames(env, s); }
    LegacySections(env, s, l, 0, Integrity(env, s));
    NothingFirst(s);
    FourIsAll(s);
    LegacyEnds(env, s, b, Integrity(env, s));
    if TryRestore(env, b).Whole? {
      AcceptedHoldsTogether(env, b);
      RelabelHolds(env, s);
    }
  }

  lemma LegacyEnds(env: Env, s: Store, b: bytes, admitted: bool)
    requires !(HEADER <= b)
    requires ReadsAs(TakeAll(Taker(env), Missing(false), 0, 4, Nothing, b), Relabel(s), [], admitted)
    ensures TryRestore(env, b).Whole? ==> TryRestore(env, b) == Whole(Relabel(s))
    ensures admitted ==> TryRestore(env, b).Whole?
  {
  }

  lemma FourIsAll(s: Store)
    requires NoDevices(s)
    ensures Part(s, 4) == Relabel(s)
  {
  }

  // The records byte by byte.

  /** A string behind its length. */
  function Str(x: bytes): bytes
    requires Fits32(x)
  {
    U32(|x|) + x
  }

  lemma TextIs(x: bytes, tail: bytes)
    requires Fits32(x)
    ensures PutText(x, tail) == Str(x) + tail && PutText(x, []) == Str(x)
  {
  }

  /** A tenant: id, username, e-mail, password hash. */
  lemma TenantBytes(env: Env, id: bytes, t: Tenant)
    requires TenantCodec(env).ok(TenantRowOf((id, t)))
    ensures TenantCodec(env).put(TenantRowOf((id, t)), [])
            == Str(id) + (Str(t.username) + (Str(t.email) + Str(t.password)))
  {
    TextIs(t.password, []);
    TextIs(t.email, Str(t.password));
    TextIs(t.username, Str(t.email) + Str(t.password));
    TextIs(id, Str(t.username) + (Str(t.email) + Str(t.password)));
  }

  /** A key: its hash, tenant, prefix, label (none is the empty one), creation time. */
  lemma KeyBytes(env: Env, hash: key32, k: ApiKey)
    requires KeyCodec(env).ok(KeyRowOf((hash, k)))
    ensures var alias := if k.alias.Some? then k.alias.value else [];
            KeyCodec(env).put(KeyRowOf((hash, k)), [])
            == hash + (Str(k.tenant) + (Str(k.prefix) + (Str(alias) + U64(k.created))))
  {
    var alias, created := AliasText(k.alias), U64(k.created);
    assert Word.put(k.created, []) == created;
    TextIs(alias, created);
    TextIs(k.prefix, Str(alias) + created);
    TextIs(k.tenant, Str(k.prefix) + (Str(alias) + created));
    var rest := Str(k.tenant) + (Str(k.prefix) + (Str(alias) + created));
    assert Hash.put(hash, rest) == hash + rest;
  }

  /** A user: tenant, name, password hash. */
  lemma UserBytes(env: Env, who: Account, password: bytes)
    requires UserCodec(env).ok(UserRowOf((who, password)))
    ensures UserCodec(env).put(UserRowOf((who, password)), []) == Str(who.0) + (Str(who.1) + Str(password))
  {
    TextIs(password, []);
    TextIs(who.1, Str(password));
    TextIs(who.0, Str(who.1) + Str(password));
  }

  /** A session: the hash of its token, tenant, name, expiry. */
  lemma SessionBytes(env: Env, token: key32, x: Session)
    requires SessionCodec(env).ok(SessionRowOf((token, x)))
    ensures SessionCodec(env).put(SessionRowOf((token, x)), [])
            == token + (Str(x.who.0) + (Str(x.who.1) + U64(x.expires)))
  {
    assert Word.put(x.expires, []) == U64(x.expires);
    TextIs(x.who.1, U64(x.expires));
    TextIs(x.who.0, Str(x.who.1) + U64(x.expires));
    var rest := Str(x.who.0) + (Str(x.who.1) + U64(x.expires));
    assert Hash.put(token, rest) == token + rest;
  }
}
