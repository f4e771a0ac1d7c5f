/**
  The account snapshot written and read back: for whatever order the maps are walked in
  it restores the store, but for empty key labels.
 */
module PersistRoundTrip {
  import opened Bytes
  import opened Order
  import opened Codec
  import opened Sections
  import opened Inventory
  import opened InventoryStore
  import opened Persist

  // The snapshot, for whatever order the maps are walked in.

  datatype Listing = Listing(
    tenants: seq<(bytes, Tenant)>,
    apiKeys: seq<(key32, ApiKey)>,
    users: seq<(Account, bytes)>,
    sessions: seq<(key32, Session)>,
    inventories: seq<(Account, DeviceInventory)>,
    links: seq<(RetryKey, InventoryMutation)>,
    lifecycle: seq<(RetryKey, LifecycleMutation)>)

  ghost predicate ListsStore(s: Store, l: Listing) {
    && Lists(s.tenants, l.tenants) && Lists(s.apiKeys, l.apiKeys) && Lists(s.users, l.users)
      && Lists(s.sessions, l.sessions)
    && Lists(s.inventories, l.inventories) && Lists(s.links, l.links) && Lists(s.lifecycle, l.lifecycle)
  }

  function TenantRowOf(e: (bytes, Tenant)): TenantRow { (e.0, (e.1.username, (e.1.email, e.1.password))) }

  function AliasText(alias: Option<bytes>): bytes { if alias.None? then [] else alias.value }

  function KeyRowOf(e: (key32, ApiKey)): KeyRow {
    (e.0, (e.1.tenant, (e.1.prefix, (AliasText(e.1.alias), e.1.created))))
  }

  function UserRowOf(e: (Account, bytes)): UserRow { (e.0.0, (e.0.1, e.1)) }

  function SessionRowOf(e: (key32, Session)): SessionRow { (e.0, (e.1.who.0, (e.1.who.1, e.1.expires))) }

  function StateRowOf(e: (Account, DeviceInventory)): StateRow { (e.0.0, (e.0.1, e.1)) }

  function LinkRowOf(e: (RetryKey, InventoryMutation)): LinkRow {
    (e.0.0.0, (e.0.0.1, (e.0.1, (e.1.predecessor, (e.1.binding, e.1.result)))))
  }

  function LifecycleRowOf(e: (RetryKey, LifecycleMutation)): LifecycleRow {
    (e.0.0.0, (e.0.0.1, (e.0.1, (e.1.request, e.1.result))))
  }

  predicate Countable(l: Listing) {
    && |l.tenants| < 0x1_0000_0000 && |l.apiKeys| < 0x1_0000_0000 && |l.users| < 0x1_0000_0000
      && |l.sessions| < 0x1_0000_0000
    && |l.inventories| < 0x1_0000_0000 && |l.links| < 0x1_0000_0000 && |l.lifecycle| < 0x1_0000_0000
  }

  // The snapshot from each section on, the last one first.

  function FromLifecycleRecords(env: Env, l: Listing): bytes
    requires Countable(l)
  {
    PutRows(LifecycleRowCodec(env), Each(l.lifecycle, LifecycleRowOf), [])
  }

  function FromLinks(env: Env, l: Listing): bytes
    requires Countable(l)
  {
    PutRows(LinkCodec(env), Each(l.links, LinkRowOf), FromLifecycleRecords(env, l))
  }

  function FromInventories(env: Env, l: Listing): bytes
    requires Countable(l)
  {
    PutRows(StateRowCodec(env), Each(l.inventories, StateRowOf), FromLinks(env, l))
  }

  function FromSessions(env: Env, l: Listing): bytes
    requires Countable(l)
  {
    PutRows(SessionCodec(env), Each(l.sessions, SessionRowOf), FromInventories(env, l))
  }

  function FromUsers(env: Env, l: Listing): bytes
    requires Countable(l)
  {
    PutRows(UserCodec(env), Each(l.users, UserRowOf), FromSessions(env, l))
  }

  function FromApiKeys(env: Env, l: Listing): bytes
    requires Countable(l)
  {
    PutRows(KeyCodec(env), Each(l.apiKeys, KeyRowOf), FromUsers(env, l))
  }

  function FromTenants(env: Env, l: Listing): bytes
    requires Countable(l)
  {
    PutRows(TenantCodec(env), Each(l.tenants, TenantRowOf), FromApiKeys(env, l))
  }

  function Layout(env: Env, l: Listing): bytes
    requires Countable(l)
  {
    HEADER + FromTenants(env, l)
  }

  /** A key whose alias is the empty string comes back with none. */
  function Unaliased(k: ApiKey): ApiKey { k.(alias := Aliased(AliasText(k.alias))) }

  function Relabelled(m: map<key32, ApiKey>): map<key32, ApiKey> { Mapped(m, Unaliased) }

  /** The first `k` maps of a store, as they come back. */
  function Part(s: Store, k: nat): Store {
    Store(if k > 0 then s.tenants else map[],
          if k > 1 then Relabelled(s.apiKeys) else map[],
          if k > 2 then s.users else map[],
          if k > 3 then s.sessions else map[],
          if k > 4 then s.inventories else map[],
          if k > 5 then s.links else map[],
          if k > 6 then s.lifecycle else map[])
  }

  // Every field fits: text is valid and below four gigabytes, and an inventory within its bounds.

  ghost predicate TenantsStorable(env: Env, s: Store) {
    forall k | k in s.tenants :: TenantCodec(env).ok(TenantRowOf((k, s.tenants[k])))
  }

  ghost predicate ApiKeysStorable(env: Env, s: Store) {
    forall k | k in s.apiKeys :: KeyCodec(env).ok(KeyRowOf((k, s.apiKeys[k])))
  }

  ghost predicate UsersStorable(env: Env, s: Store) {
    forall k | k in s.users :: UserCodec(env).ok(UserRowOf((k, s.users[k])))
  }

  ghost predicate SessionsStorable(env: Env, s: Store) {
    forall k | k in s.sessions :: SessionCodec(env).ok(SessionRowOf((k, s.sessions[k])))
  }

  ghost predicate InventoriesStorable(env: Env, s: Store) {
    forall k | k in s.inventories :: StateRowCodec(env).ok(StateRowOf((k, s.inventories[k])))
  }

  ghost predicate LinksStorable(env: Env, s: Store) {
    forall k | k in s.links :: LinkCodec(env).ok(LinkRowOf((k, s.links[k])))
  }

  ghost predicate LifecycleRecordsStorable(env: Env, s: Store) {
    forall k | k in s.lifecycle :: LifecycleRowCodec(env).ok(LifecycleRowOf((k, s.lifecycle[k])))
  }

  ghost predicate Storable(env: Env, s: Store) {
    && TenantsStorable(env, s) && ApiKeysStorable(env, s) && UsersStorable(env, s) && SessionsStorable(env, s)
    && InventoriesStorable(env, s) && LinksStorable(env, s) && LifecycleRecordsStorable(env, s)
  }

  /** A store that can be written, and the entries of its maps in some order. */
  ghost predicate Written(env: Env, s: Store, l: Listing) { Storable(env, s) && ListsStore(s, l) && Countable(l) }

  /** Section `k`, read where it was written, adds the `k`-th map or is refused; if admitted it is not refused. */
  ghost predicate Returns(env: Env, s: Store, k: nat, b: bytes, rest: bytes, admitted: bool)
    requires k < 7
  {
    b != [] && ReadsAs(TakeSection(env, k, Part(s, k), b), Part(s, k + 1), rest, admitted)
  }

  function Same<T>(x: T): T { x }

  lemma MappedSame<K, V>(m: map<K, V>)
    ensures Mapped(m, Same) == m
  {
  }

  // A section of each kind: adding the row of an entry writes the entry, unless what it names is not there.

  lemma TenantsRead(c: Codec<TenantRow>, base: Store, m: map<bytes, Tenant>, entries: seq<(bytes, Tenant)>, tail: bytes)
    requires Canonical(c) && base.tenants == map[] && Lists(m, entries) && |entries| < 0x1_0000_0000
    requires forall k | k in m :: c.ok(TenantRowOf((k, m[k])))
    ensures var b := PutRows(c, Each(entries, TenantRowOf), tail);
            b != [] && ReadsAs(TakeRows(c, AddTenant, Malformed, b, base), base.(tenants := m), tail, true)
  {
    var put := (x: map<bytes, Tenant>) => base.(tenants := x);
    assert put(map[]) == base;
    MappedSame(m);
    MapReads(c, AddTenant, Malformed, put, m, entries, TenantRowOf, Same, tail, true);
  }

  lemma ApiKeysRead(c: Codec<KeyRow>, base: Store, m: map<key32, ApiKey>, entries: seq<(key32, ApiKey)>, tail: bytes,
        admitted: bool)
    requires Canonical(c) && base.apiKeys == map[] && Lists(m, entries) && |entries| < 0x1_0000_0000
    requires forall k | k in m :: c.ok(KeyRowOf((k, m[k])))
    requires admitted ==> forall k | k in m :: m[k].tenant in base.tenants
    ensures var b := PutRows(c, Each(entries, KeyRowOf), tail);
            b != [] && ReadsAs(TakeRows(c, AddKey, Malformed, b, base), base.(apiKeys := Relabelled(m)), tail, admitted)
  {
    var put := (x: map<key32, ApiKey>) => base.(apiKeys := x);
    assert put(map[]) == base;
    MapReads(c, AddKey, Malformed, put, m, entries, KeyRowOf, Unaliased, tail, admitted);
  }

  lemma UsersRead(c: Codec<UserRow>, base: Store, m: map<Account, bytes>, entries: seq<(Account, bytes)>, tail: bytes,
        admitted: bool)
    requires Canonical(c) && base.users == map[] && Lists(m, entries) && |entries| < 0x1_0000_0000
    requires forall k | k in m :: c.ok(UserRowOf((k, m[k])))
    requires admitted ==> forall k | k in m :: k.0 in base.tenants
    ensures var b := PutRows(c, Each(entries, UserRowOf), tail);
            b != [] && ReadsAs(TakeRows(c, AddUser, Malformed, b, base), base.(users := m), tail, admitted)
  {
    var put := (x: map<Account, bytes>) => base.(users := x);
    assert put(map[]) == base;
    MappedSame(m);
    MapReads(c, AddUser, Malformed, put, m, entries, UserRowOf, Same, tail, admitted);
  }

  lemma SessionsRead(c: Codec<SessionRow>, base: Store, m: map<key32, Session>, entries: seq<(key32, Session)>,
        tail: bytes, admitted: bool)
    requires Canonical(c) && base.sessions == map[] && Lists(m, entries) && |entries| < 0x1_0000_0000
    requires forall k | k in m :: c.ok(SessionRowOf((k, m[k])))
    requires admitted ==> forall k | k in m :: m[k].who in base.users
    ensures var b := PutRows(c, Each(entries, SessionRowOf), tail);
            b != [] && ReadsAs(TakeRows(c, AddSession, Malformed, b, base), base.(sessions := m), tail, admitted)
  {
    var put := (x: map<key32, Session>) => base.(sessions := x);
    assert put(map[]) == base;
    MappedSame(m);
    MapReads(c, AddSession, Malformed, put, m, entries, SessionRowOf, Same, tail, admitted);
  }

  lemma InventoriesRead(env: Env, c: Codec<StateRow>, base: Store, m: map<Account, DeviceInventory>,
        entries: seq<(Account, DeviceInventory)>, tail: bytes, admitted: bool)
    requires Canonical(c) && base.inventories == map[] && Lists(m, entries) && |entries| < 0x1_0000_0000
    requires forall k | k in m :: c.ok(StateRowOf((k, m[k])))
    requires admitted ==> forall k | k in m :: StateOk(env, base, k, m[k])
    ensures var b := PutRows(c, Each(entries, StateRowOf), tail);
            b != [] && ReadsAs(TakeRows(c, AddState(env), Malformed, b, base), base.(inventories := m), tail, admitted)
  {
    var put := (x: map<Account, DeviceInventory>) => base.(inventories := x);
    assert put(map[]) == base;
    MappedSame(m);
    MapReads(c, AddState(env), Malformed, put, m, entries, StateRowOf, Same, tail, admitted);
  }

  lemma LinksRead(env: Env, c: Codec<LinkRow>, base: Store, m: map<RetryKey, InventoryMutation>,
        entries: seq<(RetryKey, InventoryMutation)>, tail: bytes, admitted: bool)
    requires Canonical(c) && base.links == map[] && Lists(m, entries) && |entries| < 0x1_0000_0000
    requires forall k | k in m :: c.ok(LinkRowOf((k, m[k])))
    requires admitted ==> forall k | k in m ::
             StateOk(env, base, k.0, m[k].result)
             && m[k].result.generation > m[k].predecessor
    ensures var b := PutRows(c, Each(entries, LinkRowOf), tail);
            b != [] && ReadsAs(TakeRows(c, AddLink(env), Malformed, b, base), base.(links := m), tail, admitted)
  {
    var put := (x: map<RetryKey, InventoryMutation>) => base.(links := x);
    assert put(map[]) == base;
    MappedSame(m);
    MapReads(c, AddLink(env), Malformed, put, m, entries, LinkRowOf, Same, tail, admitted);
  }

  lemma LifecycleRecordsRead(env: Env, c: Codec<LifecycleRow>, base: Store, m: map<RetryKey, LifecycleMutation>,
        entries: seq<(RetryKey, LifecycleMutation)>, tail: bytes, admitted: bool)
    requires Canonical(c) && base.lifecycle == map[] && Lists(m, entries) && |entries| < 0x1_0000_0000
    requires forall k | k in m :: c.ok(LifecycleRowOf((k, m[k])))
    requires admitted ==> forall k | k in m ::
             StateOk(env, base, k.0, m[k].result)
             && m[k].result.generation > m[k].request.predecessor && k !in base.links
    ensures var b := PutRows(c, Each(entries, LifecycleRowOf), tail);
            b != [] && ReadsAs(TakeRows(c, AddLifecycle(env), Malformed, b, base), base.(lifecycle := m), tail,
              admitted)
  {
    var put := (x: map<RetryKey, LifecycleMutation>) => base.(lifecycle := x);
    assert put(map[]) == base;
    MappedSame(m);
    MapReads(c, AddLifecycle(env), Malformed, put, m, entries, LifecycleRowOf, Same, tail, admitted);
  }

  // What each section asks of the store, which together is that it holds together.

  ghost predicate ApiKeysNamed(s: Store) {
    forall k | k in s.apiKeys :: s.apiKeys[k].tenant in s.tenants
  }

  ghost predicate UsersNamed(s: Store) {
    forall k | k in s.users :: k.0 in s.tenants
  }

  ghost predicate SessionsNamed(s: Store) {
    forall k | k in s.sessions :: s.sessions[k].who in s.users
  }

  ghost predicate InventoriesNamed(env: Env, s: Store) {
    forall k | k in s.inventories :: StateOk(env, s, k, s.inventories[k])
  }

  ghost predicate LinksNamed(env: Env, s: Store) {
    forall k | k in s.links ::
      StateOk(env, s, k.0, s.links[k].result)
      && s.links[k].result.generation > s.links[k].predecessor
  }

  ghost predicate LifecycleRecordsNamed(env: Env, s: Store) {
    forall k | k in s.lifecycle ::
      StateOk(env, s, k.0, s.lifecycle[k].result)
      && s.lifecycle[k].result.generation > s.lifecycle[k].request.predecessor && k !in s.links
  }

  lemma IntegrityNames(env: Env, s: Store)
    requires Integrity(env, s)
    ensures ApiKeysNamed(s) && UsersNamed(s) && SessionsNamed(s)
    ensures InventoriesNamed(env, s) && LinksNamed(env, s) && LifecycleRecordsNamed(env, s)
  {
  }

  // Section by section, wherever it stands.

  lemma TenantsReturn(env: Env, s: Store, entries: seq<(bytes, Tenant)>, b: bytes, rest: bytes, admitted: bool)
    requires TenantsStorable(env, s) && Lists(s.tenants, entries) && |entries| < 0x1_0000_0000
    requires b == PutRows(TenantCodec(env), Each(entries, TenantRowOf), rest)
    ensures Returns(env, s, 0, b, rest, admitted)
  {
    TenantRowsCanonical(env);
    TenantsRead(TenantCodec(env), Part(s, 0), s.tenants, entries, rest);
  }

  lemma ApiKeysReturn(env: Env, s: Store, entries: seq<(key32, ApiKey)>, b: bytes, rest: bytes, admitted: bool)
    requires ApiKeysStorable(env, s) && Lists(s.apiKeys, entries) && |entries| < 0x1_0000_0000
    requires b == PutRows(KeyCodec(env), Each(entries, KeyRowOf), rest)
    requires admitted ==> ApiKeysNamed(s)
    ensures Returns(env, s, 1, b, rest, admitted)
  {
    KeyRowsCanonical(env);
    ApiKeysRead(KeyCodec(env), Part(s, 1), s.apiKeys, entries, rest, admitted);
  }

  lemma UsersReturn(env: Env, s: Store, entries: seq<(Account, bytes)>, b: bytes, rest: bytes, admitted: bool)
    requires UsersStorable(env, s) && Lists(s.users, entries) && |entries| < 0x1_0000_0000
    requires b == PutRows(UserCodec(env), Each(entries, UserRowOf), rest)
    requires admitted ==> UsersNamed(s)
    ensures Returns(env, s, 2, b, rest, admitted)
  {
    TenantRowsCanonical(env);
    UsersRead(UserCodec(env), Part(s, 2), s.users, entries, rest, admitted);
  }

  lemma SessionsReturn(env: Env, s: Store, entries: seq<(key32, Session)>, b: bytes, rest: bytes, admitted: bool)
    requires SessionsStorable(env, s) && Lists(s.sessions, entries) && |entries| < 0x1_0000_0000
    requires b == PutRows(SessionCodec(env), Each(entries, SessionRowOf), rest)
    requires admitted ==> SessionsNamed(s)
    ensures Returns(env, s, 3, b, rest, admitted)
  {
    KeyRowsCanonical(env);
    SessionsRead(SessionCodec(env), Part(s, 3), s.sessions, entries, rest, admitted);
  }

  lemma InventoriesReturn(env: Env, s: Store, entries: seq<(Account, DeviceInventory)>, b: bytes, rest: bytes,
        admitted: bool)
    requires InventoriesStorable(env, s) && Lists(s.inventories, entries) && |entries| < 0x1_0000_0000
    requires b == PutRows(StateRowCodec(env), Each(entries, StateRowOf), rest)
    requires admitted ==> InventoriesNamed(env, s)
    ensures Returns(env, s, 4, b, rest, admitted)
  {
    StateRowsCanonical(env);
    InventoriesRead(env, StateRowCodec(env), Part(s, 4), s.inventories, entries, rest, admitted);
  }

  lemma LinksReturn(env: Env, s: Store, entries: seq<(RetryKey, InventoryMutation)>, b: bytes, rest: bytes,
        admitted: bool)
    requires LinksStorable(env, s) && Lists(s.links, entries) && |entries| < 0x1_0000_0000
    requires b == PutRows(LinkCodec(env), Each(entries, LinkRowOf), rest)
    requires admitted ==> LinksNamed(env, s)
    ensures Returns(env, s, 5, b, rest, admitted)
  {
    LinkRowsCanonical(env);
    LinksRead(env, LinkCodec(env), Part(s, 5), s.links, entries, rest, admitted);
  }

  lemma LastSection(env: Env, s: Store, b: bytes, rest: bytes, admitted: bool)
    requires b != []
    requires ReadsAs(TakeRows(LifecycleRowCodec(env), AddLifecycle(env), Malformed, b, Part(s, 6)),
                     Part(s, 6).(lifecycle := s.lifecycle), rest, admitted)
    ensures Returns(env, s, 6, b, rest, admitted)
  {
    assert Part(s, 6).(lifecycle := s.lifecycle) == Part(s, 7);
  }

  lemma LifecycleRecordsReturn(env: Env, s: Store, entries: seq<(RetryKey, LifecycleMutation)>, b: bytes, rest: bytes,
        admitted: bool)
    requires LifecycleRecordsStorable(env, s) && Lists(s.lifecycle, entries) && |entries| < 0x1_0000_0000
    requires b == PutRows(LifecycleRowCodec(env), Each(entries, LifecycleRowOf), rest)
    requires admitted ==> LifecycleRecordsNamed(env, s)
    ensures Returns(env, s, 6, b, rest, admitted)
  {
    LifecycleRowsCanonical(env);
    LifecycleRecordsRead(env, LifecycleRowCodec(env), Part(s, 6), s.lifecycle, entries, rest, admitted);
    LastSection(env, s, b, rest, admitted);
  }

  /** The snapshot from section `k` on. */
  function From(env: Env, l: Listing, k: nat): bytes
    requires Countable(l)
  {
    if k == 0 then FromTenants(env, l)
    else if k == 1 then FromApiKeys(env, l)
    else if k == 2 then FromUsers(env, l)
    else if k == 3 then FromSessions(env, l)
    else if k == 4 then FromInventories(env, l)
    else if k == 5 then FromLinks(env, l)
    else if k == 6 then FromLifecycleRecords(env, l)
    else []
  }

  lemma Section0(env: Env, s: Store, l: Listing, admitted: bool)
    requires TenantsStorable(env, s) && Lists(s.tenants, l.tenants) && Countable(l)
    ensures Returns(env, s, 0, From(env, l, 0), From(env, l, 1), admitted)
  {
    TenantsReturn(env, s, l.tenants, FromTenants(env, l), FromApiKeys(env, l), admitted);
  }

  lemma Section1(env: Env, s: Store, l: Listing, admitted: bool)
    requires ApiKeysStorable(env, s) && Lists(s.apiKeys, l.apiKeys) && Countable(l) && (admitted ==> ApiKeysNamed(s))
    ensures Returns(env, s, 1, From(env, l, 1), From(env, l, 2), admitted)
  {
    ApiKeysReturn(env, s, l.apiKeys, FromApiKeys(env, l), FromUsers(env, l), admitted);
  }

  lemma Section2(env: Env, s: Store, l: Listing, admitted: bool)
    requires UsersStorable(env, s) && Lists(s.users, l.users) && Countable(l) && (admitted ==> UsersNamed(s))
    ensures Returns(env, s, 2, From(env, l, 2), From(env, l, 3), admitted)
  {
    UsersReturn(env, s, l.users, FromUsers(env, l), FromSessions(env, l), admitted);
  }

  lemma Section3(env: Env, s: Store, l: Listing, admitted: bool)
    requires SessionsStorable(env, s) && Lists(s.sessions, l.sessions) && Countable(l)
             && (admitted ==> SessionsNamed(s))
    ensures Returns(env, s, 3, From(env, l, 3), From(env, l, 4), admitted)
  {
    SessionsReturn(env, s, l.sessions, FromSessions(env, l), FromInventories(env, l), admitted);
  }

  lemma Section4(env: Env, s: Store, l: Listing, admitted: bool)
    requires InventoriesStorable(env, s) && Lists(s.inventories, l.inventories) && Countable(l)
             && (admitted ==> InventoriesNamed(env, s))
    ensures Returns(env, s, 4, From(env, l, 4), From(env, l, 5), admitted)
  {
    var b, rest := FromInventories(env, l), FromLinks(env, l);
    assert From(env, l, 4) == b && From(env, l, 5) == rest;
    assert b == PutRows(StateRowCodec(env), Each(l.inventories, StateRowOf), rest);
    InventoriesReturn(env, s, l.inventories, b, rest, admitted);
  }

  lemma Section5(env: Env, s: Store, l: Listing, admitted: bool)
    requires LinksStorable(env, s) && Lists(s.links, l.links) && Countable(l) && (admitted ==> LinksNamed(env, s))
    ensures Returns(env, s, 5, From(env, l, 5), From(env, l, 6), admitted)
  {
    var b, rest := FromLinks(env, l), FromLifecycleRecords(env, l);
    assert From(env, l, 5) == b && From(env, l, 6) == rest;
    assert b == PutRows(LinkCodec(env), Each(l.links, LinkRowOf), rest);
    LinksReturn(env, s, l.links, b, rest, admitted);
  }

  lemma Section6(env: Env, s: Store, l: Listing, admitted: bool)
    requires LifecycleRecordsStorable(env, s) && Lists(s.lifecycle, l.lifecycle) && Countable(l)
             && (admitted ==> LifecycleRecordsNamed(env, s))
    ensures Returns(env, s, 6, From(env, l, 6), From(env, l, 7), admitted)
  {
    var b := FromLifecycleRecords(env, l);
    assert From(env, l, 6) == b && From(env, l, 7) == [];
    assert b == PutRows(LifecycleRowCodec(env), Each(l.lifecycle, LifecycleRowOf), []);
    LifecycleRecordsReturn(env, s, l.lifecycle, b, [], admitted);
  }

  lemma SectionReturns(env: Env, s: Store, l: Listing, k: nat, admitted: bool)
    requires Written(env, s, l) && k < 7 && (admitted ==> Integrity(env, s))
    ensures Returns(env, s, k, From(env, l, k), From(env, l, k + 1), admitted)
  {
    if admitted { IntegrityNames(env, s); }
    if k == 0 { Section0(env, s, l, admitted); }
    else if k == 1 { Section1(env, s, l, admitted); }
    else if k == 2 { Section2(env, s, l, admitted); }
    else if k == 3 { Section3(env, s, l, admitted); }
    else if k == 4 { Section4(env, s, l, admitted); }
    else if k == 5 { Section5(env, s, l, admitted); }
    else { Section6(env, s, l, admitted); }
  }

  lemma {:induction false} SectionsReturn(env: Env, s: Store, l: Listing, k: nat)
    requires Written(env, s, l) && k <= 7
    ensures ReadsAs(TakeAll(Taker(env), Missing(true), k, 7, Part(s, k), From(env, l, k)), Part(s, 7), [],
            Integrity(env, s))
    decreases 7 - k
  {
    if k < 7 {
      SectionReturns(env, s, l, k, Integrity(env, s));
      SectionsReturn(env, s, l, k + 1);
      OneReturns(env, s, k, From(env, l, k), From(env, l, k + 1), Integrity(env, s));
    }
  }

  /** A section that is refused ends the restore, and one that is read leads to the next. */
  lemma OneReturns(env: Env, s: Store, k: nat, b: bytes, rest: bytes, admitted: bool)
    requires k < 7 && Returns(env, s, k, b, rest, admitted)
    ensures var p := TakeAll(Taker(env), Missing(true), k, 7, Part(s, k), b);
            p == (if TakeSection(env, k, Part(s, k), b).Got? then
              TakeAll(Taker(env), Missing(true), k + 1, 7, Part(s, k + 1), rest)
                  else Stop(TakeSection(env, k, Part(s, k), b).why))
  {
    if TakeSection(env, k, Part(s, k), b).Got? {
      TakesOne(Taker(env), Missing(true), k, 7, Part(s, k), b, Part(s, k + 1), rest);
    }
  }

  function Relabel(s: Store): Store { s.(apiKeys := Relabelled(s.apiKeys)) }

  lemma WholeIsRelabelled(env: Env, s: Store, l: Listing)
    requires Written(env, s, l)
    ensures TryRestore(env, Layout(env, l)).Whole? ==> TryRestore(env, Layout(env, l)) == Whole(Relabel(s))
    ensures Integrity(env, s) ==> TryRestore(env, Layout(env, l)).Whole?
  {
    SectionsReturn(env, s, l, 0);
    LayoutIsHeaded(env, l);
    WholeIsAll(s, TakeAll(Taker(env), Missing(true), 0, 7, Nothing, From(env, l, 0)), Integrity(env, s));
  }

  lemma LayoutIsHeaded(env: Env, l: Listing)
    requires Countable(l)
    ensures TryRestore(env, Layout(env, l)) == Ended(TakeAll(Taker(env), Missing(true), 0, 7, Nothing, From(env, l, 0)))
  {
    var b := FromTenants(env, l);
    assert (HEADER + b)[8..] == b && HEADER <= HEADER + b;
  }

  lemma WholeIsAll(s: Store, p: Parse<Store, RestoreError>, admitted: bool)
    requires ReadsAs(p, Part(s, 7), [], admitted)
    ensures (Ended(p).Whole? ==> Ended(p) == Whole(Relabel(s))) && (admitted ==> Ended(p).Whole?)
  {
    assert Part(s, 7) == Relabel(s);
  }

  /** Labels play no part in holding together. */
  lemma RelabelHolds(env: Env, s: Store)
    requires Integrity(env, Relabel(s))
    ensures Integrity(env, s)
  {
    forall k | k in s.apiKeys ensures s.apiKeys[k].tenant in s.tenants
    {
      assert Relabel(s).apiKeys[k].tenant == s.apiKeys[k].tenant;
    }
    assert forall who, inv | StateOk(env, Relabel(s), who, inv) :: StateOk(env, s, who, inv);
  }

  /**
    In whatever order the maps were walked, the snapshot of a store restores if and only if
    the store holds together, and then to the store itself with empty key labels gone.
   */
  lemma SnapshotRestores(env: Env, s: Store, l: Listing)
    requires Written(env, s, l)
    ensures TryRestore(env, Layout(env, l)).Whole? <==> Integrity(env, s)
    ensures Integrity(env, s) ==> TryRestore(env, Layout(env, l)) == Whole(Relabel(s))
  {
    WholeIsRelabelled(env, s, l);
    if TryRestore(env, Layout(env, l)).Whole? {
      AcceptedHoldsTogether(env, Layout(env, l));
      RelabelHolds(env, s);
    }
  }

  lemma RelabelledIsSame(m: map<key32, ApiKey>)
    ensures Relabelled(m) == m <==> forall k | k in m :: m[k].alias != Some([])
  {
    assert Relabelled(m).Keys == m.Keys;
    if forall k | k in m :: m[k].alias != Some([]) {
      forall k | k in m ensures Relabelled(m)[k] == m[k] {}
    } else {
      var k :| k in m && m[k].alias == Some([]);
      assert Relabelled(m)[k].alias == None;
    }
  }

  lemma SameWithout(s: Store, r: Restored)
    requires r == Whole(Relabel(s))
    ensures r == Whole(s) <==> forall k | k in s.apiKeys :: s.apiKeys[k].alias != Some([])
  {
    RelabelledIsSame(s.apiKeys);
  }

  /** The very same store comes back exactly when it holds together and no key has an empty label. */
  lemma SameStoreExactly(env: Env, s: Store, l: Listing)
    requires Written(env, s, l)
    ensures TryRestore(env, Layout(env, l)) == Whole(s) <==>
            Integrity(env, s) && forall k | k in s.apiKeys :: s.apiKeys[k].alias != Some([])
  {
    SnapshotRestores(env, s, l);
    if Integrity(env, s) { SameWithout(s, TryRestore(env, Layout(env, l))); }
  }

  // A tenant with one key whose label is the empty string.

  const Hashed: key32 := seq(32, _ => 0)
  const Nameless := Tenant([], [], [])
  const Labelled := ApiKey([], [], Some([]), 0)
  const OneKey := Nothing.(tenants := map[[] := Nameless], apiKeys := map[Hashed := Labelled])
  const OneKeyListed := Listing([([], Nameless)], [(Hashed, Labelled)], [], [], [], [], [])

  lemma OneKeyIsStorable(env: Env, s: Store)
    requires env.utf8([]) && s == OneKey
    ensures Storable(env, s)
  {
    assert TenantCodec(env).ok(TenantRowOf(([], Nameless)));
    assert KeyCodec(env).ok(KeyRowOf((Hashed, Labelled)));
  }

  lemma OneKeyIsListed(s: Store, l: Listing)
    requires s == OneKey && l == OneKeyListed
    ensures ListsStore(s, l) && Countable(l)
  {
    assert s.tenants.Keys == {[]} && s.apiKeys.Keys == {Hashed};
  }

  /** The snapshot of a store that holds together loses an empty label. */
  lemma LosesTheLabel(env: Env, s: Store, l: Listing, k: key32)
    requires Written(env, s, l) && Integrity(env, s) && k in s.apiKeys && s.apiKeys[k].alias == Some([])
    ensures var r := TryRestore(env, Layout(env, l));
            r.Whole? && k in r.store.apiKeys && r.store.apiKeys[k] == s.apiKeys[k].(alias := None)
  {
    SnapshotRestores(env, s, l);
    LabelGone(s, k, TryRestore(env, Layout(env, l)));
  }

  lemma LabelGone(s: Store, k: key32, r: Restored)
    requires r == Whole(Relabel(s)) && k in s.apiKeys && s.apiKeys[k].alias == Some([])
    ensures k in r.store.apiKeys && r.store.apiKeys[k] == s.apiKeys[k].(alias := None)
  {
    assert Relabelled(s.apiKeys)[k] == Unaliased(s.apiKeys[k]);
  }

  lemma OneKeyHolds(env: Env, s: Store)
    requires s == OneKey
    ensures Integrity(env, s)
  {
  }

  lemma OneKeyIsWritten(env: Env) returns (s: Store, l: Listing)
    requires env.utf8([])
    ensures s == OneKey && Written(env, s, l) && Integrity(env, s)
  {
    s, l := OneKey, OneKeyListed;
    OneKeyIsStorable(env, s);
    OneKeyIsListed(s, l);
    OneKeyHolds(env, s);
  }

  /** Wherever the empty string is text, this store restores and its key comes back with no label. */
  lemma EmptyLabelIsLost(env: Env) returns (s: Store, l: Listing)
    requires env.utf8([])
    ensures s == OneKey && Written(env, s, l) && Integrity(env, s)
    ensures var r := TryRestore(env, Layout(env, l));
            r.Whole? && Hashed in r.store.apiKeys && r.store.apiKeys[Hashed].alias == None
  {
    s, l := OneKeyIsWritten(env);
    LosesTheLabel(env, s, l, Hashed);
  }

  // The two routines of the source.

  method PutSection<R(!new)>(c: Codec<R>, out: bytes, rows: seq<R>) returns (r: bytes)
    requires |rows| < 0x1_0000_0000 && Canonical(c) && forall i | 0 <= i < |rows| :: c.ok(rows[i])
    ensures forall tail: bytes {:trigger PutRows(c, rows, tail)} :: r + tail == out + PutRows(c, rows, tail)
  {
    r := out + U32(|rows|);
    ghost var start := r;
    assert rows[0..] == rows;
    for i := 0 to |rows|
      invariant forall tail: bytes {:trigger PutMany(rows, c.put, tail)} ::
                r + PutMany(rows[i..], c.put, tail) == start + PutMany(rows, c.put, tail)
    {
      ghost var before := r;
      r := r + c.put(rows[i], []);
      forall tail: bytes {:trigger PutMany(rows, c.put, tail)}
        ensures r + PutMany(rows[i + 1..], c.put, tail) == start + PutMany(rows, c.put, tail) {
        OneRow(c, before, rows, i, tail);
      }
    }
    assert rows[|rows|..] == [];
    forall tail: bytes {:trigger PutRows(c, rows, tail)} ensures r + tail == out + PutRows(c, rows, tail) {
      var body := PutMany(rows, c.put, tail);
      Assoc(out, U32(|rows|), body);
    }
  }

  lemma OneRow<R(!new)>(c: Codec<R>, r: bytes, rows: seq<R>, i: nat, tail: bytes)
    requires Canonical(c) && i < |rows| && c.ok(rows[i])
    ensures r + c.put(rows[i], []) + PutMany(rows[i + 1..], c.put, tail) == r + PutMany(rows[i..], c.put, tail)
  {
    var rest := PutMany(rows[i + 1..], c.put, tail);
    assert rows[i..][1..] == rows[i + 1..];
    PutSize(c, rows[i], rest);
    Assoc(r, c.put(rows[i], []), rest);
  }

  /** `r` is `out` followed by a section: whatever comes next comes after its rows. */
  ghost predicate Wrote<R>(c: Codec<R>, out: bytes, r: bytes, rows: seq<R>) {
    |rows| < 0x1_0000_0000 && forall tail: bytes {:trigger PutRows(c, rows, tail)} ::
      r + tail == out + PutRows(c, rows, tail)
  }

  method PutMap<K(==), V, R(!new)>(c: Codec<R>, out: bytes, m: map<K, V>, row: ((K, V)) -> R)
        returns (r: bytes, ghost entries: seq<(K, V)>)
    requires |m| < 0x1_0000_0000 && Canonical(c) && forall k | k in m :: c.ok(row((k, m[k])))
    ensures Lists(m, entries) && Wrote(c, out, r, Each(entries, row))
  {
    var listed := ListEntries(m);
    RowsFit(m, listed, row, c.ok);
    entries := listed;
    r := PutSection(c, out, Each(listed, row));
  }

  method AppendTenants(env: Env, out: bytes, s: Store) returns (r: bytes, ghost entries: seq<(bytes, Tenant)>)
    requires TenantsStorable(env, s) && |s.tenants| < 0x1_0000_0000
    ensures Lists(s.tenants, entries) && Wrote(TenantCodec(env), out, r, Each(entries, TenantRowOf))
  {
    TenantRowsCanonical(env);
    r, entries := PutMap(TenantCodec(env), out, s.tenants, TenantRowOf);
  }

  method AppendApiKeys(env: Env, out: bytes, s: Store) returns (r: bytes, ghost entries: seq<(key32, ApiKey)>)
    requires ApiKeysStorable(env, s) && |s.apiKeys| < 0x1_0000_0000
    ensures Lists(s.apiKeys, entries) && Wrote(KeyCodec(env), out, r, Each(entries, KeyRowOf))
  {
    KeyRowsCanonical(env);
    r, entries := PutMap(KeyCodec(env), out, s.apiKeys, KeyRowOf);
  }

  method AppendUsers(env: Env, out: bytes, s: Store) returns (r: bytes, ghost entries: seq<(Account, bytes)>)
    requires UsersStorable(env, s) && |s.users| < 0x1_0000_0000
    ensures Lists(s.users, entries) && Wrote(UserCodec(env), out, r, Each(entries, UserRowOf))
  {
    TenantRowsCanonical(env);
    r, entries := PutMap(UserCodec(env), out, s.users, UserRowOf);
  }

  method AppendSessions(env: Env, out: bytes, s: Store) returns (r: bytes, ghost entries: seq<(key32, Session)>)
    requires SessionsStorable(env, s) && |s.sessions| < 0x1_0000_0000
    ensures Lists(s.sessions, entries) && Wrote(SessionCodec(env), out, r, Each(entries, SessionRowOf))
  {
    KeyRowsCanonical(env);
    r, entries := PutMap(SessionCodec(env), out, s.sessions, SessionRowOf);
  }

  method AppendInventories(env: Env, out: bytes, s: Store)
        returns (r: bytes, ghost entries: seq<(Account, DeviceInventory)>)
    requires InventoriesStorable(env, s) && |s.inventories| < 0x1_0000_0000
    ensures Lists(s.inventories, entries) && Wrote(StateRowCodec(env), out, r, Each(entries, StateRowOf))
  {
    StateRowsCanonical(env);
    r, entries := PutMap(StateRowCodec(env), out, s.inventories, StateRowOf);
  }

  method AppendLinks(env: Env, out: bytes, s: Store)
        returns (r: bytes, ghost entries: seq<(RetryKey, InventoryMutation)>)
    requires LinksStorable(env, s) && |s.links| < 0x1_0000_0000
    ensures Lists(s.links, entries) && Wrote(LinkCodec(env), out, r, Each(entries, LinkRowOf))
  {
    LinkRowsCanonical(env);
    r, entries := PutMap(LinkCodec(env), out, s.links, LinkRowOf);
  }

  method AppendLifecycleRecords(env: Env, out: bytes, s: Store)
        returns (r: bytes, ghost entries: seq<(RetryKey, LifecycleMutation)>)
    requires LifecycleRecordsStorable(env, s) && |s.lifecycle| < 0x1_0000_0000
    ensures Lists(s.lifecycle, entries) && Wrote(LifecycleRowCodec(env), out, r, Each(entries, LifecycleRowOf))
  {
    LifecycleRowsCanonical(env);
    r, entries := PutMap(LifecycleRowCodec(env), out, s.lifecycle, LifecycleRowOf);
  }

  /** The whole store, each map walked in whatever order it gives. */
  method Snapshot(env: Env, s: Store) returns (out: bytes, ghost l: Listing)
    requires Storable(env, s)
    requires |s.tenants| < 0x1_0000_0000 && |s.apiKeys| < 0x1_0000_0000 && |s.users| < 0x1_0000_0000
             && |s.sessions| < 0x1_0000_0000
    requires |s.inventories| < 0x1_0000_0000 && |s.links| < 0x1_0000_0000 && |s.lifecycle| < 0x1_0000_0000
    ensures ListsStore(s, l) && Countable(l) && out == Layout(env, l)
  {
    var o0, tenants := AppendTenants(env, HEADER, s);
    var o1, apiKeys := AppendApiKeys(env, o0, s);
    var o2, users := AppendUsers(env, o1, s);
    var o3, sessions := AppendSessions(env, o2, s);
    var o4, inventories := AppendInventories(env, o3, s);
    var o5, links := AppendLinks(env, o4, s);
    var o6, lifecycle := AppendLifecycleRecords(env, o5, s);
    out := o6;
    l := Listing(tenants, apiKeys, users, sessions, inventories, links, lifecycle);
    DeviceTail(env, l, o3, o4, o5, o6);
    AccountTail(env, l, o0, o1, o2, o3);
  }

  lemma DeviceTail(env: Env, l: Listing, o3: bytes, o4: bytes, o5: bytes, o6: bytes)
    requires Countable(l)
    requires Wrote(StateRowCodec(env), o3, o4, Each(l.inventories, StateRowOf))
    requires Wrote(LinkCodec(env), o4, o5, Each(l.links, LinkRowOf))
    requires Wrote(LifecycleRowCodec(env), o5, o6, Each(l.lifecycle, LifecycleRowOf))
    ensures o6 == o3 + FromInventories(env, l)
  {
    assert o6 + [] == o6;
    Follows(LifecycleRowCodec(env), o5, o6, Each(l.lifecycle, LifecycleRowOf), []);
    Follows(LinkCodec(env), o4, o5, Each(l.links, LinkRowOf), FromLifecycleRecords(env, l));
    Follows(StateRowCodec(env), o3, o4, Each(l.inventories, StateRowOf), FromLinks(env, l));
  }

  lemma AccountTail(env: Env, l: Listing, o0: bytes, o1: bytes, o2: bytes, o3: bytes)
    requires Countable(l)
    requires Wrote(TenantCodec(env), HEADER, o0, Each(l.tenants, TenantRowOf))
    requires Wrote(KeyCodec(env), o0, o1, Each(l.apiKeys, KeyRowOf))
    requires Wrote(UserCodec(env), o1, o2, Each(l.users, UserRowOf))
    requires Wrote(SessionCodec(env), o2, o3, Each(l.sessions, SessionRowOf))
    ensures o3 + FromInventories(env, l) == HEADER + FromTenants(env, l)
  {
    Follows(SessionCodec(env), o2, o3, Each(l.sessions, SessionRowOf), FromInventories(env, l));
    Follows(UserCodec(env), o1, o2, Each(l.users, UserRowOf), FromSessions(env, l));
    Follows(KeyCodec(env), o0, o1, Each(l.apiKeys, KeyRowOf), FromUsers(env, l));
    Follows(TenantCodec(env), HEADER, o0, Each(l.tenants, TenantRowOf), FromApiKeys(env, l));
  }

  lemma Follows<R>(c: Codec<R>, out: bytes, r: bytes, rows: seq<R>, tail: bytes)
    requires Wrote(c, out, r, rows)
    ensures r + tail == out + PutRows(c, rows, tail)
  {
  }

  method TakeOne(env: Env, k: nat, s: Store, b: bytes) returns (r: Parse<Store, RestoreError>)
    requires k < 7
    ensures r == TakeSection(env, k, s, b)
  {
    if k == 0 {
      r := ReadRows(TenantCodec(env), AddTenant, Malformed, b, s);
    } else if k == 1 {
      r := ReadRows(KeyCodec(env), AddKey, Malformed, b, s);
    } else if k == 2 {
      r := ReadRows(UserCodec(env), AddUser, Malformed, b, s);
    } else if k == 3 {
      r := ReadRows(SessionCodec(env), AddSession, Malformed, b, s);
    } else if k == 4 {
      r := ReadRows(StateRowCodec(env), AddState(env), Malformed, b, s);
    } else if k == 5 {
      r := ReadRows(LinkCodec(env), AddLink(env), Malformed, b, s);
    } else {
      r := ReadRows(LifecycleRowCodec(env), AddLifecycle(env), Malformed, b, s);
    }
  }

  method Restore(env: Env, b: bytes) returns (r: Restored)
    ensures r == TryRestore(env, b)
  {
    var headed := HEADER <= b;
    var rest, count := if headed then b[8..] else b, if headed then 7 else 4;
    var accounts := Nothing;
    ghost var whole := TakeAll(Taker(env), Missing(headed), 0, count, Nothing, rest);
    for k := 0 to count
      invariant whole == TakeAll(Taker(env), Missing(headed), k, count, accounts, rest)
    {
      if rest == [] && (headed || k > 0) { return Bad(Truncated(Before(k))); }
      var section := TakeOne(env, k, accounts, rest);
      if section.Stop? { return Bad(section.why); }
      accounts, rest := section.value, section.rest;
    }
    if rest != [] { return Bad(Malformed); }
    return Whole(accounts);
  }
}
