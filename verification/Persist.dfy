/**
  The account snapshot: seven sections of records behind a header, and the restore that
  reads them back or says why not.

  What the store derives from its records (the lookup indexes) and what it does not
  persist (the limiter) are not part of it.
 */
module Persist {
  import opened Bytes
  import opened Codec
  import opened Sections
  import opened Inventory
  import opened InventoryCodec
  import opened InventoryStore

  // ff ff ff ff, then TCA2
  const HEADER: bytes := [0xFF, 0xFF, 0xFF, 0xFF, 0x54, 0x43, 0x41, 0x32]

  datatype Section = Header | Tenants | ApiKeys | Users | Sessions | Inventories | LinkRecords | LifecycleRecords

  datatype RestoreError =
    | Malformed
    | Truncated(after: Section)
    | Orphan(section: Section)
    | Inconsistent(section: Section)

  datatype Restored = Whole(store: Store) | Bad(error: RestoreError)

  datatype Tenant = Tenant(username: bytes, email: bytes, password: bytes)

  datatype ApiKey = ApiKey(tenant: bytes, prefix: bytes, alias: Option<bytes>, created: u64)

  datatype Session = Session(who: Account, expires: u64)

  datatype Store = Store(
    tenants: map<bytes, Tenant>,
    apiKeys: map<key32, ApiKey>,
    users: map<Account, bytes>,
    sessions: map<key32, Session>,
    inventories: map<Account, DeviceInventory>,
    links: map<RetryKey, InventoryMutation>,
    lifecycle: map<RetryKey, LifecycleMutation>)

  const Nothing := Store(map[], map[], map[], map[], map[], map[], map[])

  /** The core, which bytes are valid text, and the handle of a user in a tenant. */
  datatype Env = Env(core: Core, utf8: bytes -> bool, handle: (bytes, bytes) -> bytes)

  // The records.

  function PutKey(x: key32, t: bytes): bytes { x + t }

  const Hash: Codec<key32> := Codec(PutKey, TakeKey, _ => true)

  const BindingCodec: Codec<Binding> := Codec(PutBinding, TakeBinding, _ => true)

  function PutState(inv: DeviceInventory, t: bytes): bytes { if Bounded(inv) then PutInventory(inv, t) else [] }

  const StateCodec: Codec<DeviceInventory> := Codec(PutState, TakeInventory, Bounded)

  function PutLifecycle(r: Request, t: bytes): bytes {
    match r
    case Replace(p, retired, replacement) => [1] + PutU64(p, PutBinding(retired, PutBinding(replacement, t)))
    case Revoke(p, retired) => [2] + PutU64(p, PutBinding(retired, t))
    case Link(_, _) => []
  }

  function TakeLifecycle(b: bytes): Parse<Request, ()> {
    var (tag, rest) :- TakeU8(b, ());
    var (p, rest) :- TakeU64(rest, ());
    if tag == 1 then
      var (retired, rest) :- TakeBinding(rest);
      var (replacement, rest) :- TakeBinding(rest);
      Got(Replace(p, retired, replacement), rest)
    else if tag == 2 then
      var (retired, rest) :- TakeBinding(rest);
      Got(Revoke(p, retired), rest)
    else Stop(())
  }

  const LifecycleCodec: Codec<Request> := Codec(PutLifecycle, TakeLifecycle, (r: Request) => !r.Link?)

  lemma HashCanonical()
    ensures Canonical(Hash)
  {
    forall x: key32, t: bytes ensures TakeKey(PutKey(x, t)) == Got(x, t) { TakeApp(x, t, ()); }
    forall x: key32, s: bytes, t: bytes ensures PutKey(x, s + t) == PutKey(x, s) + t { Assoc(x, s, t); }
  }

  lemma BindingPuts(x: Binding, s: bytes, t: bytes)
    ensures PutBinding(x, s + t) == PutBinding(x, s) + t
  {
    BindingAppends(x, s + t);
    BindingAppends(x, s);
    Assoc(PutBinding(x, []), s, t);
  }

  lemma BindingCanonical()
    ensures Canonical(BindingCodec)
  {
    forall x: Binding, t: bytes ensures TakeBinding(PutBinding(x, t)) == Got(x, t) { BindingReadsBack(x, t); }
    forall b: bytes | TakeBinding(b).Got? ensures var r := TakeBinding(b); b == PutBinding(r.value, r.rest)
    {
      BindingOneSpelling(b);
    }
    forall x: Binding, s: bytes, t: bytes ensures PutBinding(x, s + t) == PutBinding(x, s) + t { BindingPuts(x, s, t); }
  }

  lemma {:induction false} ManyPuts<T(!new)>(xs: seq<T>, put: (T, bytes) -> bytes, s: bytes, t: bytes)
    requires forall x: T, u: bytes, v: bytes {:trigger put(x, u + v)} :: put(x, u + v) == put(x, u) + v
    ensures PutMany(xs, put, s + t) == PutMany(xs, put, s) + t
    decreases |xs|
  {
    if xs != [] {
      ManyPuts(xs[1..], put, s, t);
      var u := PutMany(xs[1..], put, s);
      assert put(xs[0], u + t) == put(xs[0], u) + t;
    }
  }

  lemma RevokedPuts(xs: seq<Revocation>, s: bytes, t: bytes)
    ensures PutMany(xs, PutRevocation, s + t) == PutMany(xs, PutRevocation, s) + t
  {
    forall x: Revocation, u: bytes, v: bytes ensures PutRevocation(x, u + v) == PutRevocation(x, u) + v {
      RevocationAppends(x, u + v);
      RevocationAppends(x, u);
      Assoc(PutRevocation(x, []), u, v);
    }
    ManyPuts(xs, PutRevocation, s, t);
  }

  lemma ActivePuts(xs: seq<Binding>, s: bytes, t: bytes)
    ensures PutMany(xs, PutBinding, s + t) == PutMany(xs, PutBinding, s) + t
  {
    forall x: Binding, u: bytes, v: bytes ensures PutBinding(x, u + v) == PutBinding(x, u) + v { BindingPuts(x, u, v); }
    ManyPuts(xs, PutBinding, s, t);
  }

  lemma CountedPuts(w: u64, n: u32, s: bytes, t: bytes)
    ensures PutU64(w, PutU32(n, s + t)) == PutU64(w, PutU32(n, s)) + t
  {
    Assoc(U32(n), s, t);
    Assoc(U64(w), U32(n) + s, t);
  }

  lemma StatePuts(inv: DeviceInventory, s: bytes, t: bytes)
    requires Bounded(inv)
    ensures PutInventory(inv, s + t) == PutInventory(inv, s) + t
  {
    var revoked := PutMany(inv.revoked, PutRevocation, s);
    RevokedPuts(inv.revoked, s, t);
    CountedPuts(inv.floor, |inv.revoked|, revoked, t);
    var tail := PutU64(inv.floor, PutU32(|inv.revoked|, revoked));
    ActivePuts(inv.active, tail, t);
    CountedPuts(inv.generation, |inv.active|, PutMany(inv.active, PutBinding, tail), t);
  }

  lemma StateCanonical()
    ensures Canonical(StateCodec)
  {
    forall x: DeviceInventory, t: bytes | Bounded(x) ensures TakeInventory(PutState(x, t)) == Got(x, t)
    {
      InventoryReadsBack(x, t);
    }
    forall b: bytes | TakeInventory(b).Got?
      ensures var r := TakeInventory(b); Bounded(r.value) && b == PutState(r.value, r.rest) {
      InventoryOneSpelling(b);
    }
    forall x: DeviceInventory, s: bytes, t: bytes | Bounded(x) ensures PutState(x, s + t) == PutState(x, s) + t
    {
      StatePuts(x, s, t);
    }
  }

  lemma LifecycleReads(r: Request, t: bytes)
    requires !r.Link?
    ensures TakeLifecycle(PutLifecycle(r, t)) == Got(r, t)
  {
    match r
    case Replace(p, retired, replacement) =>
      var u := PutBinding(replacement, t);
      var v := PutBinding(retired, u);
      TakeU8App(1, PutU64(p, v), ());
      TakeU64App(p, v, ());
      BindingReadsBack(retired, u);
      BindingReadsBack(replacement, t);
    case Revoke(p, retired) =>
      var v := PutBinding(retired, t);
      TakeU8App(2, PutU64(p, v), ());
      TakeU64App(p, v, ());
      BindingReadsBack(retired, t);
  }

  lemma LifecycleSpells(b: bytes)
    requires TakeLifecycle(b).Got?
    ensures var r := TakeLifecycle(b); !r.value.Link? && b == PutLifecycle(r.value, r.rest)
  {
    var tag := TakeU8(b, ());
    var p := TakeU64(tag.rest, ());
    assert b == [tag.value] + PutU64(p.value, p.rest) by {
      TakeU8Canonical(b, ());
      TakeU64Canonical(tag.rest, ());
    }
    BindingOneSpelling(p.rest);
    if tag.value == 1 { BindingOneSpelling(TakeBinding(p.rest).rest); }
  }

  lemma LifecyclePuts(r: Request, s: bytes, t: bytes)
    requires !r.Link?
    ensures PutLifecycle(r, s + t) == PutLifecycle(r, s) + t
  {
    match r
    case Replace(p, retired, replacement) =>
      var u := PutBinding(replacement, s);
      var v := PutBinding(retired, u);
      BindingPuts(replacement, s, t);
      BindingPuts(retired, u, t);
      Assoc(U64(p), v, t);
      Assoc([1], U64(p) + v, t);
    case Revoke(p, retired) =>
      var v := PutBinding(retired, s);
      BindingPuts(retired, s, t);
      Assoc(U64(p), v, t);
      Assoc([2], U64(p) + v, t);
  }

  lemma LifecycleCanonical()
    ensures Canonical(LifecycleCodec)
  {
    forall x: Request, t: bytes | !x.Link? ensures TakeLifecycle(PutLifecycle(x, t)) == Got(x, t)
    {
      LifecycleReads(x, t);
    }
    forall b: bytes | TakeLifecycle(b).Got?
      ensures var r := TakeLifecycle(b); !r.value.Link? && b == PutLifecycle(r.value, r.rest) {
      LifecycleSpells(b);
    }
    forall x: Request, s: bytes, t: bytes | !x.Link? ensures PutLifecycle(x, s + t) == PutLifecycle(x, s) + t
    {
      LifecyclePuts(x, s, t);
    }
  }

  // One row of each section, as written.

  type TenantRow = (bytes, (bytes, (bytes, bytes)))
  type KeyRow = (key32, (bytes, (bytes, (bytes, u64))))
  type UserRow = (bytes, (bytes, bytes))
  type SessionRow = (key32, (bytes, (bytes, u64)))
  type StateRow = (bytes, (bytes, DeviceInventory))
  type LinkRow = (bytes, (bytes, (key32, (u64, (Binding, DeviceInventory)))))
  type LifecycleRow = (bytes, (bytes, (key32, (Request, DeviceInventory))))

  function TenantCodec(env: Env): Codec<TenantRow> {
    var text := Text(env.utf8);
    Pair(text, Pair(text, Pair(text, text)))
  }

  function KeyCodec(env: Env): Codec<KeyRow> {
    var text := Text(env.utf8);
    Pair(Hash, Pair(text, Pair(text, Pair(text, Word))))
  }

  function UserCodec(env: Env): Codec<UserRow> {
    var text := Text(env.utf8);
    Pair(text, Pair(text, text))
  }

  function SessionCodec(env: Env): Codec<SessionRow> {
    var text := Text(env.utf8);
    Pair(Hash, Pair(text, Pair(text, Word)))
  }

  function StateRowCodec(env: Env): Codec<StateRow> {
    var text := Text(env.utf8);
    Pair(text, Pair(text, StateCodec))
  }

  function LinkCodec(env: Env): Codec<LinkRow> {
    var text := Text(env.utf8);
    Pair(text, Pair(text, Pair(Hash, Pair(Word, Pair(BindingCodec, StateCodec)))))
  }

  function LifecycleRowCodec(env: Env): Codec<LifecycleRow> {
    var text := Text(env.utf8);
    Pair(text, Pair(text, Pair(Hash, Pair(LifecycleCodec, StateCodec))))
  }

  /** Each reads back what it wrote and nothing else. */
  lemma TenantRowsCanonical(env: Env)
    ensures Canonical(TenantCodec(env)) && Canonical(UserCodec(env))
  {
    var text := Text(env.utf8);
    TextCanonical(env.utf8);
    PairCanonical(text, text);
    PairCanonical(text, Pair(text, text));
    PairCanonical(text, Pair(text, Pair(text, text)));
  }

  lemma KeyRowsCanonical(env: Env)
    ensures Canonical(KeyCodec(env)) && Canonical(SessionCodec(env))
  {
    var text := Text(env.utf8);
    TextCanonical(env.utf8);
    HashCanonical();
    WordCanonical();
    PairCanonical(text, Word);
    PairCanonical(text, Pair(text, Word));
    PairCanonical(text, Pair(text, Pair(text, Word)));
    PairCanonical(Hash, Pair(text, Pair(text, Word)));
    PairCanonical(Hash, Pair(text, Pair(text, Pair(text, Word))));
  }

  lemma StateRowsCanonical(env: Env)
    ensures Canonical(StateRowCodec(env))
  {
    var text := Text(env.utf8);
    TextCanonical(env.utf8);
    StateCanonical();
    PairCanonical(text, StateCodec);
    PairCanonical(text, Pair(text, StateCodec));
  }

  lemma LinkRowsCanonical(env: Env)
    ensures Canonical(LinkCodec(env))
  {
    var text := Text(env.utf8);
    TextCanonical(env.utf8);
    HashCanonical();
    WordCanonical();
    BindingCanonical();
    StateCanonical();
    PairCanonical(BindingCodec, StateCodec);
    PairCanonical(Word, Pair(BindingCodec, StateCodec));
    PairCanonical(Hash, Pair(Word, Pair(BindingCodec, StateCodec)));
    PairCanonical(text, Pair(Hash, Pair(Word, Pair(BindingCodec, StateCodec))));
    PairCanonical(text, Pair(text, Pair(Hash, Pair(Word, Pair(BindingCodec, StateCodec)))));
  }

  lemma LifecycleRowsCanonical(env: Env)
    ensures Canonical(LifecycleRowCodec(env))
  {
    var text := Text(env.utf8);
    TextCanonical(env.utf8);
    HashCanonical();
    LifecycleCanonical();
    StateCanonical();
    PairCanonical(LifecycleCodec, StateCodec);
    PairCanonical(Hash, Pair(LifecycleCodec, StateCodec));
    PairCanonical(text, Pair(Hash, Pair(LifecycleCodec, StateCodec)));
    PairCanonical(text, Pair(text, Pair(Hash, Pair(LifecycleCodec, StateCodec))));
  }

  // What each row does to the store.

  type Change = Added<Store, RestoreError>

  function AddTenant(s: Store, r: TenantRow): Change {
    Into(s.(tenants := s.tenants[r.0 := Tenant(r.1.0, r.1.1.0, r.1.1.1)]))
  }

  function Aliased(text: bytes): Option<bytes> { if text == [] then None else Some(text) }

  function AddKey(s: Store, r: KeyRow): Change {
    if r.1.0 !in s.tenants then Refuse(Orphan(ApiKeys))
    else Into(s.(apiKeys := s.apiKeys[r.0 := ApiKey(r.1.0, r.1.1.0, Aliased(r.1.1.1.0), r.1.1.1.1)]))
  }

  function AddUser(s: Store, r: UserRow): Change {
    if r.0 !in s.tenants then Refuse(Orphan(Users)) else Into(s.(users := s.users[(r.0, r.1.0) := r.1.1]))
  }

  function AddSession(s: Store, r: SessionRow): Change {
    if (r.1.0, r.1.1.0) !in s.users then Refuse(Orphan(Sessions))
    else Into(s.(sessions := s.sessions[r.0 := Session((r.1.0, r.1.1.0), r.1.1.1)]))
  }

  /** An account the snapshot holds, with an inventory the core would encode for it. */
  function CheckState(env: Env, s: Store, who: Account, inv: DeviceInventory, section: Section): Option<RestoreError> {
    if who !in s.users || who.0 !in s.tenants then Some(Orphan(section))
    else if !env.core.valid(env.handle(s.tenants[who.0].username, who.1), inv) then Some(Inconsistent(section))
    else None
  }

  function AddState(env: Env): (Store, StateRow) -> Change {
    (s: Store, r: StateRow) =>
      var who := (r.0, r.1.0);
      var e := CheckState(env, s, who, r.1.1, Inventories);
      if e.Some? then Refuse(e.value)
      else if who in s.inventories then Refuse(Inconsistent(Inventories))
      else Into(s.(inventories := s.inventories[who := r.1.1]))
  }

  function AddLink(env: Env): (Store, LinkRow) -> Change {
    (s: Store, r: LinkRow) =>
      var who, key := (r.0, r.1.0), r.1.1.0;
      var predecessor, binding, result := r.1.1.1.0, r.1.1.1.1.0, r.1.1.1.1.1;
      var e := CheckState(env, s, who, result, LinkRecords);
      if e.Some? then Refuse(e.value)
      else if result.generation <= predecessor || (who, key) in s.links then Refuse(Inconsistent(LinkRecords))
      else Into(s.(links := s.links[(who, key) := InventoryMutation(predecessor, binding, result)]))
  }

  function AddLifecycle(env: Env): (Store, LifecycleRow) -> Change {
    (s: Store, r: LifecycleRow) =>
      var who, key, request, result := (r.0, r.1.0), r.1.1.0, r.1.1.1.0, r.1.1.1.1;
      var e := CheckState(env, s, who, result, LifecycleRecords);
      if e.Some? then Refuse(e.value)
      else if result.generation <= request.predecessor || (who, key) in s.links || (who, key) in s.lifecycle then
        Refuse(Inconsistent(LifecycleRecords))
      else Into(s.(lifecycle := s.lifecycle[(who, key) := LifecycleMutation(request, result)]))
  }

  // Restoring.

  /** The seven sections, numbered from zero. */
  function NameOf(k: nat): Section
    requires k < 7
  {
    [Tenants, ApiKeys, Users, Sessions, Inventories, LinkRecords, LifecycleRecords][k]
  }

  /** What a snapshot that ends before section `k` ends after. */
  function Before(k: nat): Section
    requires k < 7
  {
    if k == 0 then Header else NameOf(k - 1)
  }

  function TakeSection(env: Env, k: nat, s: Store, b: bytes): Parse<Store, RestoreError>
    requires k < 7
  {
    if k == 0 then TakeRows(TenantCodec(env), AddTenant, Malformed, b, s)
    else if k == 1 then TakeRows(KeyCodec(env), AddKey, Malformed, b, s)
    else if k == 2 then TakeRows(UserCodec(env), AddUser, Malformed, b, s)
    else if k == 3 then TakeRows(SessionCodec(env), AddSession, Malformed, b, s)
    else if k == 4 then TakeRows(StateRowCodec(env), AddState(env), Malformed, b, s)
    else if k == 5 then TakeRows(LinkCodec(env), AddLink(env), Malformed, b, s)
    else TakeRows(LifecycleRowCodec(env), AddLifecycle(env), Malformed, b, s)
  }

  function Taker(env: Env): (nat, Store, bytes) -> Parse<Store, RestoreError> {
    (k: nat, s: Store, b: bytes) => if k < 7 then TakeSection(env, k, s, b) else Stop(Malformed)
  }

  /** Every section must be there, but the first only where the header promises it. */
  function Missing(headed: bool): nat -> Option<RestoreError> {
    (k: nat) => if k < 7 && (headed || k > 0) then Some(Truncated(Before(k))) else None
  }

  function Ended(p: Parse<Store, RestoreError>): Restored {
    match p
    case Stop(e) => Bad(e)
    case Got(s, rest) => if rest != [] then Bad(Malformed) else Whole(s)
  }

  /** With the header seven sections, without it the four older servers wrote. */
  function TryRestore(env: Env, b: bytes): Restored {
    if HEADER <= b then Ended(TakeAll(Taker(env), Missing(true), 0, 7, Nothing, b[8..]))
    else Ended(TakeAll(Taker(env), Missing(false), 0, 4, Nothing, b))
  }

  // No cut passes for a smaller store.

  lemma SectionCuts(env: Env, k: nat, s: Store, b: bytes, m: nat)
    requires k < 7 && TakeSection(env, k, s, b).Got? && m <= |b|
    ensures CutAt(TakeSection(env, k, s, b), TakeSection(env, k, s, b[..m]), |b|, m, Malformed)
    ensures |TakeSection(env, k, s, b).rest| < |b|
  {
    if k == 0 { TenantRowsCanonical(env); RowsCut(TenantCodec(env), AddTenant, Malformed, b, s, m); }
    else if k == 1 { KeyRowsCanonical(env); RowsCut(KeyCodec(env), AddKey, Malformed, b, s, m); }
    else if k == 2 { TenantRowsCanonical(env); RowsCut(UserCodec(env), AddUser, Malformed, b, s, m); }
    else if k == 3 { KeyRowsCanonical(env); RowsCut(SessionCodec(env), AddSession, Malformed, b, s, m); }
    else if k == 4 { StateRowsCanonical(env); RowsCut(StateRowCodec(env), AddState(env), Malformed, b, s, m); }
    else if k == 5 { LinkRowsCanonical(env); RowsCut(LinkCodec(env), AddLink(env), Malformed, b, s, m); }
    else { LifecycleRowsCanonical(env); RowsCut(LifecycleRowCodec(env), AddLifecycle(env), Malformed, b, s, m); }
  }

  lemma SectionsAreCut(env: Env)
    ensures Sectioned(Taker(env), 7, Malformed)
  {
    var take := Taker(env);
    forall k: nat, s: Store, b: bytes, m: nat {:trigger take(k, s, b), take(k, s, b[..m])} | k < 7
      && take(k, s, b).Got? && m <= |b|
      ensures CutAt(take(k, s, b), take(k, s, b[..m]), |b|, m, Malformed) && |take(k, s, b).rest| < |b|
    {
      SectionCuts(env, k, s, b, m);
    }
  }

  /** The section that the first `n` bytes of a snapshot end exactly after, if there is one. */
  function EndsAfter(env: Env, b: bytes, n: nat): Option<Section> {
    var before :=
      if !(HEADER <= b) then CutBefore(Taker(env), 0, 4, Nothing, b, n)
      else if n < 8 then None
      else CutBefore(Taker(env), 0, 7, Nothing, b[8..], n - 8);
    NamedBy(HEADER <= b, before)
  }

  /** A cut inside the header reads as an absurd count of tenants, or as nothing. */
  lemma HeaderCut(env: Env, b: bytes, n: nat)
    requires HEADER <= b && n < 8
    ensures TryRestore(env, b[..n]) == Bad(Malformed)
  {
    var cut := b[..n];
    assert !(HEADER <= cut);
    if n < 4 {
      assert TakeU32(cut, Malformed).Stop?;
    } else {
      assert cut[..4] == HEADER[..4];
      var count := TakeU32(cut, Malformed);
      assert count.value == 0xFFFF_FFFF && |count.rest| < 4;
      assert TakeLp32(count.rest, ()).Stop?;
      assert TakeInto(TenantCodec(env), AddTenant, Malformed, count.rest, count.value, Nothing) == Stop(Malformed);
    }
    assert TakeSection(env, 0, Nothing, cut) == Stop(Malformed);
  }

  ghost predicate CutRefused(env: Env, b: bytes, n: nat)
    requires n <= |b|
  {
    TryRestore(env, b[..n]) == Bad(match EndsAfter(env, b, n) case None => Malformed case Some(s) => Truncated(s))
  }

  lemma CutEnds(env: Env, headed: bool, count: nat, b: bytes, n: nat)
    requires count <= 7 && Sectioned(Taker(env), count, Malformed) && n < |b|
    requires Ended(TakeAll(Taker(env), Missing(headed), 0, count, Nothing, b)).Whole?
    ensures Ended(TakeAll(Taker(env), Missing(headed), 0, count, Nothing, b[..n])) ==
            Bad(CutStop(CutBefore(Taker(env), 0, count, Nothing, b, n), Missing(headed), Malformed))
  {
    AllCut(Taker(env), Missing(headed), Malformed, 0, count, Nothing, b, n);
  }

  /** The section named is the one before the missing one. */
  function NamedBy(headed: bool, before: Option<nat>): Option<Section> {
    if before.None? || before.value >= 7 || (before.value == 0 && !headed) then None else Some(Before(before.value))
  }

  lemma NamesTheSection(headed: bool, before: Option<nat>)
    ensures CutStop(before, Missing(headed), Malformed)
            == (match NamedBy(headed, before) case None => Malformed case Some(s) => Truncated(s))
  {
  }

  lemma HeadedCut(env: Env, b: bytes, n: nat)
    requires HEADER <= b && TryRestore(env, b).Whole? && 8 <= n < |b|
    ensures CutRefused(env, b, n)
  {
    SectionsAreCut(env);
    assert b[..n][8..] == b[8..][..n - 8];
    CutEnds(env, true, 7, b[8..], n - 8);
    NamesTheSection(true, CutBefore(Taker(env), 0, 7, Nothing, b[8..], n - 8));
  }

  lemma FewerSections(env: Env)
    requires Sectioned(Taker(env), 7, Malformed)
    ensures Sectioned(Taker(env), 4, Malformed)
  {
  }

  lemma HeadlessCut(env: Env, b: bytes, n: nat)
    requires !(HEADER <= b) && TryRestore(env, b).Whole? && n < |b|
    ensures CutRefused(env, b, n)
  {
    SectionsAreCut(env);
    FewerSections(env);
    CutEnds(env, false, 4, b, n);
    NamesTheSection(false, CutBefore(Taker(env), 0, 4, Nothing, b, n));
  }

  /**
    Every proper prefix of an accepted snapshot is refused: as truncated, naming the
    section, exactly where it ends between two sections, and as malformed elsewhere.
   */
  lemma EveryCutIsRefused(env: Env, b: bytes, n: nat)
    requires TryRestore(env, b).Whole? && n < |b|
    ensures CutRefused(env, b, n)
  {
    if !(HEADER <= b) { HeadlessCut(env, b, n); }
    else if n < 8 { HeaderCut(env, b, n); }
    else { HeadedCut(env, b, n); }
  }

  // What is accepted holds together.

  ghost predicate StateOk(env: Env, s: Store, who: Account, inv: DeviceInventory) {
    who in s.users && who.0 in s.tenants && env.core.valid(env.handle(s.tenants[who.0].username, who.1), inv)
  }

  /** Nothing names a tenant or user that is not there, and no retry key is in both records. */
  ghost predicate Integrity(env: Env, s: Store) {
    && (forall k | k in s.apiKeys :: s.apiKeys[k].tenant in s.tenants)
    && (forall who | who in s.users :: who.0 in s.tenants)
    && (forall k | k in s.sessions :: s.sessions[k].who in s.users)
    && (forall who | who in s.inventories :: StateOk(env, s, who, s.inventories[who]))
    && (forall k | k in s.links ::
      StateOk(env, s, k.0, s.links[k].result)
      && s.links[k].result.generation > s.links[k].predecessor)
    && (forall k | k in s.lifecycle ::
      StateOk(env, s, k.0, s.lifecycle[k].result)
      && s.lifecycle[k].result.generation > s.lifecycle[k].request.predecessor)
    && s.links.Keys !! s.lifecycle.Keys
  }

  /** What holds when section `k` is read: no device state before the tenants are complete. */
  ghost predicate Stage(env: Env, k: nat, s: Store) {
    && Integrity(env, s)
    && (k == 0 ==> s.inventories == map[] && s.links == map[])
    && (k <= 5 ==> s.lifecycle == map[])
  }

  lemma TenantKeeps(env: Env, s: Store, r: TenantRow)
    requires Stage(env, 0, s)
    ensures Stage(env, 0, AddTenant(s, r).acc)
  {
  }

  lemma KeyKeeps(env: Env, s: Store, r: KeyRow)
    requires Integrity(env, s) && AddKey(s, r).Into?
    ensures Integrity(env, AddKey(s, r).acc)
  {
    var s' := AddKey(s, r).acc;
    assert forall who, inv | StateOk(env, s, who, inv) :: StateOk(env, s', who, inv);
  }

  lemma UserKeeps(env: Env, s: Store, r: UserRow)
    requires Integrity(env, s) && AddUser(s, r).Into?
    ensures Integrity(env, AddUser(s, r).acc)
  {
    var s' := AddUser(s, r).acc;
    assert forall who, inv | StateOk(env, s, who, inv) :: StateOk(env, s', who, inv);
  }

  lemma SessionKeeps(env: Env, s: Store, r: SessionRow)
    requires Integrity(env, s) && AddSession(s, r).Into?
    ensures Integrity(env, AddSession(s, r).acc)
  {
    var s' := AddSession(s, r).acc;
    assert forall who, inv | StateOk(env, s, who, inv) :: StateOk(env, s', who, inv);
  }

  lemma StateKeeps(env: Env, s: Store, r: StateRow)
    requires Integrity(env, s) && AddState(env)(s, r).Into?
    ensures Integrity(env, AddState(env)(s, r).acc)
  {
    var s' := AddState(env)(s, r).acc;
    assert StateOk(env, s, (r.0, r.1.0), r.1.1);
    assert forall who, inv | StateOk(env, s, who, inv) :: StateOk(env, s', who, inv);
  }

  lemma LinkKeeps(env: Env, s: Store, r: LinkRow)
    requires Integrity(env, s) && s.lifecycle == map[] && AddLink(env)(s, r).Into?
    ensures Integrity(env, AddLink(env)(s, r).acc) && AddLink(env)(s, r).acc.lifecycle == map[]
  {
    var s' := AddLink(env)(s, r).acc;
    assert StateOk(env, s, (r.0, r.1.0), r.1.1.1.1.1);
    assert forall who, inv | StateOk(env, s, who, inv) :: StateOk(env, s', who, inv);
  }

  lemma LifecycleKeeps(env: Env, s: Store, r: LifecycleRow)
    requires Integrity(env, s) && AddLifecycle(env)(s, r).Into?
    ensures Integrity(env, AddLifecycle(env)(s, r).acc)
  {
    var s' := AddLifecycle(env)(s, r).acc;
    assert StateOk(env, s, (r.0, r.1.0), r.1.1.1.1);
    assert forall who, inv | StateOk(env, s, who, inv) :: StateOk(env, s', who, inv);
  }

  lemma SectionKeeps(env: Env, k: nat, s: Store, b: bytes)
    requires k < 7 && Stage(env, k, s) && TakeSection(env, k, s, b).Got?
    ensures Stage(env, k + 1, TakeSection(env, k, s, b).value)
  {
    if k == 0 {
      forall a: Store, r: TenantRow | Stage(env, 0, a) && AddTenant(a, r).Into?
        ensures Stage(env, 0, AddTenant(a, r).acc)
      {
        TenantKeeps(env, a, r);
      }
      RowsKeep(TenantCodec(env), AddTenant, Malformed, b, s, a => Stage(env, 0, a));
    } else if k == 1 {
      forall a: Store, r: KeyRow | Stage(env, 1, a) && AddKey(a, r).Into? ensures Stage(env, 1, AddKey(a, r).acc)
      {
        KeyKeeps(env, a, r);
      }
      RowsKeep(KeyCodec(env), AddKey, Malformed, b, s, a => Stage(env, 1, a));
    } else if k == 2 {
      forall a: Store, r: UserRow | Stage(env, 2, a) && AddUser(a, r).Into? ensures Stage(env, 2, AddUser(a, r).acc)
      {
        UserKeeps(env, a, r);
      }
      RowsKeep(UserCodec(env), AddUser, Malformed, b, s, a => Stage(env, 2, a));
    } else if k == 3 {
      forall a: Store, r: SessionRow | Stage(env, 3, a) && AddSession(a, r).Into?
        ensures Stage(env, 3, AddSession(a, r).acc)
      {
        SessionKeeps(env, a, r);
      }
      RowsKeep(SessionCodec(env), AddSession, Malformed, b, s, a => Stage(env, 3, a));
    } else {
      DeviceSectionKeeps(env, k, s, b);
    }
  }

  lemma DeviceSectionKeeps(env: Env, k: nat, s: Store, b: bytes)
    requires 4 <= k < 7 && Stage(env, k, s) && TakeSection(env, k, s, b).Got?
    ensures Stage(env, k + 1, TakeSection(env, k, s, b).value)
  {
    if k == 4 {
      forall a: Store, r: StateRow | Stage(env, 4, a) && AddState(env)(a, r).Into?
        ensures Stage(env, 4, AddState(env)(a, r).acc)
      {
        StateKeeps(env, a, r);
      }
      RowsKeep(StateRowCodec(env), AddState(env), Malformed, b, s, a => Stage(env, 4, a));
    } else if k == 5 {
      forall a: Store, r: LinkRow | Stage(env, 5, a) && AddLink(env)(a, r).Into?
        ensures Stage(env, 5, AddLink(env)(a, r).acc)
      {
        LinkKeeps(env, a, r);
      }
      RowsKeep(LinkCodec(env), AddLink(env), Malformed, b, s, a => Stage(env, 5, a));
    } else {
      forall a: Store, r: LifecycleRow | Stage(env, 6, a) && AddLifecycle(env)(a, r).Into?
        ensures Stage(env, 6, AddLifecycle(env)(a, r).acc)
      {
        LifecycleKeeps(env, a, r);
      }
      RowsKeep(LifecycleRowCodec(env), AddLifecycle(env), Malformed, b, s, a => Stage(env, 6, a));
    }
  }

  /** Whatever is accepted, of either shape: every name resolves, and no retry key is in both records. */
  lemma AcceptedHoldsTogether(env: Env, b: bytes)
    requires TryRestore(env, b).Whole?
    ensures Integrity(env, TryRestore(env, b).store)
  {
    var take, good := Taker(env), (k: nat, s: Store) => Stage(env, k, s);
    forall k: nat, s: Store, x: bytes | k < 7 && good(k, s) && take(k, s, x).Got?
      ensures good(k + 1, take(k, s, x).value) {
      SectionKeeps(env, k, s, x);
    }
    if HEADER <= b {
      AllKeep(take, Missing(true), 0, 7, Nothing, b[8..], good);
    } else {
      AllKeep(take, Missing(false), 0, 4, Nothing, b, good);
    }
  }
}
