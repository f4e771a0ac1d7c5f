/**
  The life of an account store: what the account operations do to the records a snapshot
  keeps, and that every store they reach can be written and restored.

  Identifiers and hashes come from a random source; a tenant id is taken to be new when it
  is drawn. Whether credentials match, and what the clock says, are part of the step.
 */
module AccountLife {
  import opened Bytes
  import opened Codec
  import opened Sections
  import opened Inventory
  import opened InventoryCodec
  import opened InventoryStore
  import opened Persist
  import opened PersistRoundTrip

  datatype Step =
    | SignUpTenant(id: bytes, tenant: Tenant, hash: key32, prefix: bytes, created: u64)
    | CreateApiKey(of: bytes, hash: key32, prefix: bytes, alias: Option<bytes>, created: u64)
    | RevokeApiKey(of: bytes, prefix: bytes)
    | SignUpUser(who: Account, password: bytes)
    | SignIn(who: Account, token: key32, expires: u64)
    | EndSessions(gone: set<key32>)                    // signed out, signed out everywhere, or swept
    | Mutate(who: Account, key: key32, request: Request)

  /** The users, and the handle of each whose tenant exists. */
  function DirectoryOf(env: Env, s: Store): Directory {
    Directory(s.users.Keys,
              map who | who in s.users && who.0 in s.tenants :: env.handle(s.tenants[who.0].username, who.1))
  }

  function MemOf(s: Store): Mem { Mem(s.inventories, s.links, s.lifecycle) }

  predicate Taken(s: Store, tenant: Tenant) {
    exists id | id in s.tenants :: s.tenants[id].username == tenant.username || s.tenants[id].email == tenant.email
  }

  predicate IsNamed(k: ApiKey, of: bytes, prefix: bytes) { k.tenant == of && k.prefix == prefix }

  function Apply(env: Env, s: Store, step: Step): Store {
    match step
    case SignUpTenant(id, tenant, hash, prefix, created) =>
      if Taken(s, tenant) || id in s.tenants then s
      else s.(tenants := s.tenants[id := tenant], apiKeys := s.apiKeys[hash := ApiKey(id, prefix, None, created)])
    case CreateApiKey(of, hash, prefix, alias, created) =>
      if of !in s.tenants then s else s.(apiKeys := s.apiKeys[hash := ApiKey(of, prefix, alias, created)])
    case RevokeApiKey(of, prefix) =>
      s.(apiKeys := map k | k in s.apiKeys && !IsNamed(s.apiKeys[k], of, prefix) :: s.apiKeys[k])
    case SignUpUser(who, password) =>
      if who.0 !in s.tenants || who in s.users then s else s.(users := s.users[who := password])
    case SignIn(who, token, expires) =>
      if who.0 !in s.tenants || who !in s.users then s else s.(sessions := s.sessions[token := Session(who, expires)])
    case EndSessions(gone) => s.(sessions := s.sessions - gone)
    case Mutate(who, key, request) =>
      WithMem(s, CallOn(env, s, who, key, request))
  }

  function Run(env: Env, steps: seq<Step>): Store
    decreases |steps|
  {
    if steps == [] then Nothing else Apply(env, Run(env, steps[..|steps| - 1]), steps[|steps| - 1])
  }

  /** What a step is given is text of a length that can be written. */
  ghost predicate Sized(env: Env, step: Step) {
    var text := Text(env.utf8);
    match step
    case SignUpTenant(id, tenant, hash, prefix, created) =>
      TenantCodec(env).ok(TenantRowOf((id, tenant))) && text.ok(prefix) && text.ok([])
    case CreateApiKey(of, hash, prefix, alias, created) => text.ok(prefix) && text.ok(AliasText(alias))
    case SignUpUser(who, password) => UserCodec(env).ok(UserRowOf((who, password)))
    case _ => true
  }

  // Holding together.

  lemma LinkAdvances(core: Core, handle: bytes, current: DeviceInventory, p: u64, b: Binding)
    ensures var r := LinkInventory(core, handle, current, p, b);
            r.Ok? ==> core.valid(handle, r.inventory) && r.inventory.generation > p
  {
  }

  lemma RevokeAdvances(core: Core, handle: bytes, current: DeviceInventory, p: u64, retired: Binding)
    ensures var r := RevokeInventory(core, handle, current, p, retired);
            r.Ok? ==> core.valid(handle, r.inventory) && r.inventory.generation > p
  {
  }

  lemma ReplaceAdvances(core: Core, handle: bytes, current: DeviceInventory, p: u64, retired: Binding, next: Binding)
    ensures var r := ReplaceInventory(core, handle, current, p, retired, next);
            r.Ok? ==> core.valid(handle, r.inventory) && r.inventory.generation > p
  {
    RevokeAdvances(core, handle, current, p, retired);
    if ReplaceInventory(core, handle, current, p, retired, next).Ok? {
      ReplaceSplits(core, handle, current, p, retired, next);
    }
  }

  /** What a rule returns is valid, and of a later generation than it was asked to follow. */
  lemma TransitionAdvances(core: Core, handle: bytes, current: DeviceInventory, request: Request)
    ensures var r := Transition(core, handle, current, request);
            r.Ok? ==> core.valid(handle, r.inventory) && r.inventory.generation > request.predecessor
  {
    match request
    case Link(p, b) => LinkAdvances(core, handle, current, p, b);
    case Revoke(p, retired) => RevokeAdvances(core, handle, current, p, retired);
    case Replace(p, retired, next) => ReplaceAdvances(core, handle, current, p, retired, next);
  }

  function CallOn(env: Env, s: Store, who: Account, key: key32, request: Request): Mem {
    Called(env.core, DirectoryOf(env, s), MemOf(s), who, key, request).1
  }

  /** A call records nothing, or one new result under a new key. */
  lemma CallRecords(env: Env, s: Store, who: Account, key: key32, request: Request)
        returns (next: Option<DeviceInventory>)
    ensures next.None? ==> CallOn(env, s, who, key, request) == MemOf(s)
    ensures next.Some? ==>
              Recorded(env, s, who, key, request, next.value)
              && CallOn(env, s, who, key, request) == Record(MemOf(s), who, key, request, next.value)
  {
    var dir := DirectoryOf(env, s);
    next := None;
    if who in dir.users && RecordedUnder(MemOf(s), (who, key)).None? && who in dir.handles {
      var r := Transition(env.core, dir.handles[who], CurrentOf(MemOf(s), who), request);
      TransitionAdvances(env.core, dir.handles[who], CurrentOf(MemOf(s), who), request);
      if r.Ok? { next := Some(r.inventory); }
    }
  }

  ghost predicate Recorded(env: Env, s: Store, who: Account, key: key32, request: Request, next: DeviceInventory) {
    && StateOk(env, s, who, next) && next.generation > request.predecessor
    && (who, key) !in s.links && (who, key) !in s.lifecycle
  }

  function WithMem(s: Store, mem: Mem): Store {
    s.(inventories := mem.inventories, links := mem.links, lifecycle := mem.lifecycle)
  }

  lemma RecordHolds(env: Env, s: Store, who: Account, key: key32, request: Request, next: DeviceInventory)
    requires Integrity(env, s) && Recorded(env, s, who, key, request, next)
    ensures Integrity(env, WithMem(s, Record(MemOf(s), who, key, request, next)))
  {
    StatesStay(env, s, WithMem(s, Record(MemOf(s), who, key, request, next)));
  }

  lemma TenantHolds(env: Env, s: Store, id: bytes, tenant: Tenant, hash: key32, k: ApiKey)
    requires Integrity(env, s) && id !in s.tenants && k.tenant == id
    ensures Integrity(env, s.(tenants := s.tenants[id := tenant], apiKeys := s.apiKeys[hash := k]))
  {
    var s' := s.(tenants := s.tenants[id := tenant], apiKeys := s.apiKeys[hash := k]);
    assert forall x, inv | StateOk(env, s, x, inv) :: StateOk(env, s', x, inv);
  }

  /** Device state rests on the tenants and the users alone. */
  lemma StatesStay(env: Env, s: Store, s': Store)
    requires s'.tenants == s.tenants && s.users.Keys <= s'.users.Keys
    ensures forall who, inv | StateOk(env, s, who, inv) :: StateOk(env, s', who, inv)
  {
  }

  lemma KeysHold(env: Env, s: Store, apiKeys: map<key32, ApiKey>)
    requires Integrity(env, s) && forall k | k in apiKeys :: apiKeys[k].tenant in s.tenants
    ensures Integrity(env, s.(apiKeys := apiKeys))
  {
    StatesStay(env, s, s.(apiKeys := apiKeys));
  }

  lemma UsersHold(env: Env, s: Store, who: Account, password: bytes)
    requires Integrity(env, s) && who.0 in s.tenants
    ensures Integrity(env, s.(users := s.users[who := password]))
  {
    StatesStay(env, s, s.(users := s.users[who := password]));
  }

  lemma SessionsHold(env: Env, s: Store, sessions: map<key32, Session>)
    requires Integrity(env, s) && forall k | k in sessions :: sessions[k].who in s.users
    ensures Integrity(env, s.(sessions := sessions))
  {
    StatesStay(env, s, s.(sessions := sessions));
  }

  lemma MutateHolds(env: Env, s: Store, who: Account, key: key32, request: Request)
    requires Integrity(env, s)
    ensures Integrity(env, WithMem(s, CallOn(env, s, who, key, request)))
  {
    var next := CallRecords(env, s, who, key, request);
    if next.None? { assert WithMem(s, MemOf(s)) == s; } else { RecordHolds(env, s, who, key, request, next.value); }
  }

  lemma StepHolds(env: Env, s: Store, step: Step)
    requires Integrity(env, s)
    ensures Integrity(env, Apply(env, s, step))
  {
    match step
    case SignUpTenant(id, tenant, hash, prefix, created) =>
      if id !in s.tenants { TenantHolds(env, s, id, tenant, hash, ApiKey(id, prefix, None, created)); }
    case CreateApiKey(of, hash, prefix, alias, created) =>
      if of in s.tenants { KeysHold(env, s, s.apiKeys[hash := ApiKey(of, prefix, alias, created)]); }
    case RevokeApiKey(of, prefix) => KeysHold(env, s, Apply(env, s, step).apiKeys);
    case SignUpUser(who, password) => if who.0 in s.tenants { UsersHold(env, s, who, password); }
    case SignIn(who, token, expires) =>
      if who in s.users { SessionsHold(env, s, s.sessions[token := Session(who, expires)]); }
    case EndSessions(gone) => SessionsHold(env, s, s.sessions - gone);
    case Mutate(who, key, request) => MutateHolds(env, s, who, key, request);
  }

  // Being fit to write.

  lemma UserIsText(env: Env, s: Store, who: Account)
    requires UsersStorable(env, s) && who in s.users
    ensures Text(env.utf8).ok(who.0) && Text(env.utf8).ok(who.1)
  {
    assert UserCodec(env).ok(UserRowOf((who, s.users[who])));
  }

  lemma LinkIsStorable(env: Env, s: Store, k: RetryKey, m: InventoryMutation)
    requires LinksStorable(env, s) && Text(env.utf8).ok(k.0.0) && Text(env.utf8).ok(k.0.1) && Bounded(m.result)
    ensures LinksStorable(env, s.(links := s.links[k := m]))
  {
    assert LinkCodec(env).ok(LinkRowOf((k, m)));
  }

  lemma LifecycleIsStorable(env: Env, s: Store, k: RetryKey, m: LifecycleMutation)
    requires LifecycleRecordsStorable(env, s) && Text(env.utf8).ok(k.0.0) && Text(env.utf8).ok(k.0.1)
    requires Bounded(m.result) && !m.request.Link?
    ensures LifecycleRecordsStorable(env, s.(lifecycle := s.lifecycle[k := m]))
  {
    assert LifecycleRowCodec(env).ok(LifecycleRowOf((k, m)));
  }

  lemma StateIsStorable(env: Env, s: Store, who: Account, inv: DeviceInventory)
    requires InventoriesStorable(env, s) && Text(env.utf8).ok(who.0) && Text(env.utf8).ok(who.1) && Bounded(inv)
    ensures InventoriesStorable(env, s.(inventories := s.inventories[who := inv]))
  {
    assert StateRowCodec(env).ok(StateRowOf((who, inv)));
  }

  lemma RecordIsStorable(env: Env, s: Store, who: Account, key: key32, request: Request, next: DeviceInventory)
    requires Storable(env, s) && who in s.users && Bounded(next)
    ensures Storable(env, WithMem(s, Record(MemOf(s), who, key, request, next)))
  {
    UserIsText(env, s, who);
    StateIsStorable(env, s, who, next);
    match request
    case Link(p, b) => LinkIsStorable(env, s, (who, key), InventoryMutation(p, b, next));
    case _ => LifecycleIsStorable(env, s, (who, key), LifecycleMutation(request, next));
  }

  lemma MutateIsStorable(env: Env, s: Store, who: Account, key: key32, request: Request)
    requires Storable(env, s) && Lawful(env.core)
    ensures Storable(env, WithMem(s, CallOn(env, s, who, key, request)))
  {
    var next := CallRecords(env, s, who, key, request);
    if next.None? {
      assert WithMem(s, MemOf(s)) == s;
    } else {
      RecordIsStorable(env, s, who, key, request, next.value);
    }
  }

  lemma KeyIsStorable(env: Env, s: Store, hash: key32, k: ApiKey)
    requires ApiKeysStorable(env, s) && Text(env.utf8).ok(k.tenant) && Text(env.utf8).ok(k.prefix)
    requires Text(env.utf8).ok(AliasText(k.alias))
    ensures ApiKeysStorable(env, s.(apiKeys := s.apiKeys[hash := k]))
  {
    assert KeyCodec(env).ok(KeyRowOf((hash, k)));
  }

  lemma TenantIsText(env: Env, s: Store, id: bytes)
    requires TenantsStorable(env, s) && id in s.tenants
    ensures Text(env.utf8).ok(id)
  {
    assert TenantCodec(env).ok(TenantRowOf((id, s.tenants[id])));
  }

  lemma SessionIsStorable(env: Env, s: Store, token: key32, session: Session)
    requires SessionsStorable(env, s) && Text(env.utf8).ok(session.who.0) && Text(env.utf8).ok(session.who.1)
    ensures SessionsStorable(env, s.(sessions := s.sessions[token := session]))
  {
    assert SessionCodec(env).ok(SessionRowOf((token, session)));
  }

  lemma KeysAreStorable(env: Env, s: Store, apiKeys: map<key32, ApiKey>)
    requires Storable(env, s) && ApiKeysStorable(env, s.(apiKeys := apiKeys))
    ensures Storable(env, s.(apiKeys := apiKeys))
  {
  }

  lemma SessionsAreStorable(env: Env, s: Store, sessions: map<key32, Session>)
    requires Storable(env, s) && SessionsStorable(env, s.(sessions := sessions))
    ensures Storable(env, s.(sessions := sessions))
  {
  }

  lemma FewerKeysAreStorable(env: Env, s: Store, apiKeys: map<key32, ApiKey>)
    requires Storable(env, s) && forall k | k in apiKeys :: k in s.apiKeys && apiKeys[k] == s.apiKeys[k]
    ensures Storable(env, s.(apiKeys := apiKeys))
  {
    assert ApiKeysStorable(env, s.(apiKeys := apiKeys));
    KeysAreStorable(env, s, apiKeys);
  }

  lemma FewerSessionsAreStorable(env: Env, s: Store, sessions: map<key32, Session>)
    requires Storable(env, s) && forall k | k in sessions :: k in s.sessions && sessions[k] == s.sessions[k]
    ensures Storable(env, s.(sessions := sessions))
  {
    assert SessionsStorable(env, s.(sessions := sessions));
    SessionsAreStorable(env, s, sessions);
  }

  lemma UserIsStorable(env: Env, s: Store, who: Account, password: bytes)
    requires Storable(env, s) && UserCodec(env).ok(UserRowOf((who, password)))
    ensures Storable(env, s.(users := s.users[who := password]))
  {
  }

  lemma TenantIsStorable(env: Env, s: Store, id: bytes, tenant: Tenant)
    requires Storable(env, s) && TenantCodec(env).ok(TenantRowOf((id, tenant)))
    ensures Storable(env, s.(tenants := s.tenants[id := tenant])) && Text(env.utf8).ok(id)
  {
    var s' := s.(tenants := s.tenants[id := tenant]);
    assert TenantsStorable(env, s');
    TenantIsText(env, s', id);
  }

  lemma SignUpIsStorable(env: Env, s: Store, id: bytes, tenant: Tenant, hash: key32, k: ApiKey)
    requires Storable(env, s) && TenantCodec(env).ok(TenantRowOf((id, tenant))) && k.tenant == id && k.alias == None
    requires Text(env.utf8).ok(k.prefix) && Text(env.utf8).ok([])
    ensures Storable(env, s.(tenants := s.tenants[id := tenant], apiKeys := s.apiKeys[hash := k]))
  {
    TenantIsStorable(env, s, id, tenant);
    var s' := s.(tenants := s.tenants[id := tenant]);
    KeyIsStorable(env, s', hash, k);
    KeysAreStorable(env, s', s.apiKeys[hash := k]);
  }

  lemma CreatedIsStorable(env: Env, s: Store, hash: key32, k: ApiKey)
    requires Storable(env, s) && k.tenant in s.tenants
    requires Text(env.utf8).ok(k.prefix) && Text(env.utf8).ok(AliasText(k.alias))
    ensures Storable(env, s.(apiKeys := s.apiKeys[hash := k]))
  {
    TenantIsText(env, s, k.tenant);
    KeyIsStorable(env, s, hash, k);
    KeysAreStorable(env, s, s.apiKeys[hash := k]);
  }

  lemma SignInIsStorable(env: Env, s: Store, who: Account, token: key32, expires: u64)
    requires Storable(env, s) && who in s.users
    ensures Storable(env, s.(sessions := s.sessions[token := Session(who, expires)]))
  {
    UserIsText(env, s, who);
    SessionIsStorable(env, s, token, Session(who, expires));
    SessionsAreStorable(env, s, s.sessions[token := Session(who, expires)]);
  }

  lemma TenantStepIsStorable(env: Env, s: Store, step: Step)
    requires Storable(env, s) && Sized(env, step) && (step.SignUpTenant? || step.CreateApiKey? || step.RevokeApiKey?)
    ensures Storable(env, Apply(env, s, step))
  {
    match step
    case SignUpTenant(id, tenant, hash, prefix, created) =>
      SignUpIsStorable(env, s, id, tenant, hash, ApiKey(id, prefix, None, created));
    case CreateApiKey(of, hash, prefix, alias, created) =>
      if of in s.tenants { CreatedIsStorable(env, s, hash, ApiKey(of, prefix, alias, created)); }
    case RevokeApiKey(of, prefix) => FewerKeysAreStorable(env, s, Apply(env, s, step).apiKeys);
  }

  lemma UserStepIsStorable(env: Env, s: Store, step: Step)
    requires Storable(env, s) && Sized(env, step) && (step.SignUpUser? || step.SignIn? || step.EndSessions?)
    ensures Storable(env, Apply(env, s, step))
  {
    match step
    case SignUpUser(who, password) => UserIsStorable(env, s, who, password);
    case SignIn(who, token, expires) => if who in s.users { SignInIsStorable(env, s, who, token, expires); }
    case EndSessions(gone) => FewerSessionsAreStorable(env, s, s.sessions - gone);
  }

  lemma StepIsStorable(env: Env, s: Store, step: Step)
    requires Storable(env, s) && Lawful(env.core) && Sized(env, step)
    ensures Storable(env, Apply(env, s, step))
  {
    if step.Mutate? { MutateIsStorable(env, s, step.who, step.key, step.request); }
    else if step.SignUpUser? || step.SignIn? || step.EndSessions? { UserStepIsStorable(env, s, step); }
    else { TenantStepIsStorable(env, s, step); }
  }

  lemma {:induction false} RunKeeps(env: Env, steps: seq<Step>)
    requires Lawful(env.core) && forall step | step in steps :: Sized(env, step)
    ensures Integrity(env, Run(env, steps)) && Storable(env, Run(env, steps))
    decreases |steps|
  {
    if steps != [] {
      var front, step := steps[..|steps| - 1], steps[|steps| - 1];
      assert step in steps && forall x | x in front :: x in steps;
      RunKeeps(env, front);
      StepHolds(env, Run(env, front), step);
      StepIsStorable(env, Run(env, front), step);
    }
  }

  /**
    Every store the account operations reach restores from its snapshot, in whatever order
    its maps are walked: to itself, but for empty key labels.
   */
  lemma ReachableStoresRestore(env: Env, steps: seq<Step>, l: Listing)
    requires Lawful(env.core) && (forall step | step in steps :: Sized(env, step))
    requires ListsStore(Run(env, steps), l) && Countable(l)
    ensures TryRestore(env, Layout(env, l)) == Whole(Relabel(Run(env, steps)))
  {
    RunKeeps(env, steps);
    SnapshotRestores(env, Run(env, steps), l);
  }
}
