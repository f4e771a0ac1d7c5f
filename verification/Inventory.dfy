/**
  Per-account device inventories: the pure lifecycle rules (link, revoke, replace)
  with their bounded revocation memory, and what every inventory reachable from the
  empty one remembers.
 */
module Inventory {
  import opened Bytes
  import opened Order

  type key32 = b: bytes | |b| == 32 witness seq(32, _ => 0)

  const MAX_ACTIVE_BINDINGS := 8
  const MAX_RECENT_REVOCATIONS := 8

  datatype Binding = Binding(deviceId: u32, key: key32, capabilities: u64, predecessor: Option<key32>)

  datatype Revocation = Revocation(binding: Binding, terminal: u64)

  datatype DeviceInventory = DeviceInventory(generation: u64, active: seq<Binding>, floor: u64,
    revoked: seq<Revocation>)

  const Empty := DeviceInventory(0, [], 0, [])

  datatype InventoryError =
    | UnknownUser
    | PredecessorMismatch
    | GenerationExhausted
    | DuplicateBinding
    | DeviceIdInUse
    | BindingRevoked
    | DeviceIdRetired
    | IdentityKeyInUse
    | BindingNotActive
    | ReplacementPredecessorMismatch
    | UnexpectedReplacementPredecessor
    | IdentityKey(code: nat)
    | IdempotencyConflict
    | Invalid

  datatype Outcome = Ok(inventory: DeviceInventory) | Err(error: InventoryError)

  /**
    What the standalone core decides: whether it admits an identity key (and how it
    classifies one it does not), the commitment of a binding (if it can be encoded),
    and whether it would encode an inventory for an account.
   */
  datatype Core = Core(
    keyError: bytes -> Option<nat>,
    commitment: Binding -> Option<key32>,
    valid: (bytes, DeviceInventory) -> bool)

  /** The core encodes an empty inventory and enforces the two bounds. */
  ghost predicate Lawful(core: Core) {
    && (forall handle: bytes :: core.valid(handle, Empty))
    && (forall handle: bytes, inv: DeviceInventory | core.valid(handle, inv) ::
          |inv.active| <= MAX_ACTIVE_BINDINGS && |inv.revoked| <= MAX_RECENT_REVOCATIONS)
  }

  // The order the core's records are kept in: field by field.

  predicate OptLe(a: Option<key32>, b: Option<key32>) {
    a.None? || (b.Some? && LexLe(a.value, b.value))
  }

  predicate BindingLe(a: Binding, b: Binding) {
    Then(a.deviceId < b.deviceId, a.deviceId == b.deviceId,
         Then(LexLt(a.key, b.key), a.key == b.key,
              Then(a.capabilities < b.capabilities, a.capabilities == b.capabilities,
                OptLe(a.predecessor, b.predecessor))))
  }

  predicate RevocationLe(a: Revocation, b: Revocation) {
    Then(BindingLe(a.binding, b.binding) && a.binding != b.binding, a.binding == b.binding, a.terminal <= b.terminal)
  }

  lemma BindingLeTotal(a: Binding, b: Binding)
    ensures BindingLe(a, b) || BindingLe(b, a)
    ensures BindingLe(a, b) && BindingLe(b, a) ==> a == b
  {
    LexTotal(a.key, b.key);
    if LexLe(a.key, b.key) && LexLe(b.key, a.key) { LexAntisymmetric(a.key, b.key); }
    if a.predecessor.Some? && b.predecessor.Some? {
      LexTotal(a.predecessor.value, b.predecessor.value);
      if LexLe(a.predecessor.value, b.predecessor.value) && LexLe(b.predecessor.value, a.predecessor.value) {
        LexAntisymmetric(a.predecessor.value, b.predecessor.value);
      }
    }
  }

  lemma BindingLeTransitive(a: Binding, b: Binding, c: Binding)
    requires BindingLe(a, b) && BindingLe(b, c)
    ensures BindingLe(a, c)
  {
    if LexLe(a.key, b.key) && LexLe(b.key, c.key) {
      LexTransitive(a.key, b.key, c.key);
      if a.key == c.key { LexAntisymmetric(a.key, b.key); }
    }
    if a.predecessor.Some? && b.predecessor.Some? && c.predecessor.Some?
       && LexLe(a.predecessor.value, b.predecessor.value) && LexLe(b.predecessor.value, c.predecessor.value) {
      LexTransitive(a.predecessor.value, b.predecessor.value, c.predecessor.value);
    }
  }

  lemma BindingsOrdered()
    ensures TotalOrder(BindingLe)
  {
    forall a, b ensures (BindingLe(a, b) || BindingLe(b, a)) && (BindingLe(a, b) && BindingLe(b, a) ==> a == b)
    {
      BindingLeTotal(a, b);
    }
    forall a, b, c | BindingLe(a, b) && BindingLe(b, c) ensures BindingLe(a, c) { BindingLeTransitive(a, b, c); }
  }

  lemma RevocationsOrdered()
    ensures TotalOrder(RevocationLe)
  {
    forall a, b
      ensures (RevocationLe(a, b) || RevocationLe(b, a)) && (RevocationLe(a, b) && RevocationLe(b, a) ==> a == b)
    {
      BindingLeTotal(a.binding, b.binding);
    }
    forall a, b, c | RevocationLe(a, b) && RevocationLe(b, c) ensures RevocationLe(a, c) {
      if BindingLe(a.binding, b.binding) && BindingLe(b.binding, c.binding) {
        BindingLeTransitive(a.binding, b.binding, c.binding);
        BindingLeTotal(a.binding, b.binding);
      }
    }
  }

  lemma RevocationsSort(xs: seq<Revocation>)
    ensures Sorted(Sort(xs, RevocationLe), RevocationLe)
  {
    RevocationsOrdered();
    SortSorted(xs, RevocationLe);
  }

  lemma BindingsSort(xs: seq<Binding>)
    ensures Sorted(Sort(xs, BindingLe), BindingLe)
  {
    BindingsOrdered();
    SortSorted(xs, BindingLe);
  }

  // The rules.

  function IndexOf(xs: seq<Binding>, x: Binding): (r: Option<nat>)
    ensures r.Some? ==> r.value < |xs| && xs[r.value] == x && x !in xs[..r.value]
    ensures r.None? <==> x !in xs
  {
    if xs == [] then None
    else if xs[0] == x then Some(0)
    else
      var r := IndexOf(xs[1..], x);
      assert xs == [xs[0]] + xs[1..];
      if r.None? then None else assert xs[..r.value + 1] == [xs[0]] + xs[1..][..r.value]; Some(r.value + 1)
  }

  /** The first entry with the lowest terminal generation. */
  function Oldest(xs: seq<Revocation>): (k: nat)
    requires xs != []
    ensures k < |xs| && (forall i | 0 <= i < |xs| :: xs[k].terminal <= xs[i].terminal)
    ensures forall i | 0 <= i < k :: xs[k].terminal < xs[i].terminal
  {
    if |xs| == 1 then 0
    else
      var k := Oldest(xs[..|xs| - 1]);
      if xs[|xs| - 1].terminal < xs[k].terminal then |xs| - 1 else k
  }

  function MaxU64(a: u64, b: u64): u64 { if a > b then a else b }

  function DropOldest(xs: seq<Revocation>, floor: u64): (r: (seq<Revocation>, u64))
    ensures |r.0| <= MAX_RECENT_REVOCATIONS
    decreases |xs|
  {
    if |xs| <= MAX_RECENT_REVOCATIONS then (xs, floor)
    else DropOldest(Without(xs, Oldest(xs)), MaxU64(floor, xs[Oldest(xs)].terminal))
  }

  function Compacted(inv: DeviceInventory): DeviceInventory {
    var (revoked, floor) := DropOldest(inv.revoked, inv.floor);
    inv.(revoked := Sort(revoked, RevocationLe), floor := floor)
  }

  method FindOldest(xs: seq<Revocation>) returns (k: nat)
    requires xs != []
    ensures k == Oldest(xs)
  {
    k := 0;
    for i := 1 to |xs|
      invariant k == Oldest(xs[..i])
    {
      assert xs[..i + 1][..i] == xs[..i];
      if xs[i].terminal < xs[k].terminal { k := i; }
    }
    assert xs[..|xs|] == xs;
  }

  method CompactRevocations(inv: DeviceInventory) returns (r: DeviceInventory)
    ensures r == Compacted(inv)
  {
    var revoked, floor := inv.revoked, inv.floor;
    while |revoked| > MAX_RECENT_REVOCATIONS
      invariant DropOldest(revoked, floor) == DropOldest(inv.revoked, inv.floor)
    {
      var oldest := FindOldest(revoked);
      floor := MaxU64(floor, revoked[oldest].terminal);
      revoked := Without(revoked, oldest);
    }
    r := inv.(revoked := Sort(revoked, RevocationLe), floor := floor);
  }

  function CheckBinding(core: Core, b: Binding): Option<InventoryError> {
    match core.keyError(b.key)
    case None => None
    case Some(code) => Some(IdentityKey(code))
  }

  /** Why a binding may not be added, in the order the rules are applied. */
  function BindingIsNew(inv: DeviceInventory, b: Binding): Option<InventoryError> {
    if b in inv.active then Some(DuplicateBinding)
    else if exists x :: x in inv.active && x.deviceId == b.deviceId then Some(DeviceIdInUse)
    else if exists x :: x in inv.active && x.key == b.key then Some(IdentityKeyInUse)
    else if exists x :: x in inv.revoked && x.binding == b then Some(BindingRevoked)
    else if exists x :: x in inv.revoked && x.binding.deviceId == b.deviceId then Some(DeviceIdRetired)
    else if exists x :: x in inv.revoked && x.binding.key == b.key then Some(IdentityKeyInUse)
    else None
  }

  function Validated(core: Core, handle: bytes, inv: DeviceInventory): Outcome {
    if core.valid(handle, inv) then Ok(inv) else Err(Invalid)
  }

  function LinkInventory(core: Core, handle: bytes, current: DeviceInventory, predecessor: u64, b: Binding): Outcome {
    var key := CheckBinding(core, b);
    if key.Some? then Err(key.value)
    else if b.predecessor.Some? then Err(UnexpectedReplacementPredecessor)
    else if current.generation != predecessor then Err(PredecessorMismatch)
    else if b in current.active then Err(DuplicateBinding)
    else
      var fresh' := BindingIsNew(current, b);
      if fresh'.Some? then Err(fresh'.value)
      else if current.generation == U64_MAX then Err(GenerationExhausted)
      else
        Validated(core, handle,
                  current.(generation := current.generation + 1, active := Sort(current.active + [b], BindingLe)))
  }

  function RevokeInventory(core: Core, handle: bytes, current: DeviceInventory, predecessor: u64,
        retired: Binding): Outcome {
    var key := CheckBinding(core, retired);
    if key.Some? then Err(key.value)
    else if current.generation != predecessor then Err(PredecessorMismatch)
    else
      var index := IndexOf(current.active, retired);
      if index.None? then Err(BindingNotActive)
      else if current.generation == U64_MAX then Err(GenerationExhausted)
      else Validated(core, handle, Retired(current, index.value))
  }

  /** One active binding moved to the revocations, which are then compacted. */
  function Retired(current: DeviceInventory, index: nat): DeviceInventory
    requires index < |current.active| && current.generation < U64_MAX
  {
    Compacted(Moved(current, index))
  }

  function Moved(current: DeviceInventory, index: nat): DeviceInventory
    requires index < |current.active| && current.generation < U64_MAX
  {
    var next := current.generation + 1;
    DeviceInventory(next, Without(current.active, index), current.floor,
                    current.revoked + [Revocation(current.active[index], next)])
  }

  function ReplaceInventory(core: Core, handle: bytes, current: DeviceInventory, predecessor: u64, retired: Binding,
        replacement: Binding): Outcome {
    var keyR, keyN := CheckBinding(core, retired), CheckBinding(core, replacement);
    if keyR.Some? then Err(keyR.value)
    else if keyN.Some? then Err(keyN.value)
    else
      var commitment := core.commitment(retired);
      if commitment.None? then Err(Invalid)
      else if replacement.predecessor != commitment then Err(ReplacementPredecessorMismatch)
      else
        var revoked := RevokeInventory(core, handle, current, predecessor, retired);
        if revoked.Err? then revoked
        else
          var fresh' := BindingIsNew(revoked.inventory, replacement);
          if fresh'.Some? then Err(fresh'.value)
          else Validated(core, handle, revoked.inventory.(active := Sort(revoked.inventory.active + [replacement],
            BindingLe)))
  }

  datatype Request =
    | Link(predecessor: u64, binding: Binding)
    | Revoke(predecessor: u64, retired: Binding)
    | Replace(predecessor: u64, retired: Binding, replacement: Binding)

  function Transition(core: Core, handle: bytes, current: DeviceInventory, r: Request): Outcome {
    match r
    case Link(predecessor, binding) => LinkInventory(core, handle, current, predecessor, binding)
    case Revoke(predecessor, retired) => RevokeInventory(core, handle, current, predecessor, retired)
    case Replace(predecessor, retired, replacement) =>
      ReplaceInventory(core, handle, current, predecessor, retired, replacement)
  }

  // Whole histories.

  /** An inventory with everything that was ever revoked, in order, and how many mutations were applied. */
  datatype History = History(inv: DeviceInventory, log: seq<Revocation>, applied: nat)

  function Applied(core: Core, handle: bytes, h: History, r: Request): History {
    match Transition(core, handle, h.inv, r)
    case Err(_) => h
    case Ok(next) =>
      History(next, if r.Link? then h.log else h.log + [Revocation(r.retired, next.generation)], h.applied + 1)
  }

  function Replay(core: Core, handle: bytes, requests: seq<Request>): History
    decreases |requests|
  {
    if requests == [] then History(Empty, [], 0)
    else Applied(core, handle, Replay(core, handle, requests[..|requests| - 1]), requests[|requests| - 1])
  }

  function Newest(log: seq<Revocation>): seq<Revocation> {
    if |log| <= MAX_RECENT_REVOCATIONS then log else log[|log| - MAX_RECENT_REVOCATIONS..]
  }

  function FloorOf(log: seq<Revocation>): u64 {
    if |log| <= MAX_RECENT_REVOCATIONS then 0 else log[|log| - MAX_RECENT_REVOCATIONS - 1].terminal
  }

  ghost predicate InOrder(log: seq<Revocation>, upTo: u64) {
    && Ascends(log)
    && (forall i | 0 <= i < |log| :: 0 < log[i].terminal <= upTo)
  }

  /** No two bindings share a device id or an identity key. */
  ghost predicate Apart(a: Binding, b: Binding) { a.deviceId != b.deviceId && a.key != b.key }

  /** Every device id and every key names one binding, active or remembered as revoked. */
  ghost predicate AllApart(inv: DeviceInventory) {
    && (forall i, j | 0 <= i < j < |inv.active| :: Apart(inv.active[i], inv.active[j]))
    && (forall i, j | 0 <= i < j < |inv.revoked| :: Apart(inv.revoked[i].binding, inv.revoked[j].binding))
    && (forall i, j | 0 <= i < |inv.active| && 0 <= j < |inv.revoked| :: Apart(inv.active[i], inv.revoked[j].binding))
  }

  /** The same, whatever order the records are kept in. */
  ghost predicate Distinct(active: multiset<Binding>, revoked: multiset<Revocation>) {
    && (forall x | x in active :: active[x] == 1)
    && (forall x | x in revoked :: revoked[x] == 1)
    && (forall x, y | x in active && y in active && x != y :: Apart(x, y))
    && (forall x, y | x in revoked && y in revoked && x != y :: Apart(x.binding, y.binding))
    && (forall x, y | x in active && y in revoked :: Apart(x, y.binding))
  }

  ghost predicate Remembers(h: History) {
    && h.inv.generation == h.applied
    && InOrder(h.log, h.inv.generation)
    && multiset(h.inv.revoked) == multiset(Newest(h.log))
    && Sorted(h.inv.revoked, RevocationLe) && Sorted(h.inv.active, BindingLe)
    && h.inv.floor == FloorOf(h.log)
    && Distinct(multiset(h.inv.active), multiset(h.inv.revoked))
  }

  lemma {:induction false} OnceOnly<T>(xs: seq<T>, i: nat, j: nat)
    requires i < j < |xs| && multiset(xs)[xs[i]] == 1
    ensures xs[i] != xs[j]
  {
    assert xs == xs[..j] + [xs[j]] + xs[j + 1..];
    assert xs[i] == xs[..j][i];
    assert xs[i] in multiset(xs[..j]);
  }

  lemma DistinctIsApart(inv: DeviceInventory)
    requires Distinct(multiset(inv.active), multiset(inv.revoked))
    ensures AllApart(inv)
  {
    forall i, j | 0 <= i < j < |inv.active| ensures Apart(inv.active[i], inv.active[j]) {
      OnceOnly(inv.active, i, j);
    }
    forall i, j | 0 <= i < j < |inv.revoked| ensures Apart(inv.revoked[i].binding, inv.revoked[j].binding) {
      OnceOnly(inv.revoked, i, j);
    }
  }

  lemma AddedIsDistinct(active: multiset<Binding>, revoked: multiset<Revocation>, b: Binding)
    requires Distinct(active, revoked)
    requires forall x | x in active :: Apart(x, b)
    requires forall x | x in revoked :: Apart(x.binding, b)
    ensures Distinct(active + multiset{b}, revoked)
  {
  }

  lemma RetiredIsDistinct(active: multiset<Binding>, revoked: multiset<Revocation>, r: Revocation)
    requires Distinct(active, revoked) && r.binding in active
    ensures Distinct(active - multiset{r.binding}, revoked + multiset{r})
  {
    forall x | x in revoked ensures x != r { assert Apart(r.binding, x.binding); }
  }

  lemma FewerIsDistinct(active: multiset<Binding>, revoked: multiset<Revocation>, fewer: multiset<Revocation>)
    requires Distinct(active, revoked) && fewer <= revoked
    ensures Distinct(active, fewer)
  {
    forall x | x in fewer ensures x in revoked && fewer[x] == 1 {}
  }

  lemma NewMeansApart(inv: DeviceInventory, b: Binding)
    requires BindingIsNew(inv, b).None?
    ensures forall x | x in multiset(inv.active) :: Apart(x, b)
    ensures forall x | x in multiset(inv.revoked) :: Apart(x.binding, b)
  {
    forall x | x in multiset(inv.active) ensures Apart(x, b) { assert x in inv.active; }
    forall x | x in multiset(inv.revoked) ensures Apart(x.binding, b) { assert x in inv.revoked; }
  }

  /** The window of newest revocations, when one more is logged: at most the oldest leaves it. */
  lemma WindowMoves(log: seq<Revocation>, r: Revocation)
    ensures |log| < MAX_RECENT_REVOCATIONS ==>
            Newest(log + [r]) == Newest(log) + [r] && FloorOf(log + [r]) == 0 == FloorOf(log)
    ensures |log| >= MAX_RECENT_REVOCATIONS ==>
              |Newest(log)| == MAX_RECENT_REVOCATIONS && Newest(log + [r]) == Newest(log)[1..] + [r]
              && FloorOf(log + [r]) == Newest(log)[0].terminal
  {
  }

  /** Compaction takes out exactly the entry that was logged first. */
  lemma OldestIsFirstLogged(xs: seq<Revocation>, window: seq<Revocation>)
    requires multiset(xs) == multiset(window) && window != [] && xs != []
    requires Ascends(window)
    ensures xs[Oldest(xs)] == window[0]
    ensures multiset(Without(xs, Oldest(xs))) == multiset(window[1..])
  {
    SameElements(window, xs, window[0]);
    SameElements(xs, window, xs[Oldest(xs)]);
    assert window == [window[0]] + window[1..];
  }

  ghost predicate Ascends(xs: seq<Revocation>) {
    forall i, j | 0 <= i < j < |xs| :: xs[i].terminal < xs[j].terminal
  }

  lemma WindowAscends(log: seq<Revocation>, r: Revocation)
    requires Ascends(log + [r]) && |log| >= MAX_RECENT_REVOCATIONS
    ensures var window := Newest(log) + [r];
            |window| == MAX_RECENT_REVOCATIONS + 1 && Ascends(window) && FloorOf(log) <= window[0].terminal
  {
    var window := Newest(log) + [r];
    var k := |log| - MAX_RECENT_REVOCATIONS;
    assert window == (log + [r])[k..];
    if |log| > MAX_RECENT_REVOCATIONS {
      assert (log + [r])[k - 1] == log[k - 1] && (log + [r])[k] == window[0];
    }
  }

  lemma DropOnce(xs: seq<Revocation>, floor: u64)
    requires |xs| == MAX_RECENT_REVOCATIONS + 1
    ensures DropOldest(xs, floor) == (Without(xs, Oldest(xs)), MaxU64(floor, xs[Oldest(xs)].terminal))
  {
  }

  /** One more logged revocation, then compaction: the memory is the newest of the longer log. */
  lemma DropKeepsNewest(xs: seq<Revocation>, floor: u64, log: seq<Revocation>, r: Revocation)
    requires Ascends(log + [r])
    requires multiset(xs) == multiset(Newest(log) + [r]) && floor == FloorOf(log)
    ensures multiset(DropOldest(xs, floor).0) == multiset(Newest(log + [r]))
    ensures DropOldest(xs, floor).1 == FloorOf(log + [r])
  {
    WindowMoves(log, r);
    SameLength(xs, Newest(log) + [r]);
    if |log| >= MAX_RECENT_REVOCATIONS {
      WindowAscends(log, r);
      OldestIsFirstLogged(xs, Newest(log) + [r]);
      DropOnce(xs, floor);
      assert (Newest(log) + [r])[1..] == Newest(log)[1..] + [r];
    }
  }

  lemma LoggedLast(log: seq<Revocation>, r: Revocation)
    ensures r in Newest(log + [r])
  {
    var n := Newest(log + [r]);
    assert n[|n| - 1] == r;
  }

  lemma OrderGrows(log: seq<Revocation>, upTo: u64, r: Revocation)
    requires InOrder(log, upTo) && upTo < U64_MAX && r.terminal == upTo + 1
    ensures InOrder(log + [r], upTo + 1)
  {
  }

  lemma CompactedRemembers(inv: DeviceInventory, log: seq<Revocation>, r: Revocation)
    requires Ascends(log + [r])
    requires multiset(inv.revoked) == multiset(Newest(log) + [r]) && inv.floor == FloorOf(log)
    ensures var c := Compacted(inv);
            && multiset(c.revoked) == multiset(Newest(log + [r])) && c.floor == FloorOf(log + [r])
            && r in c.revoked
            && c.generation == inv.generation && c.active == inv.active
  {
    DropKeepsNewest(inv.revoked, inv.floor, log, r);
    var kept := DropOldest(inv.revoked, inv.floor).0;
    LoggedLast(log, r);
    SameElements(Newest(log + [r]), Sort(kept, RevocationLe), r);
  }

  lemma RetiredSorted(current: DeviceInventory, index: nat)
    requires index < |current.active| && current.generation < U64_MAX
    ensures Sorted(Retired(current, index).revoked, RevocationLe)
  {
    RevocationsSort(DropOldest(current.revoked + [Revocation(current.active[index], current.generation + 1)],
      current.floor).0);
  }

  lemma OneMore<T>(xs: seq<T>, ys: seq<T>, x: T)
    requires multiset(xs) == multiset(ys)
    ensures multiset(xs + [x]) == multiset(ys + [x])
  {
  }

  lemma WithoutSorted(xs: seq<Binding>, k: nat)
    requires k < |xs| && Sorted(xs, BindingLe)
    ensures Sorted(Without(xs, k), BindingLe)
  {
  }

  lemma RetireRemembers(core: Core, handle: bytes, h: History, predecessor: u64, retired: Binding)
    requires Remembers(h) && RevokeInventory(core, handle, h.inv, predecessor, retired).Ok?
    ensures var next := RevokeInventory(core, handle, h.inv, predecessor, retired).inventory;
            && Remembers(History(next, h.log + [Revocation(retired, next.generation)], h.applied + 1))
            && Revocation(retired, next.generation) in next.revoked
            && retired in h.inv.active && core.valid(handle, next)
  {
    var index := IndexOf(h.inv.active, retired).value;
    var r := Revocation(retired, h.inv.generation + 1);
    OrderGrows(h.log, h.inv.generation, r);
    OneMore(h.inv.revoked, Newest(h.log), r);
    CompactedRemembers(Moved(h.inv, index), h.log, r);
    RetiredSorted(h.inv, index);
    WithoutSorted(h.inv.active, index);
    RetiredIsDistinct(multiset(h.inv.active), multiset(h.inv.revoked), r);
    NewestShrinks(h.log, r);
    FewerIsDistinct(multiset(h.inv.active) - multiset{retired}, multiset(h.inv.revoked) + multiset{r},
                    multiset(Retired(h.inv, index).revoked));
  }

  lemma NewestShrinks(log: seq<Revocation>, r: Revocation)
    ensures multiset(Newest(log + [r])) <= multiset(Newest(log)) + multiset{r}
  {
    WindowMoves(log, r);
    if |log| >= MAX_RECENT_REVOCATIONS {
      assert Newest(log) == [Newest(log)[0]] + Newest(log)[1..];
    }
  }

  lemma AddRemembers(h: History, b: Binding, next: DeviceInventory)
    requires Remembers(h) && BindingIsNew(h.inv, b).None?
    requires next == h.inv.(active := Sort(h.inv.active + [b], BindingLe))
    ensures Remembers(History(next, h.log, h.applied))
  {
    BindingsSort(h.inv.active + [b]);
    NewMeansApart(h.inv, b);
    AddedIsDistinct(multiset(h.inv.active), multiset(h.inv.revoked), b);
  }

  lemma LinkRemembers(core: Core, handle: bytes, h: History, predecessor: u64, b: Binding)
    requires Remembers(h) && LinkInventory(core, handle, h.inv, predecessor, b).Ok?
    ensures var next := LinkInventory(core, handle, h.inv, predecessor, b).inventory;
            Remembers(History(next, h.log, h.applied + 1)) && core.valid(handle, next)
  {
    var next := LinkInventory(core, handle, h.inv, predecessor, b).inventory;
    AddRemembers(h, b, next.(generation := h.inv.generation));
    LogStaysInOrder(h.log, h.inv.generation);
  }

  /** A replacement that went through is a revocation and then an addition. */
  lemma ReplaceSplits(core: Core, handle: bytes, current: DeviceInventory, predecessor: u64, retired: Binding,
        replacement: Binding)
    requires ReplaceInventory(core, handle, current, predecessor, retired, replacement).Ok?
    ensures var mid := RevokeInventory(core, handle, current, predecessor, retired);
            var next := ReplaceInventory(core, handle, current, predecessor, retired, replacement).inventory;
            && mid.Ok? && BindingIsNew(mid.inventory, replacement).None? && core.valid(handle, next)
            && next == mid.inventory.(active := Sort(mid.inventory.active + [replacement], BindingLe))
  {
  }

  lemma ReplaceRemembers(core: Core, handle: bytes, h: History, predecessor: u64, retired: Binding,
        replacement: Binding)
    requires Remembers(h) && ReplaceInventory(core, handle, h.inv, predecessor, retired, replacement).Ok?
    ensures var next := ReplaceInventory(core, handle, h.inv, predecessor, retired, replacement).inventory;
            && Remembers(History(next, h.log + [Revocation(retired, next.generation)], h.applied + 1))
              && core.valid(handle, next)
            && Revocation(retired, next.generation) in next.revoked && Apart(retired, replacement)
              && replacement in next.active
  {
    ReplaceSplits(core, handle, h.inv, predecessor, retired, replacement);
    var mid := RevokeInventory(core, handle, h.inv, predecessor, retired).inventory;
    var next := ReplaceInventory(core, handle, h.inv, predecessor, retired, replacement).inventory;
    RetireRemembers(core, handle, h, predecessor, retired);
    AddedAfterRetired(mid, replacement, Revocation(retired, mid.generation));
    AddRemembers(History(mid, h.log + [Revocation(retired, mid.generation)], h.applied + 1), replacement, next);
  }

  lemma AddedAfterRetired(mid: DeviceInventory, b: Binding, r: Revocation)
    requires BindingIsNew(mid, b).None? && r in mid.revoked
    ensures Apart(r.binding, b) && b in Sort(mid.active + [b], BindingLe)
  {
    assert b in mid.active + [b];
    SameElements(mid.active + [b], Sort(mid.active + [b], BindingLe), b);
  }

  lemma StepRemembers(core: Core, handle: bytes, h: History, r: Request)
    requires Remembers(h)
    ensures Remembers(Applied(core, handle, h, r))
    ensures Transition(core, handle, h.inv, r).Ok? ==> core.valid(handle, Applied(core, handle, h, r).inv)
  {
    if Transition(core, handle, h.inv, r).Ok? {
      match r
      case Link(predecessor, b) => LinkRemembers(core, handle, h, predecessor, b);
      case Revoke(predecessor, retired) => RetireRemembers(core, handle, h, predecessor, retired);
      case Replace(predecessor, retired, replacement) =>
        ReplaceRemembers(core, handle, h, predecessor, retired, replacement);
    }
  }

  lemma LogStaysInOrder(log: seq<Revocation>, upTo: u64)
    requires InOrder(log, upTo) && upTo < U64_MAX
    ensures InOrder(log, upTo + 1)
  {
  }

  lemma {:induction false} ReplayRemembers(core: Core, handle: bytes, requests: seq<Request>)
    requires Lawful(core)
    ensures var h := Replay(core, handle, requests); Remembers(h) && core.valid(handle, h.inv)
    decreases |requests|
  {
    if requests != [] {
      ReplayRemembers(core, handle, requests[..|requests| - 1]);
      StepRemembers(core, handle, Replay(core, handle, requests[..|requests| - 1]), requests[|requests| - 1]);
    }
  }

  /**
    Every inventory reachable from the empty one: its generation counts the applied
    mutations, ids and keys are each used once, the revocations are exactly the eight
    newest ever made, and the floor is the terminal generation of the newest forgotten.
   */
  lemma ReachableInventories(core: Core, handle: bytes, requests: seq<Request>)
    requires Lawful(core)
    ensures var h := Replay(core, handle, requests);
            && h.inv.generation == h.applied
            && AllApart(h.inv)
            && h.inv.revoked == Sort(Newest(h.log), RevocationLe)
            && h.inv.floor == FloorOf(h.log)
            && InOrder(h.log, h.inv.generation)
            && Sorted(h.inv.active, BindingLe) && |h.inv.active| <= MAX_ACTIVE_BINDINGS
  {
    ReplayRemembers(core, handle, requests);
    var h := Replay(core, handle, requests);
    DistinctIsApart(h.inv);
    RevocationsOrdered();
    RevocationsSort(Newest(h.log));
    SortedUnique(h.inv.revoked, Sort(Newest(h.log), RevocationLe), RevocationLe);
  }

  /**
    A replacement can reuse neither the id nor the key of the binding it retires: what
    was just retired is always still remembered after compaction.
   */
  lemma ReplacementIsApartFromRetired(core: Core, handle: bytes, requests: seq<Request>, predecessor: u64,
        retired: Binding, replacement: Binding)
    requires Lawful(core)
    requires ReplaceInventory(core, handle, Replay(core, handle, requests).inv, predecessor, retired, replacement).Ok?
    ensures var next := ReplaceInventory(core, handle, Replay(core, handle, requests).inv, predecessor, retired,
            replacement).inventory;
            && Revocation(retired, next.generation) in next.revoked && replacement in next.active
              && retired !in next.active
            && Apart(retired, replacement)
  {
    ReplayRemembers(core, handle, requests);
    var h := Replay(core, handle, requests);
    ReplaceRemembers(core, handle, h, predecessor, retired, replacement);
    RetiredIsGone(ReplaceInventory(core, handle, h.inv, predecessor, retired, replacement).inventory, retired);
  }

  lemma RetiredIsGone(inv: DeviceInventory, retired: Binding)
    requires Distinct(multiset(inv.active), multiset(inv.revoked))
    requires Revocation(retired, inv.generation) in inv.revoked
    ensures retired !in inv.active
  {
    var r := Revocation(retired, inv.generation);
    InMultiset(inv.revoked, r);
    InMultiset(inv.active, retired);
    assert forall x | x in multiset(inv.active) :: Apart(x, r.binding);
  }
}
