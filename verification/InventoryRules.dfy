/**
  When a device rule succeeds, what it then leaves and why it is refused otherwise, said of
  the inventory and the request alone; and that no predecessor generation is used twice.
 */
module InventoryRules {
  import opened Bytes
  import opened Order
  import opened Inventory
  import opened InventoryCodec
  import opened InventoryStore
  import Tx = InventoryTx
  import Serial = InventorySerial

  /** The binding shares no device id and no key with any active or remembered binding. */
  ghost predicate IsNew(inv: DeviceInventory, b: Binding) {
    && (forall x | x in inv.active :: x.deviceId != b.deviceId && x.key != b.key)
    && (forall x | x in inv.revoked :: x.binding.deviceId != b.deviceId && x.binding.key != b.key)
  }

  // Compaction.

  /** What is not kept is no newer than anything kept, and the floor is as high as what is not kept, and no higher. */
  ghost predicate Forgets(all: multiset<Revocation>, kept: multiset<Revocation>, before: u64, floor: u64) {
    && kept <= all && before <= floor
    && (forall x, y | x in all - kept && y in kept :: x.terminal <= y.terminal)
    && (forall x | x in all - kept :: x.terminal <= floor)
    && (floor == before || exists x :: x in all - kept && x.terminal == floor)
  }

  lemma {:induction false} DropForgets(xs: seq<Revocation>, floor: u64)
    ensures var r := DropOldest(xs, floor);
            Forgets(multiset(xs), multiset(r.0), floor, r.1) && |r.0| == (if |xs| <= 8 then |xs| else 8)
    decreases |xs|
  {
    if |xs| > MAX_RECENT_REVOCATIONS {
      var k := Oldest(xs);
      var rest, raised := Without(xs, k), MaxU64(floor, xs[k].terminal);
      DropForgets(rest, raised);
      DropOne(xs, k, DropOldest(rest, raised).0, floor, DropOldest(rest, raised).1);
    }
  }

  lemma DropOne(xs: seq<Revocation>, k: nat, kept: seq<Revocation>, before: u64, floor: u64)
    requires k < |xs| && forall i | 0 <= i < |xs| :: xs[k].terminal <= xs[i].terminal
    requires Forgets(multiset(Without(xs, k)), multiset(kept), MaxU64(before, xs[k].terminal), floor)
    ensures Forgets(multiset(xs), multiset(kept), before, floor)
  {
    var rest := multiset(Without(xs, k));
    assert multiset(xs) == rest + multiset{xs[k]};
    forall y | y in rest ensures xs[k].terminal <= y.terminal { assert y in multiset(xs); InMultiset(xs, y); }
    ForgetsOneMore(rest, multiset(kept), before, floor, xs[k]);
  }

  lemma ForgetsOneMore(rest: multiset<Revocation>, kept: multiset<Revocation>, before: u64, floor: u64, x: Revocation)
    requires Forgets(rest, kept, MaxU64(before, x.terminal), floor) && forall y | y in rest :: x.terminal <= y.terminal
    ensures Forgets(rest + multiset{x}, kept, before, floor)
  {
    assert rest + multiset{x} - kept == (rest - kept) + multiset{x};
    assert x in rest + multiset{x} - kept;
    forall y | y in kept ensures y in rest {}
    if floor != before && floor != MaxU64(before, x.terminal) {
      var z :| z in rest - kept && z.terminal == floor;
      assert z in rest + multiset{x} - kept;
    }
  }

  /** The inventory after `retired` was revoked: one generation on, the revocation among the at most eight kept. */
  ghost predicate IsRevoked(current: DeviceInventory, retired: Binding, next: DeviceInventory) {
    && next.generation == current.generation + 1
    && multiset(next.active) == multiset(current.active) - multiset{retired}
    && (Sorted(current.active, BindingLe) ==> Sorted(next.active, BindingLe))
    && Sorted(next.revoked, RevocationLe)
    && |next.revoked| == (if |current.revoked| < 8 then |current.revoked| + 1 else 8)
    && Forgets(multiset(current.revoked) + multiset{Revocation(retired, current.generation + 1)},
               multiset(next.revoked), current.floor, next.floor)
  }

  lemma CompactionForgets(inv: DeviceInventory, xs: seq<Revocation>, r: Revocation)
    requires inv.revoked == xs + [r]
    ensures var next := Compacted(inv);
            && next.generation == inv.generation && next.active == inv.active && Sorted(next.revoked, RevocationLe)
            && |next.revoked| == (if |xs| < 8 then |xs| + 1 else 8)
            && Forgets(multiset(xs) + multiset{r}, multiset(next.revoked), inv.floor, next.floor)
  {
    DropForgets(inv.revoked, inv.floor);
    var kept := DropOldest(inv.revoked, inv.floor).0;
    RevocationsSort(kept);
    SameLength(Sort(kept, RevocationLe), kept);
    assert multiset(xs + [r]) == multiset(xs) + multiset{r};
  }

  lemma RetiredIsRevoked(current: DeviceInventory, index: nat)
    requires index < |current.active| && current.generation < U64_MAX
    ensures IsRevoked(current, current.active[index], Retired(current, index))
  {
    var r := Revocation(current.active[index], current.generation + 1);
    CompactionForgets(Moved(current, index), current.revoked, r);
    Spelled(current, current.active[index], Compacted(Moved(current, index)), r, index);
  }

  lemma Spelled(current: DeviceInventory, retired: Binding, next: DeviceInventory, r: Revocation, index: nat)
    requires index < |current.active| && current.active[index] == retired && next.generation == current.generation + 1
    requires next.active == Without(current.active, index) && r == Revocation(retired, current.generation + 1)
    requires Sorted(next.revoked, RevocationLe)
    requires |next.revoked| == (if |current.revoked| < 8 then |current.revoked| + 1 else 8)
    requires Forgets(multiset(current.revoked) + multiset{r}, multiset(next.revoked), current.floor, next.floor)
    ensures IsRevoked(current, retired, next)
  {
    if Sorted(current.active, BindingLe) { WithoutSorted(current.active, index); }
  }

  /** The inventory with `added` among its active bindings and nothing else changed. */
  ghost predicate IsAdded(current: DeviceInventory, added: Binding, next: DeviceInventory) {
    && next == current.(active := next.active)
    && multiset(next.active) == multiset(current.active) + multiset{added} && Sorted(next.active, BindingLe)
  }

  lemma SortedIsAdded(current: DeviceInventory, b: Binding)
    ensures IsAdded(current, b, current.(active := Sort(current.active + [b], BindingLe)))
  {
    BindingsSort(current.active + [b]);
  }

  // The three rules.

  ghost predicate CanLink(core: Core, current: DeviceInventory, p: u64, b: Binding) {
    && core.keyError(b.key).None? && b.predecessor.None? && current.generation == p && IsNew(current, b)
    && current.generation < U64_MAX
  }

  /** A link: one generation on, the binding added; refused as invalid only if the core would not encode that. */
  lemma LinkExactly(core: Core, handle: bytes, current: DeviceInventory, p: u64, b: Binding)
        returns (next: DeviceInventory)
    ensures CanLink(core, current, p, b) ==>
              && IsAdded(current.(generation := p + 1), b, next)
              && LinkInventory(core, handle, current, p, b)
                 == (if core.valid(handle, next) then Ok(next) else Err(Invalid))
    ensures !CanLink(core, current, p, b) ==> LinkInventory(core, handle, current, p, b).Err?
  {
    next := Empty;
    if CanLink(core, current, p, b) {
      next := current.(generation := p + 1, active := Sort(current.active + [b], BindingLe));
      SortedIsAdded(current.(generation := p + 1), b);
    }
  }

  ghost predicate CanRevoke(core: Core, current: DeviceInventory, p: u64, retired: Binding) {
    && core.keyError(retired.key).None? && current.generation == p && retired in current.active
    && current.generation < U64_MAX
  }

  lemma RevokeExactly(core: Core, handle: bytes, current: DeviceInventory, p: u64, retired: Binding)
        returns (next: DeviceInventory)
    ensures CanRevoke(core, current, p, retired) ==>
              && IsRevoked(current, retired, next)
              && RevokeInventory(core, handle, current, p, retired)
                 == (if core.valid(handle, next) then Ok(next) else Err(Invalid))
    ensures !CanRevoke(core, current, p, retired) ==> RevokeInventory(core, handle, current, p, retired).Err?
  {
    next := Empty;
    if CanRevoke(core, current, p, retired) {
      var index := IndexOf(current.active, retired).value;
      next := Retired(current, index);
      RetiredIsRevoked(current, index);
    }
  }

  /** The replacement carries the commitment of exactly the binding that is retired. */
  ghost predicate CanReplace(core: Core, current: DeviceInventory, p: u64, retired: Binding, replacement: Binding) {
    && CanRevoke(core, current, p, retired) && core.keyError(replacement.key).None?
    && core.commitment(retired).Some? && replacement.predecessor == core.commitment(retired)
  }

  /** A replacement is a revocation, then an addition checked against what that left, each valid in itself. */
  lemma ReplaceExactly(core: Core, handle: bytes, current: DeviceInventory, p: u64, retired: Binding,
        replacement: Binding) returns (mid: DeviceInventory, next: DeviceInventory)
    ensures CanReplace(core, current, p, retired, replacement) ==>
              && IsRevoked(current, retired, mid) && IsAdded(mid, replacement, next)
              && ReplaceEnds(core, handle, ReplaceInventory(core, handle, current, p, retired, replacement), mid,
                             replacement, next)
    ensures !CanReplace(core, current, p, retired, replacement) ==>
              ReplaceInventory(core, handle, current, p, retired, replacement).Err?
  {
    mid := RevokeExactly(core, handle, current, p, retired);
    next := mid.(active := Sort(mid.active + [replacement], BindingLe));
    SortedIsAdded(mid, replacement);
    NewExactly(mid, replacement);
    ReplaceFrom(core, handle, current, p, retired, replacement, RevokeInventory(core, handle, current, p, retired));
  }

  ghost predicate ReplaceEnds(core: Core, handle: bytes, r: Outcome, mid: DeviceInventory, replacement: Binding,
        next: DeviceInventory) {
    && (r.Ok? <==> core.valid(handle, mid) && IsNew(mid, replacement) && core.valid(handle, next))
    && (r.Ok? ==> r.inventory == next)
  }

  lemma ReplaceFrom(core: Core, handle: bytes, current: DeviceInventory, p: u64, retired: Binding, replacement: Binding,
        revoked: Outcome)
    requires revoked == RevokeInventory(core, handle, current, p, retired)
    ensures var r := ReplaceInventory(core, handle, current, p, retired, replacement);
            && (r.Ok? <==>
                  && core.keyError(retired.key).None? && core.keyError(replacement.key).None?
                  && core.commitment(retired).Some? && replacement.predecessor == core.commitment(retired)
                  && revoked.Ok? && BindingIsNew(revoked.inventory, replacement).None?
                  && core.valid(handle, revoked.inventory.(
                       active := Sort(revoked.inventory.active + [replacement], BindingLe))))
            && (r.Ok? ==>
                  r.inventory
                  == revoked.inventory.(active := Sort(revoked.inventory.active + [replacement], BindingLe)))
  {
  }

  lemma NewExactly(inv: DeviceInventory, b: Binding)
    ensures BindingIsNew(inv, b).None? <==> IsNew(inv, b)
  {
  }

  /** What any rule applied to is at the generation the request names, and what it leaves is at the next. */
  lemma AppliesAtItsPredecessor(core: Core, handle: bytes, current: DeviceInventory, r: Request)
    requires Transition(core, handle, current, r).Ok?
    ensures current.generation == r.predecessor
    ensures Transition(core, handle, current, r).inventory.generation == r.predecessor + 1
  {
    match r
    case Link(p, b) => var next := LinkExactly(core, handle, current, p, b);
    case Revoke(p, retired) => var next := RevokeExactly(core, handle, current, p, retired);
    case Replace(p, retired, replacement) =>
      var mid, next := ReplaceExactly(core, handle, current, p, retired, replacement);
  }

  // Why a request is refused: the first of its rules that is broken.

  type Broken = Option<InventoryError>

  function First(broken: bool, e: InventoryError, rest: Broken): Broken { if broken then Some(e) else rest }

  /** The rules for a binding that is to be added, and then `rest`. */
  ghost function NewRules(inv: DeviceInventory, b: Binding, rest: Broken): Broken {
    First(exists x | x in inv.active :: x == b, DuplicateBinding,
    First(exists x | x in inv.active :: x.deviceId == b.deviceId, DeviceIdInUse,
    First(exists x | x in inv.active :: x.key == b.key, IdentityKeyInUse,
    First(exists x | x in inv.revoked :: x.binding == b, BindingRevoked,
    First(exists x | x in inv.revoked :: x.binding.deviceId == b.deviceId, DeviceIdRetired,
    First(exists x | x in inv.revoked :: x.binding.key == b.key, IdentityKeyInUse, rest))))))
  }

  function KeyCode(core: Core, b: Binding): nat { if core.keyError(b.key).Some? then core.keyError(b.key).value else 0 }

  ghost function RevokeRules(current: DeviceInventory, p: u64, retired: Binding, rest: Broken): Broken {
    First(current.generation != p, PredecessorMismatch,
    First(retired !in current.active, BindingNotActive,
    First(current.generation == U64_MAX, GenerationExhausted, rest)))
  }

  lemma NewRefuses(inv: DeviceInventory, b: Binding)
    ensures BindingIsNew(inv, b) == NewRules(inv, b, None)
  {
  }

  lemma LinkRefusal(core: Core, handle: bytes, current: DeviceInventory, p: u64, b: Binding)
    requires LinkInventory(core, handle, current, p, b).Err?
    ensures Some(LinkInventory(core, handle, current, p, b).error) ==
            First(core.keyError(b.key).Some?, IdentityKey(KeyCode(core, b)),
            First(b.predecessor.Some?, UnexpectedReplacementPredecessor,
            First(current.generation != p, PredecessorMismatch,
            NewRules(current, b,
            First(current.generation == U64_MAX, GenerationExhausted, Some(Invalid))))))
  {
    NewRefuses(current, b);
  }

  lemma RevokeRefusal(core: Core, handle: bytes, current: DeviceInventory, p: u64, retired: Binding)
    requires RevokeInventory(core, handle, current, p, retired).Err?
    ensures Some(RevokeInventory(core, handle, current, p, retired).error) ==
            First(core.keyError(retired.key).Some?, IdentityKey(KeyCode(core, retired)),
            RevokeRules(current, p, retired, Some(Invalid)))
  {
  }

  /** A replacement looks at the two keys and the marker, then revokes, then looks at the replacement. */
  lemma ReplaceRefusal(core: Core, handle: bytes, current: DeviceInventory, p: u64, retired: Binding,
        replacement: Binding, mid: DeviceInventory)
    requires ReplaceInventory(core, handle, current, p, retired, replacement).Err?
    requires var revoked := RevokeInventory(core, handle, current, p, retired); revoked.Ok? ==> mid == revoked.inventory
    ensures Some(ReplaceInventory(core, handle, current, p, retired, replacement).error) ==
            First(core.keyError(retired.key).Some?, IdentityKey(KeyCode(core, retired)),
            First(core.keyError(replacement.key).Some?, IdentityKey(KeyCode(core, replacement)),
            First(core.commitment(retired).None?, Invalid,
            First(replacement.predecessor != core.commitment(retired), ReplacementPredecessorMismatch,
            RevokeRules(current, p, retired,
            First(RevokeInventory(core, handle, current, p, retired).Err?, Invalid,
            NewRules(mid, replacement, Some(Invalid))))))))
  {
    NewRefuses(mid, replacement);
    var revoked := RevokeInventory(core, handle, current, p, retired);
    if revoked.Err? {
      RevokeRefusal(core, handle, current, p, retired);
    } else {
      RevokedIsAdmitted(core, handle, current, p, retired);
    }
  }

  lemma RevokedIsAdmitted(core: Core, handle: bytes, current: DeviceInventory, p: u64, retired: Binding)
    requires RevokeInventory(core, handle, current, p, retired).Ok?
    ensures forall rest :: RevokeRules(current, p, retired, rest) == rest
  {
  }

  // Over interleaved runs.

  /** The requests a log committed, in order. */
  ghost predicate RequestAt(log: seq<Tx.Entry<DeviceInventory>>, k: nat, r: Request) {
    k < |log| && log[k].request == EncodeRequest(r)
  }

  lemma EntryApplies(core: Core, dir: Directory, who: Account, e: Tx.Entry<DeviceInventory>, r: Request)
    requires IsCall(core, dir, who, e.key, e.request, e.rule) && e.request == EncodeRequest(r)
    requires e.rule(e.before) == Tx.Next(e.after)
    ensures e.before.generation == r.predecessor && e.after.generation == r.predecessor + 1
  {
    var r' :| e.request == EncodeRequest(r') && e.rule == RuleFor(core, dir, who, r');
    RequestsTell(r, r');
    var handle := if who in dir.users && who in dir.handles then dir.handles[who] else [];
    AppliesAtItsPredecessor(core, handle, e.before, r);
  }

  /** The row an entry replaced held what the entry before it wrote. */
  lemma BeforeIsAfter(c: Tx.Config<DeviceInventory>, log: seq<Tx.Entry<DeviceInventory>>, k: nat)
    requires Tx.Lawful(c) && Tx.Chain(c, log) && k < |log|
    ensures log[k].before == if k == 0 then c.first else log[k - 1].after
  {
    assert Tx.Link(c, log, k);
    if k > 0 { assert Tx.Link(c, log, k - 1); }
  }

  /** The entry is some request's, and whichever request it is, it was applied at its predecessor. */
  ghost predicate AsAsked(e: Tx.Entry<DeviceInventory>) {
    && e.after.generation == e.before.generation + 1
    && forall r: Request | e.request == EncodeRequest(r) :: e.before.generation == r.predecessor
  }

  lemma CallIsAsAsked(core: Core, dir: Directory, who: Account, e: Tx.Entry<DeviceInventory>)
    requires IsCall(core, dir, who, e.key, e.request, e.rule) && e.rule(e.before) == Tx.Next(e.after)
    ensures AsAsked(e)
  {
    forall r: Request | e.request == EncodeRequest(r)
      ensures e.before.generation == r.predecessor && e.after.generation == r.predecessor + 1
    {
      EntryApplies(core, dir, who, e, r);
    }
    var r: Request :| e.request == EncodeRequest(r) && e.rule == RuleFor(core, dir, who, r);
    assert e.request == EncodeRequest(r);
  }

  lemma {:induction false} PredecessorsCount(c: Tx.Config<DeviceInventory>, log: seq<Tx.Entry<DeviceInventory>>, k: nat)
    requires Tx.Lawful(c) && Tx.Chain(c, log) && c.first.generation == 0 && k < |log|
    requires AllAsAsked(log)
    ensures log[k].before.generation == k && log[k].after.generation == k + 1
    decreases k
  {
    BeforeIsAfter(c, log, k);
    if k > 0 { PredecessorsCount(c, log, k - 1); }
    assert AsAsked(log[k]);
  }

  ghost predicate AllAsAsked(log: seq<Tx.Entry<DeviceInventory>>) { forall i | 0 <= i < |log| :: AsAsked(log[i]) }

  /** Everything the run theorem needs to know of a run's log. */
  lemma RunIsAsAsked(core: Core, dir: Directory, who: Account, c: Tx.Config<DeviceInventory>,
        steps: seq<Tx.Step<DeviceInventory>>, w: Tx.World<DeviceInventory>)
    requires c == AccountConfig(core, dir, who) && Lawful(core) && AllCalls(core, dir, who, steps)
    requires w == Tx.Run(c, steps)
    ensures Tx.Lawful(c) && Tx.Chain(c, w.log) && AllAsAsked(w.log)
  {
    AccountConfigIsLawful(core, dir, who);
    CallsAreChecked(core, dir, who, steps);
    Tx.RunKeeps(c, steps);
    forall i | 0 <= i < |w.log| ensures AsAsked(w.log[i]) {
      LogIsCalls(core, dir, who, c, steps);
      assert Tx.Link(c, w.log, i);
      CallIsAsAsked(core, dir, who, w.log[i]);
    }
  }

  /**
    However the transactions of an account interleave and fail: the mutation that commits as
    number `k` named predecessor `k`, so no two name the same one and none is skipped.
   */
  lemma NoPredecessorIsUsedTwice(core: Core, dir: Directory, who: Account, steps: seq<Tx.Step<DeviceInventory>>,
        w: Tx.World<DeviceInventory>, k: nat, r: Request)
    requires Lawful(core) && AllCalls(core, dir, who, steps)
    requires w == Tx.Run(AccountConfig(core, dir, who), steps) && RequestAt(w.log, k, r)
    ensures r.predecessor == k && w.log[k].after.generation == k + 1
  {
    RunIsAsAsked(core, dir, who, AccountConfig(core, dir, who), steps, w);
    PredecessorsCount(AccountConfig(core, dir, who), w.log, k);
    assert AsAsked(w.log[k]);
  }
}
