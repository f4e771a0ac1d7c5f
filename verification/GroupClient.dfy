/**
  The coordinator object: a direct send and a recovery as the source runs them, tied
  to the steps of the `Coordinator` machine, and one running coordinator whose store
  is replaced under it.
 */
module GroupClient {
  import opened Bytes
  import F = Fence
  import opened Coordinator

  datatype SendResult = RefusedFrozen | ExportFailed | NotCommitted | Dispatched | Undelivered

  datatype RecoverResult = Restored | RecoveryFailed | RebuildFailed | RolledBack

  /**
    One commit of the rebuild of a group: a held roster control is applied or dropped, which
    may let go of retained ciphertexts and changes nothing of the provider.
   */
  datatype Drain = Drain(keep: set<Cipher>, other: bytes, write: F.Write)

  function DrainContent(snap: Snapshot, d: Drain): Content {
    Content(snap.content.provider, snap.content.outbox * d.keep, d.other)
  }

  /** The commits of a rebuild one after another, up to the first that does not succeed. */
  function Drained(h: F.Handle, durable: Option<Snapshot>, snap: Snapshot,
        drains: seq<Drain>): (F.Handle, Option<Snapshot>, Snapshot, bool)
    decreases |drains|
  {
    if drains == [] then (h, durable, snap, true)
    else
      var (h', durable', done) := CommitFrom(h, durable, snap, DrainContent(snap, drains[0]), drains[0].write);
      if done.None? then (h', durable', snap, false) else Drained(h', durable', done.value, drains[1..])
  }

  /** A rebuild whose commits all succeed leaves the handle unlatched. */
  lemma {:induction false} DrainedIsFree(h: F.Handle, durable: Option<Snapshot>, snap: Snapshot, drains: seq<Drain>)
    requires !h.frozen
    ensures var (h', _, _, ok) := Drained(h, durable, snap, drains); ok ==> !h'.frozen
    decreases |drains|
  {
    if drains != [] {
      var (h', durable', done) := CommitFrom(h, durable, snap, DrainContent(snap, drains[0]), drains[0].write);
      if done.Some? { DrainedIsFree(h', durable', done.value, drains[1..]); }
    }
  }

  /** What a commit through a handle leaves: the handle, the store and the snapshot if it committed. */
  function CommitFrom(h: F.Handle, durable: Option<Snapshot>, snap: Snapshot, content: Content,
        w: F.Write): (F.Handle, Option<Snapshot>, Option<Snapshot>) {
    var next := F.NextGeneration(h, snap.generation);
    if h.frozen || next.None? then (h, durable, None)
    else
      var candidate := F.Stamped(next.value, content);
      var (h', durable', outcome) := F.HandleCommit(h, durable, candidate, w);
      (h', durable', if outcome.Committed? then Some(candidate) else None)
  }

  /** Every operation's commit: a numbered candidate is published, or nothing the caller keeps changes. */
  method CommitCandidate(store: F.DurableStore<Content>, snap: Snapshot, content: Content, w: F.Write)
        returns (done: Option<Snapshot>)
    modifies store, store.inner
    ensures (store.View(), store.inner.durable, done)
            == CommitFrom(old(store.View()), old(store.inner.durable), snap, content, w)
  {
    if store.frozen { return None; }
    var next := store.Next(snap.generation);
    if next.None? { return None; }
    var candidate := F.Stamped(next.value, content);
    var outcome := store.Commit(candidate, w);
    done := if outcome == F.Committed then Some(candidate) else None;
  }

  /** `commit_provider_state`: publish a new provider state, or change nothing the caller keeps. */
  method CommitProviderState(store: F.DurableStore<Content>, snap: Snapshot, provider: Provider, w: F.Write)
        returns (done: Option<Snapshot>)
    modifies store, store.inner
    ensures (store.View(), store.inner.durable, done)
            == CommitFrom(old(store.View()), old(store.inner.durable), snap, snap.content.(provider := provider), w)
  {
    done := CommitCandidate(store, snap, snap.content.(provider := provider), w);
  }

  class GroupClient {
    const store: F.DurableStore<Content>
    var memory: Provider
    var snapshot: Snapshot
    var poisoned: bool
    var wire: seq<Cipher>
    var encryptions: nat

    predicate IsFrozen()
      reads this, store
    {
      poisoned || store.frozen
    }

    constructor (store: F.DurableStore<Content>, snapshot: Snapshot)
      ensures this.store == store && this.snapshot == snapshot && memory == snapshot.content.provider
      ensures !poisoned && wire == [] && encryptions == 0
    {
      this.store, this.snapshot, memory, poisoned := store, snapshot, snapshot.content.provider, false;
      wire, encryptions := [], 0;
    }

    /**
      Nothing is put on the wire unless the advanced ratchet state was committed, and a
      coordinator that could not commit it is left frozen. `exports`, `w` and `reaches`
      are the provider's, the store's and the relay's answers.
     */
    method SendDirect(peer: bytes, plaintext: bytes, exports: bool, w: F.Write, reaches: bool) returns (r: SendResult)
      requires F.Possible(w)
      modifies this, store, store.inner
      ensures old(IsFrozen()) ==>
                r == RefusedFrozen && wire == old(wire) && memory == old(memory) && snapshot == old(snapshot)
                && poisoned == old(poisoned) && store.View() == old(store.View())
                  && store.inner.durable == old(store.inner.durable)
      ensures !old(IsFrozen()) && exports ==>
                (store.View(), store.inner.durable, if r.Dispatched? || r.Undelivered? then Some(snapshot) else None)
                == CommitFrom(old(store.View()), old(store.inner.durable), old(snapshot),
                  old(snapshot).content.(provider := memory), w)
      ensures !old(IsFrozen()) && !exports ==>
                r == ExportFailed && store.View() == old(store.View())
                && store.inner.durable == old(store.inner.durable)
      ensures !old(IsFrozen()) ==> memory == old(memory).Advanced(peer) && encryptions == old(encryptions) + 1
      ensures (r.ExportFailed? ==> !exports) && (r.Dispatched? ==> reaches) && (r.Undelivered? ==> !reaches)
      ensures r.Dispatched? || r.Undelivered? ==>
                !IsFrozen() && store.inner.durable == Some(snapshot) && snapshot.content.provider == memory
      ensures r.Dispatched? ==>
                wire == old(wire) + [Cipher(peer, old(memory).Position(peer), plaintext, old(encryptions))]
      ensures !r.Dispatched? ==> wire == old(wire)
      ensures r.NotCommitted? || r.ExportFailed? ==> IsFrozen() && snapshot == old(snapshot)
    {
      if IsFrozen() { return RefusedFrozen; }
      var cipher := Cipher(peer, memory.Position(peer), plaintext, encryptions);
      memory, encryptions := memory.Advanced(peer), encryptions + 1;
      poisoned := true;
      if !exports { return ExportFailed; }
      var done := CommitProviderState(store, snapshot, memory, w);
      if done.None? { return NotCommitted; }
      snapshot := done.value;
      poisoned := false;
      if !reaches { return Undelivered; }
      wire := wire + [cipher];
      r := Dispatched;
    }

    /** Applying the held controls of the group, each in its own commit. */
    method Rebuild(drains: seq<Drain>) returns (ok: bool)
      modifies this`snapshot, store, store.inner
      ensures (store.View(), store.inner.durable, snapshot, ok)
              == Drained(old(store.View()), old(store.inner.durable), old(snapshot), drains)
      ensures snapshot.content.provider == old(snapshot).content.provider
    {
      for i := 0 to |drains|
        invariant snapshot.content.provider == old(snapshot).content.provider
        invariant Drained(store.View(), store.inner.durable, snapshot, drains[i..])
                  == Drained(old(store.View()), old(store.inner.durable), old(snapshot), drains)
      {
        assert drains[i..][0] == drains[i] && drains[i..][1..] == drains[i + 1..];
        var done := CommitCandidate(store, snapshot, DrainContent(snapshot, drains[i]), drains[i].write);
        if done.None? { return false; }
        snapshot := done.value;
      }
      ok := true;
    }

    /**
      The freeze outlives the store's own latch until the provider has been restored and
      the group rebuilt: whatever fails, the coordinator stays frozen. `restores` is whether
      the client took the recovered state, `decodes` whether the group's records did.
     */
    method Recover(readable: bool, restores: bool, decodes: bool, drains: seq<Drain>) returns (r: RecoverResult)
      modifies this, store, store.inner
      ensures wire == old(wire) && encryptions == old(encryptions)
      ensures r.RolledBack? <==> readable && F.Behind(old(store.View()), old(store.inner.durable))
      ensures r.Restored? || r.RebuildFailed? <==>
              readable && restores && old(store.inner.durable).Some?
                && !F.Behind(old(store.View()), old(store.inner.durable))
      ensures r.Restored? ==>
                !IsFrozen() && decodes && memory == snapshot.content.provider
                && (store.View(), store.inner.durable, snapshot, true)
                   == Drained(F.HandleAdopt(old(store.View()), old(store.inner.durable)), old(store.inner.durable),
                     old(store.inner.durable).value, drains)
      ensures r.RebuildFailed? ==>
                IsFrozen() && poisoned && (decodes ==>
                  (store.View(), store.inner.durable, snapshot, false)
                  == Drained(F.HandleAdopt(old(store.View()), old(store.inner.durable)), old(store.inner.durable),
                    old(store.inner.durable).value, drains))
      ensures r.RolledBack? || r.RecoveryFailed? ==>
                IsFrozen() && poisoned && snapshot == old(snapshot) && store.inner.durable == old(store.inner.durable)
    {
      poisoned := true;
      var read := store.RecoverNotBehind(readable);
      if read.Refuses? {
        return if read.error.Unreadable? then RecoveryFailed else RolledBack;
      }
      if read.snapshot.None? || !restores { return RecoveryFailed; }
      memory := read.snapshot.value.content.provider;
      snapshot := read.snapshot.value;
      if !decodes { return RebuildFailed; }
      DrainedIsFree(store.View(), store.inner.durable, snapshot, drains);
      var ok := Rebuild(drains);
      if !ok { return RebuildFailed; }
      poisoned := false;
      r := Restored;
    }
  }

  /** A candidate offered in the machine is a commit through the seat's handle. */
  lemma OfferIsCommitFrom(f: F.World<Content>, i: nat, snap: Snapshot, content: Content, write: F.Write)
    requires F.Inv(f) && i in f.seats && F.Possible(write)
    ensures var (h, durable, done) := CommitFrom(f.seats[i].handle, f.Durable(), snap, content, write);
            var (f', done') := Offer(f, i, snap.generation, content, write);
            && i in f'.seats && f'.seats[i].handle == h && f'.Durable() == durable && done' == done
            && |f'.landed| == |f.landed| + (if durable == f.Durable() then 0 else 1)
            && (done.Some? ==> !h.frozen && durable != f.Durable())
            && (done.None? && F.NextGeneration(f.seats[i].handle, snap.generation).Some? ==> h.frozen)
  {
    var next := F.NextGeneration(f.seats[i].handle, snap.generation);
    if next.Some? && !f.seats[i].handle.frozen {
      assert F.SeatOk(f.landed, f.seats[i]);
      F.PublishSpelled(f, i, snap.generation, content, write);
    }
  }

  /**
    A direct send is steps of the machine: encrypt, commit, and when the commit
    succeeded, dispatch.
   */
  lemma SendDirectIsThreeSteps(w: World, i: nat, peer: bytes, plaintext: bytes, write: F.Write)
    requires Inv(w) && Free(w, i) && F.Possible(write)
    ensures var c := w.clients[i];
            var memory := c.memory.Advanced(peer);
            var cipher := Cipher(peer, c.memory.Position(peer), plaintext, w.encryptions);
            var (h, durable, done) := CommitFrom(w.fence.seats[i].handle, w.fence.Durable(), c.snap,
              c.snap.content.(provider := memory), write);
            var mid := ApplyCommitPending(ApplyEncrypt(w, i, peer, plaintext, true), i, write);
            var w' := ApplyDispatch(mid, i, cipher);
            && i in mid.clients && i in mid.fence.seats && mid.fence.seats[i].handle == h
              && mid.fence.Durable() == durable
            && mid.wire == w.wire && mid.clients[i].memory == memory
            && (done.Some? ==>
                  mid.clients[i].snap == done.value && Free(mid, i)
                  && w'.wire == w.wire + [Sent(cipher, |w.fence.landed| + 1)])
            && (done.None? ==> mid.clients[i].snap == c.snap && !Free(mid, i))
  {
    var c := w.clients[i];
    var w1 := ApplyEncrypt(w, i, peer, plaintext, true);
    OfferIsCommitFrom(w.fence, i, c.snap, c.snap.content.(provider := c.memory.Advanced(peer)), write);
    assert PendingContent(w1.clients[i]) == c.snap.content.(provider := c.memory.Advanced(peer));
  }

  /** The commits of a rebuild as steps of the machine, up to the first that does not succeed. */
  ghost function Rebuilt(w: World, i: nat, drains: seq<Drain>): (World, bool)
    decreases |drains|
  {
    if drains == [] || i !in w.clients then (w, true)
    else
      var snap := w.clients[i].snap;
      var w' := ApplyCommitOther(w, i, None, snap.content.outbox * drains[0].keep, drains[0].other, drains[0].write);
      if i in w'.clients && w'.clients[i].snap == snap then (w', false) else Rebuilt(w', i, drains[1..])
  }

  /** A coordinator in the midst of rebuilding, and where its commits have led. */
  ghost predicate RebuildingAt(w: World, i: nat, h: F.Handle, durable: Option<Snapshot>, snap: Snapshot) {
    && F.Inv(w.fence) && i in w.clients && i in w.fence.seats && w.clients[i].phase.Rebuilding?
    && w.fence.seats[i].handle == h && w.fence.Durable() == durable && w.clients[i].snap == snap
  }

  lemma DrainIsCommit(w: World, i: nat, snap: Snapshot, d: Drain)
    requires i in w.fence.seats && RebuildingAt(w, i, w.fence.seats[i].handle, w.fence.Durable(), snap)
             && F.Possible(d.write)
    ensures var (h, durable, done) := CommitFrom(w.fence.seats[i].handle, w.fence.Durable(), snap,
            DrainContent(snap, d), d.write);
            var w' := ApplyCommitOther(w, i, None, snap.content.outbox * d.keep, d.other, d.write);
            && RebuildingAt(w', i, h, durable, if done.Some? then done.value else snap)
            && w'.clients[i].memory == w.clients[i].memory && w'.wire == w.wire
            && (done.Some? ==> done.value != snap)
  {
    OfferFacts(w.fence, i, snap.generation, DrainContent(snap, d), d.write);
    OfferIsCommitFrom(w.fence, i, snap, DrainContent(snap, d), d.write);
  }

  lemma {:induction false} RebuildIsSteps(w: World, i: nat, snap: Snapshot, drains: seq<Drain>)
    requires i in w.fence.seats && RebuildingAt(w, i, w.fence.seats[i].handle, w.fence.Durable(), snap)
             && forall d | d in drains :: F.Possible(d.write)
    ensures var (h, durable, last, ok) := Drained(w.fence.seats[i].handle, w.fence.Durable(), snap, drains);
            var (w', ok') := Rebuilt(w, i, drains);
            RebuildingAt(w', i, h, durable, last) && ok' == ok && w'.clients[i].memory == w.clients[i].memory
              && w'.wire == w.wire
    decreases |drains|
  {
    if drains != [] {
      DrainIsCommit(w, i, snap, drains[0]);
      var w' := ApplyCommitOther(w, i, None, snap.content.outbox * drains[0].keep, drains[0].other, drains[0].write);
      if w'.clients[i].snap != snap { RebuildIsSteps(w', i, w'.clients[i].snap, drains[1..]); }
    }
  }

  /** Reading the store and restoring from it. */
  ghost function Restoring(w: World, i: nat): World {
    ApplyRecoverRest(ApplyRecoverRead(w, i, true), i, RecoverRestore(i))
  }

  lemma RestoringReads(w: World, i: nat)
    requires F.Inv(w.fence) && i in w.clients && i in w.fence.seats && !w.clients[i].phase.Opening?
             && w.fence.landed != []
    ensures var target, w' := w.fence.Durable(), Restoring(w, i);
            && !F.Behind(w.fence.seats[i].handle, target)
            && RebuildingAt(w', i, F.HandleAdopt(w.fence.seats[i].handle, target), target, target.value)
            && w'.clients[i].memory == target.value.content.provider && w'.wire == w.wire
  {
    assert F.SeatOk(w.fence.landed, w.fence.seats[i]);
    F.RecoverKeeps(w.fence, i);
  }

  lemma RebuildFinishes(r: World, i: nat, h: F.Handle, target: Snapshot, drains: seq<Drain>)
    requires RebuildingAt(r, i, h, Some(target), target) && forall d | d in drains :: F.Possible(d.write)
    ensures var (h', durable, snap, ok) := Drained(h, Some(target), target, drains);
            var (w1, ok') := Rebuilt(r, i, drains);
            var w' := ApplyRecoverRest(w1, i, RecoverDone(i));
            && RebuildingAt(w1, i, h', durable, snap) && ok' == ok
            && w'.clients == w1.clients[i := w1.clients[i].(phase := Running)] && w'.fence == w1.fence
            && w'.clients[i].memory == r.clients[i].memory && w'.wire == r.wire
  {
    RebuildIsSteps(r, i, target, drains);
  }

  /**
    A recovery is steps of the machine: read, restore, the commits of the rebuild, and when
    they all succeeded, done. The handle, the store and the snapshot are those `Recover` leaves.
   */
  lemma RecoverIsSteps(w: World, i: nat, drains: seq<Drain>)
    requires F.Inv(w.fence) && i in w.clients && i in w.fence.seats && !w.clients[i].phase.Opening?
             && w.fence.landed != []
    requires forall d | d in drains :: F.Possible(d.write)
    ensures var target := w.fence.Durable();
            var (h, durable, snap, ok) := Drained(F.HandleAdopt(w.fence.seats[i].handle, target), target, target.value,
              drains);
            var (w1, ok') := Rebuilt(Restoring(w, i), i, drains);
            var w' := ApplyRecoverRest(w1, i, RecoverDone(i));
            && !F.Behind(w.fence.seats[i].handle, target) && RebuildingAt(w1, i, h, durable, snap) && ok' == ok
            && w'.clients == w1.clients[i := w1.clients[i].(phase := Running)] && w'.fence == w1.fence
            && w'.clients[i].memory == target.value.content.provider && w'.wire == w.wire
  {
    RestoringReads(w, i);
    RebuildFinishes(Restoring(w, i), i, F.HandleAdopt(w.fence.seats[i].handle, w.fence.Durable()),
      w.fence.Durable().value, drains);
  }

  // One running coordinator whose store is replaced under it by anything at all.

  /** `newest` is the highest generation this coordinator committed or recovered. */
  datatype Solo = Solo(durable: Option<Snapshot>, handle: F.Handle, phase: Phase, snap: Snapshot, newest: u64)

  datatype SoloStep =
    | Replace(durable: Option<Snapshot>)
    | Advance                                    // a direct send advances the ratchet in memory
    | Publish(content: Content, write: F.Write)
    | Read(readable: bool)
    | Restore(restores: bool)
    | Done
    | Attach(content: Content, write: F.Write)   // commits whatever froze the coordinator, unless the store is latched

  predicate Frozen(s: Solo) { !s.phase.Running? || s.handle.frozen }

  /** The store holds nothing, or something older than what this coordinator has committed. */
  predicate WentBack(s: Solo) { s.durable.None? || s.durable.value.generation < s.newest }

  function ApplySolo(s: Solo, step: SoloStep): Solo {
    match step
    case Replace(durable) => s.(durable := durable)
    case Advance => if Frozen(s) then s else s.(phase := Sending)
    case Publish(content, write) =>
      if !(s.phase.Running? || s.phase.Sending? || s.phase.Rebuilding?) || !F.Possible(write) then s
      else
        var (h, durable, done) := CommitFrom(s.handle, s.durable, s.snap, content, write);
        if done.None? then s.(handle := h, durable := durable)
        else
          var phase := if s.phase.Sending? then Running else s.phase;
          Solo(durable, h, phase, done.value, F.Max(s.newest, done.value.generation))
    case Read(readable) =>
      if !readable then s.(phase := Poisoned)
      else if F.Behind(s.handle, s.durable) then s.(phase := Poisoned, handle := s.handle.(frozen := true))
      else
        var s1 := s.(handle := F.HandleAdopt(s.handle, s.durable));
        if s.durable.None? then s1.(phase := Poisoned)
        else s1.(phase := Recovering(s.durable.value), newest := F.Max(s.newest, s.durable.value.generation))
    case Restore(restores) =>
      if !s.phase.Recovering? then s
      else if restores then s.(phase := Rebuilding, snap := s.phase.target) else s.(phase := Poisoned)
    case Done => if s.phase.Rebuilding? then s.(phase := Running) else s
    case Attach(content, write) =>
      if !F.Possible(write) then s
      else
        var (h, durable, done) := CommitFrom(s.handle, s.durable, s.snap, content, write);
        var s1 := s.(handle := h, durable := durable, phase := if s.phase.Recovering? then Poisoned else s.phase);
        if done.None? then s1 else s1.(snap := done.value, newest := F.Max(s.newest, done.value.generation))
  }

  function RunSolo(s: Solo, steps: seq<SoloStep>): Solo
    decreases |steps|
  {
    if steps == [] then s else ApplySolo(RunSolo(s, steps[..|steps| - 1]), steps[|steps| - 1])
  }

  ghost predicate SoloInv(s: Solo) {
    && s.handle.committed == Some(s.newest) && s.newest <= s.handle.highWater
    && match s.phase
       case Recovering(target) => target.generation == s.newest && s.handle.observed == Some(s.newest)
       case Poisoned => s.handle.observed.None? || s.handle.observed == Some(s.newest)
       case Opening => false
       case _ => s.snap.generation == s.newest && s.handle.observed == Some(s.newest)
  }

  /** A coordinator that has just opened on, or published, `snap`. */
  function OpenedOn(snap: Snapshot): Solo {
    Solo(Some(snap), F.HandleAdopt(F.NewHandle, Some(snap)), Running, snap, snap.generation)
  }

  lemma SoloStepKeeps(s: Solo, step: SoloStep)
    requires SoloInv(s)
    ensures SoloInv(ApplySolo(s, step)) && s.newest <= ApplySolo(s, step).newest
  {
  }

  /** A send advances, commits through the handle and runs on, or is left frozen on the snapshot it had. */
  lemma SoloSends(s: Solo, content: Content, write: F.Write)
    requires !Frozen(s) && F.Possible(write)
    ensures var (h, durable, done) := CommitFrom(s.handle, s.durable, s.snap, content, write);
            var mid := ApplySolo(s, Advance);
            var s' := ApplySolo(mid, Publish(content, write));
            && Frozen(mid) && mid.durable == s.durable && s'.handle == h && s'.durable == durable
            && if done.Some? then !Frozen(s') && s'.snap == done.value else Frozen(s') && s'.snap == s.snap
  {
  }

  /** Attaching commits through the handle, whatever froze the coordinator, and thaws nothing. */
  lemma SoloAttaches(s: Solo, content: Content, write: F.Write)
    requires F.Possible(write)
    ensures var (h, durable, done) := CommitFrom(s.handle, s.durable, s.snap, content, write);
            var s' := ApplySolo(s, SoloStep.Attach(content, write));
            && s'.handle == h && s'.durable == durable && s'.snap == (if done.Some? then done.value else s.snap)
            && (Frozen(s) ==> Frozen(s')) && !s'.phase.Recovering?
  {
  }

  /**
    Whatever the store now holds, a recovery ends unfrozen exactly when the store can be read, the
    provider takes the state and the store holds something no older than this coordinator committed;
    it then runs on that.
   */
  lemma SoloRecoversExactly(s: Solo, durable: Option<Snapshot>, readable: bool, restores: bool)
    requires SoloInv(s)
    ensures var read := ApplySolo(ApplySolo(s, Replace(durable)), Read(readable));
            var s' := ApplySolo(ApplySolo(read, Restore(restores)), Done);
            && s'.durable == durable
            && (!Frozen(s') <==> readable && restores && durable.Some? && durable.value.generation >= s.newest)
            && (!Frozen(s') ==> s'.snap == durable.value && s'.newest == durable.value.generation)
            && (Frozen(s') ==> s'.phase == Poisoned && s'.snap == s.snap)
            && (readable && durable.Some? && durable.value.generation < s.newest ==> s'.handle.frozen)
  {
  }

  /**
    However the store changes under a running coordinator, it never works from a
    snapshot older than one it committed: it is frozen or its snapshot is the newest.
   */
  lemma {:induction false} NeverRunsOnAnOlderSnapshot(snap: Snapshot, steps: seq<SoloStep>)
    ensures var s := RunSolo(OpenedOn(snap), steps);
            SoloInv(s) && (Frozen(s) || s.snap.generation == s.newest)
    decreases |steps|
  {
    if steps != [] {
      NeverRunsOnAnOlderSnapshot(snap, steps[..|steps| - 1]);
      SoloStepKeeps(RunSolo(OpenedOn(snap), steps[..|steps| - 1]), steps[|steps| - 1]);
    }
  }

  /**
    While the store is behind, nothing the coordinator does changes it, unless it attaches
    to an emptied store it has read; the first commit or recovery that meets it freezes the
    coordinator, and a frozen one stays so.
   */
  lemma BehindStoreFreezes(s: Solo, step: SoloStep)
    requires SoloInv(s) && WentBack(s) && !step.Replace? && (step.Attach? ==> s.durable.Some?)
    ensures var s' := ApplySolo(s, step);
            && s'.durable == s.durable && s'.newest == s.newest && WentBack(s')
            && (Frozen(s) && !s.phase.Recovering? && !s.phase.Rebuilding? ==>
              Frozen(s') && !s'.phase.Recovering? && !s'.phase.Rebuilding?)
            && ((step.Publish? || step.Attach?) && F.Possible(step.write) && s.handle.highWater < U64_MAX ==>
                  Frozen(s'))
            && (step.Read? ==> Frozen(s'))
  {
  }

  lemma {:induction false} BehindStoreKeepsItFrozen(s: Solo, steps: seq<SoloStep>)
    requires SoloInv(s) && WentBack(s) && Frozen(s) && !s.phase.Recovering? && !s.phase.Rebuilding?
    requires forall step | step in steps :: !step.Replace? && (step.Attach? ==> s.durable.Some?)
    ensures var s' := RunSolo(s, steps);
            SoloInv(s') && Frozen(s') && !s'.phase.Recovering? && !s'.phase.Rebuilding?
            && s'.durable == s.durable && s'.newest == s.newest
    decreases |steps|
  {
    if steps != [] {
      var front := steps[..|steps| - 1];
      assert forall step | step in front :: step in steps;
      BehindStoreKeepsItFrozen(s, front);
      SoloStepKeeps(RunSolo(s, front), steps[|steps| - 1]);
      BehindStoreFreezes(RunSolo(s, front), steps[|steps| - 1]);
    }
  }
}
