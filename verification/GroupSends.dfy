/**
  Group ciphertexts: an encryption to a group member is recorded in the snapshot it is
  committed with, stays recorded across crashes, recoveries and other coordinators until a
  commit drops it, and whoever opens on the store can send exactly those bytes.
 */
module GroupSends {
  import opened Bytes
  import F = Fence
  import opened Coordinator
  import opened GroupClient

  /** The store holds this ciphertext. */
  ghost predicate Recorded(f: F.World<Content>, m: Cipher) {
    f.Durable().Some? && m in f.Durable().value.content.outbox
  }

  /**
    A group send: the ciphertext is committed with the ratchet state that made it. If the
    commit succeeds the store holds both and the coordinator can send it; if not, the coordinator is
    on the snapshot it had, and frozen if there was a generation left to commit under.
   */
  lemma GroupSendIsRecorded(w: World, i: nat, peer: bytes, plaintext: bytes, write: F.Write)
    requires Inv(w) && Free(w, i) && F.Possible(write)
    ensures var c := w.clients[i];
            var cipher := Cipher(peer, c.memory.Position(peer), plaintext, w.encryptions);
            var content := Content(c.memory.Advanced(peer), c.snap.content.outbox + {cipher}, c.snap.content.other);
            var (h, durable, done) := CommitFrom(w.fence.seats[i].handle, w.fence.Durable(), c.snap, content, write);
            var w' := ApplyCommitPending(ApplyEncrypt(w, i, peer, plaintext, false), i, write);
            && i in w'.clients && i in w'.fence.seats && w'.fence.seats[i].handle == h && w'.fence.Durable() == durable
            && w'.wire == w.wire && w'.clients[i].memory == c.memory.Advanced(peer) && w'.clients[i].pending.None?
            && (done.Some? ==>
                  && Free(w', i) && w'.clients[i].snap == done.value && Recorded(w'.fence, cipher)
                  && ApplyDispatch(w', i, cipher).wire == w.wire + [Sent(cipher, |w.fence.landed| + 1)])
            && (done.None? ==>
                  && w'.clients[i].snap == c.snap
                  && (F.NextGeneration(w.fence.seats[i].handle, c.snap.generation).Some? ==> !Free(w', i)))
  {
    var c := w.clients[i];
    var w1 := ApplyEncrypt(w, i, peer, plaintext, false);
    OfferIsCommitFrom(w.fence, i, c.snap, PendingContent(w1.clients[i]), write);
  }

  /** An item received: what it left of the provider is committed with it, or the coordinator is frozen. */
  lemma ItemIsCommitted(w: World, i: nat, left: Provider, outbox: set<Cipher>, other: bytes, write: F.Write)
    requires Inv(w) && Free(w, i) && F.Possible(write) && outbox <= w.clients[i].snap.content.outbox
    requires left.AtLeast(w.clients[i].memory)
    ensures var c := w.clients[i];
            var (h, durable, done) := CommitFrom(w.fence.seats[i].handle, w.fence.Durable(), c.snap,
              Content(left, outbox, other), write);
            var w' := ApplyCommitOther(w, i, Some(left), outbox, other, write);
            && i in w'.clients && i in w'.fence.seats && w'.fence.seats[i].handle == h && w'.fence.Durable() == durable
            && w'.wire == w.wire && w'.clients[i].memory == left && w'.clients[i].pending.None?
            && if done.Some? then Free(w', i) && w'.clients[i].snap == done.value
               else !Free(w', i) && w'.clients[i].snap == c.snap
  {
    OfferIsCommitFrom(w.fence, i, w.clients[i].snap, Content(left, outbox, other), write);
  }

  /** A provider that did not take the recovered state is left as it is, and the coordinator frozen. */
  lemma FailedRestoreStaysFrozen(w: World, i: nat, left: Provider)
    requires i in w.clients && w.clients[i].phase.Recovering?
    ensures var w' := Apply(w, RecoverFail(i, left));
            && i in w'.clients && w'.clients[i] == w.clients[i].(phase := Poisoned, memory := left)
            && !Free(w', i) && w'.fence == w.fence && w'.wire == w.wire
  {
  }

  /** Attaching gives up the operation that was under way: a ciphertext not yet committed is never sent. */
  lemma AttachingDropsThePending(w: World, i: nat, outbox: set<Cipher>, other: bytes, write: F.Write)
    requires Inv(w) && i in w.clients && !w.clients[i].phase.Opening? && outbox <= w.clients[i].snap.content.outbox
             && other != w.clients[i].snap.content.other
    ensures var w' := Apply(w, Step.Attach(i, outbox, other, write));
            && i in w'.clients && w'.clients[i].pending.None? && w'.wire == w.wire
            && forall write' :: Apply(w', CommitPending(i, write')) == w'
  {
  }

  // A recorded ciphertext stays.

  /** A commit of another kind says which ciphertexts it keeps. */
  predicate Keeps(step: Step, m: Cipher) { (step.CommitOther? || step.Attach?) ==> m in step.outbox }

  lemma OfferKeepsRecorded(f: F.World<Content>, f': F.World<Content>, i: nat, content: Content, m: Cipher)
    requires i in f.seats && Offered(f, f', i, content) && Recorded(f, m)
    requires f.Durable() == f.seats[i].seen ==> m in content.outbox
    ensures Recorded(f', m)
  {
  }

  lemma CommitKeepsRecorded(w: World, i: nat, write: F.Write, m: Cipher)
    requires Inv(w) && Recorded(w.fence, m)
    ensures Recorded(ApplyCommitPending(w, i, write).fence, m)
  {
    if i in w.clients && w.clients[i].pending.Some? {
      var c := w.clients[i];
      assert ClientOk(c, w.fence.seats[i].seen, w.minted);
      OfferFacts(w.fence, i, c.snap.generation, PendingContent(c), write);
      OfferKeepsRecorded(w.fence, ApplyCommitPending(w, i, write).fence, i, PendingContent(c), m);
    }
  }

  lemma OpenKeepsRecorded(w: World, i: nat, exported: Provider, write: F.Write, m: Cipher)
    requires Inv(w) && Recorded(w.fence, m)
    ensures Recorded(ApplyOpenFinish(w, i, exported, write).fence, m)
  {
    if i in w.clients && w.clients[i].phase.Opening? && w.fence.seats[i].seen.None? {
      var content := Content(exported, {}, []);
      OfferFacts(w.fence, i, 0, content, write);
      OfferKeepsRecorded(w.fence, Offer(w.fence, i, 0, content, write).0, i, content, m);
    }
  }

  lemma OtherKeepsRecorded(w: World, i: nat, current: u64, content: Content, write: F.Write, m: Cipher)
    requires Inv(w) && i in w.fence.seats && Recorded(w.fence, m) && m in content.outbox
    ensures Recorded(Offer(w.fence, i, current, content, write).0, m)
  {
    OfferFacts(w.fence, i, current, content, write);
    OfferKeepsRecorded(w.fence, Offer(w.fence, i, current, content, write).0, i, content, m);
  }

  lemma StepKeepsRecorded(w: World, step: Step, m: Cipher)
    requires Inv(w) && Recorded(w.fence, m) && Keeps(step, m)
    ensures Recorded(Apply(w, step).fence, m)
  {
    match step
    case OpenFinish(i, exported, write) => OpenKeepsRecorded(w, i, exported, write, m);
    case CommitPending(i, write) => CommitKeepsRecorded(w, i, write, m);
    case CommitOther(i, exported, outbox, other, write) =>
      if i in w.clients {
        var c := w.clients[i];
        var provider := if exported.Some? then exported.value else c.snap.content.provider;
        OtherKeepsRecorded(w, i, c.snap.generation, Content(provider, outbox, other), write, m);
      }
    case Attach(i, outbox, other, write) =>
      if i in w.clients {
        var snap := w.clients[i].snap;
        OtherKeepsRecorded(w, i, snap.generation, Content(snap.content.provider, outbox, other), write, m);
      }
    case _ =>
  }

  /**
    Over every run: once the store holds a group ciphertext it holds it through every
    crash, reopening, recovery, lost or unknown write and every other coordinator's commits, until
    some commit is asked to drop it.
   */
  lemma {:induction false} RecordedStays(steps: seq<Step>, more: seq<Step>, m: Cipher)
    requires AllSound(steps + more) && Recorded(Run(Start, steps).fence, m)
    requires forall step | step in more :: Keeps(step, m)
    ensures Recorded(Run(Start, steps + more).fence, m)
    decreases |more|
  {
    if more == [] {
      assert steps + more == steps;
    } else {
      var all, front := steps + more, more[..|more| - 1];
      assert all[..|all| - 1] == steps + front && all[|all| - 1] == more[|more| - 1];
      assert more[|more| - 1] in more && forall step | step in front :: step in more;
      RecordedStays(steps, front, m);
      RunKeeps(steps + front);
      StepKeepsRecorded(Run(Start, steps + front), more[|more| - 1], m);
    }
  }

  /** Whoever then opens on the store can send exactly the recorded bytes. */
  lemma RecordedCanBeSent(w: World, j: nat, write: F.Write, m: Cipher)
    requires Inv(w) && Recorded(w.fence, m) && j !in w.clients
    ensures var provider := w.fence.Durable().value.content.provider;
            var ready := Apply(Apply(w, OpenRead(j)), OpenFinish(j, provider, write));
            && Free(ready, j) && ready.clients[j].memory == provider && ready.fence.landed == w.fence.landed
            && Apply(ready, Dispatch(j, m)).wire == w.wire + [Sent(m, |w.fence.landed|)]
  {
  }
}
