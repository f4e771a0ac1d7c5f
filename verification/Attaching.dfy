/**
  Attaching a group while the coordinator is frozen. Callers that ask first are safe over
  every run. An attaching that lands leaves the law intact exactly when the coordinator's
  snapshot is past every ciphertext that was sent or that another client can still send;
  a concrete run shows it broken.
 */
module Attaching {
  import opened Bytes
  import opened Coordinator
  import F = Fence

  /** Every attaching is asked of a coordinator that is not frozen, or is part of a recovery. */
  ghost predicate AskFirst(steps: seq<Step>)
    decreases |steps|
  {
    steps == [] ||
    var front, step := steps[..|steps| - 1], steps[|steps| - 1];
    && AskFirst(front)
    && (step.Attach? ==>
          var w := Run(Start, front);
          Free(w, step.id) || (step.id in w.clients && w.clients[step.id].phase.Rebuilding?))
  }

  /** A caller that checks the freeze before it attaches needs to check nothing else. */
  lemma {:induction false} AskingFirstIsSafe(steps: seq<Step>)
    requires AskFirst(steps)
    ensures AllSound(steps) && NoPositionTwice(Run(Start, steps)) && DurableFirst(Run(Start, steps))
    decreases |steps|
  {
    if steps != [] {
      var front, step := steps[..|steps| - 1], steps[|steps| - 1];
      AskingFirstIsSafe(front);
      RunKeeps(front);
      if step.Attach? { UnfrozenAttachIsSound(Run(Start, front), step.id, step.outbox, step.other, step.write); }
    }
    NoPositionIsSentTwice(steps);
  }

  // The other way: what an attaching lost is sent again.

  ghost predicate AttachFree(steps: seq<Step>) { forall s | s in steps :: !s.Attach? }

  const Good := F.Write(F.Committed, true)

  lemma {:induction false} RunAppend(w: World, a: seq<Step>, b: seq<Step>)
    ensures Run(w, a + b) == Run(Run(w, a), b)
    decreases |b|
  {
    if b == [] {
      assert a + b == a;
    } else {
      assert (a + b)[..|a + b| - 1] == a + b[..|b| - 1];
      RunAppend(w, a, b[..|b| - 1]);
    }
  }

  /** Free to send, with exactly what the store holds in memory. */
  ghost predicate AtTheStore(w: World, i: nat) {
    && F.Inv(w.fence) && Free(w, i)
    && w.fence.Durable() == Some(w.clients[i].snap) && w.fence.seats[i].seen == w.fence.Durable()
    && w.clients[i].memory == w.clients[i].snap.content.provider
  }

  /** What an unlatched handle publishes over what it last saw lands, under the next generation. */
  lemma OfferLands(f: F.World<Content>, i: nat, current: u64, content: Content)
    requires F.Inv(f) && i in f.seats && !f.seats[i].handle.frozen && f.Durable() == f.seats[i].seen
    requires current <= f.seats[i].handle.highWater < U64_MAX
    ensures var (f', done) := Offer(f, i, current, content, Good);
            && done.Some? && done.value.content == content && F.Inv(f') && i in f'.seats
              && f'.Durable() == f'.seats[i].seen == done
            && !f'.seats[i].handle.frozen && f'.seats[i].handle.highWater == f.seats[i].handle.highWater + 1
            && f'.seats == f.seats[i := f'.seats[i]]
  {
    OfferFacts(f, i, current, content, Good);
    assert F.SeatOk(f.landed, f.seats[i]);
  }

  /** One committed direct send, not yet dispatched. */
  function SendSteps(i: nat, peer: bytes, plaintext: bytes): seq<Step> {
    [Encrypt(i, peer, plaintext, true), CommitPending(i, Good)]
  }

  lemma RunOne(w: World, a: Step)
    ensures Run(w, [a]) == Apply(w, a)
  {
    assert [a][..0] == [];
  }

  lemma RunTwo(w: World, a: Step, b: Step)
    ensures Run(w, [a, b]) == Apply(Apply(w, a), b)
  {
    assert [a, b][..1] == [a] && [a][..0] == [];
    assert Run(w, [a]) == Apply(Run(w, []), a);
  }

  lemma SendLands(w: World, i: nat, peer: bytes, plaintext: bytes)
    requires AtTheStore(w, i) && w.fence.seats[i].handle.highWater < U64_MAX
    ensures var w' := Run(w, SendSteps(i, peer, plaintext));
            && AtTheStore(w', i) && w'.wire == w.wire && w'.encryptions == w.encryptions + 1
            && w'.clients == w.clients[i := w'.clients[i]] && w'.fence.seats == w.fence.seats[i := w'.fence.seats[i]]
            && w'.fence.seats[i].handle.highWater == w.fence.seats[i].handle.highWater + 1
            && w'.clients[i].memory == w.clients[i].memory.Advanced(peer)
            && Cipher(peer, w.clients[i].memory.Position(peer), plaintext, w.encryptions) in w'.clients[i].ready
  {
    RunTwo(w, Encrypt(i, peer, plaintext, true), CommitPending(i, Good));
    var c := ApplyEncrypt(w, i, peer, plaintext, true).clients[i];
    assert F.SeatOk(w.fence.landed, w.fence.seats[i]);
    OfferLands(w.fence, i, c.snap.generation, PendingContent(c));
  }

  /** A coordinator at the store can be led to any later position. */
  lemma {:induction false} Reaches(w: World, i: nat, peer: bytes, position: nat) returns (steps: seq<Step>)
    requires AtTheStore(w, i) && w.clients[i].memory.Position(peer) <= position
    requires w.fence.seats[i].handle.highWater + (position - w.clients[i].memory.Position(peer)) <= U64_MAX
    ensures var w' := Run(w, steps);
            && AtTheStore(w', i) && w'.wire == w.wire && w'.clients[i].memory.Position(peer) == position
            && w'.fence.seats[i].handle.highWater
              == w.fence.seats[i].handle.highWater + (position - w.clients[i].memory.Position(peer))
    ensures AttachFree(steps)
    decreases position - w.clients[i].memory.Position(peer)
  {
    if w.clients[i].memory.Position(peer) == position {
      steps := [];
    } else {
      SendLands(w, i, peer, []);
      var rest := Reaches(Run(w, SendSteps(i, peer, [])), i, peer, position);
      steps := SendSteps(i, peer, []) + rest;
      RunAppend(w, SendSteps(i, peer, []), rest);
    }
  }

  /** Reading the store that has not gone back adopts what it holds and lifts the latch. */
  lemma ReadAdopts(w: World, i: nat)
    requires F.Inv(w.fence) && w.fence.landed != [] && i in w.clients && i in w.fence.seats
             && !w.clients[i].phase.Opening?
    ensures var w' := ApplyRecoverRead(w, i, true); var durable := w.fence.Durable();
            && F.Inv(w'.fence) && w'.fence.landed == w.fence.landed && w'.wire == w.wire
              && w'.encryptions == w.encryptions
            && i in w'.clients && w'.clients[i].phase == Recovering(durable.value)
            && i in w'.fence.seats && w'.fence.seats[i] == F.Adopting(w.fence.seats[i], durable)
  {
    assert F.SeatOk(w.fence.landed, w.fence.seats[i]);
    F.RecoverKeeps(w.fence, i);
  }

  lemma ReadUnlatches(w: World, i: nat)
    requires F.Inv(w.fence) && w.fence.landed != [] && i in w.clients && i in w.fence.seats
             && !w.clients[i].phase.Opening?
    ensures var w' := Run(w, [RecoverRead(i, true)]); var durable := w.fence.Durable();
            && F.Inv(w'.fence) && w'.fence.landed == w.fence.landed && w'.wire == w.wire
              && w'.encryptions == w.encryptions
            && i in w'.clients && w'.clients[i].phase == Recovering(durable.value)
            && i in w'.fence.seats && w'.fence.seats[i].seen == durable && !w'.fence.seats[i].handle.frozen
            && w'.fence.seats[i].handle.highWater == F.Max(w.fence.seats[i].handle.highWater, durable.value.generation)
  {
    RunOne(w, RecoverRead(i, true));
    ReadAdopts(w, i);
  }

  function Rest(i: nat): seq<Step> { [RecoverRestore(i), RecoverDone(i)] }

  /** The rest of a recovery that meets no failure leaves a coordinator at the store. */
  lemma RestReachesTheStore(w: World, i: nat, durable: Snapshot)
    requires F.Inv(w.fence) && w.fence.Durable() == Some(durable) && i in w.clients
             && w.clients[i].phase == Recovering(durable)
    requires i in w.fence.seats && w.fence.seats[i].seen == Some(durable) && !w.fence.seats[i].handle.frozen
    ensures var w' := Run(w, Rest(i));
            AtTheStore(w', i) && w'.wire == w.wire && w'.fence == w.fence && w'.encryptions == w.encryptions
  {
    RunTwo(w, RecoverRestore(i), RecoverDone(i));
  }

  /** A send, and its dispatch. */
  function SendAll(i: nat, c: Cipher): seq<Step> { SendSteps(i, c.peer, c.plaintext) + [Dispatch(i, c)] }

  lemma SendReachesTheWire(w: World, i: nat, c: Cipher)
    requires AtTheStore(w, i) && w.fence.seats[i].handle.highWater < U64_MAX
    requires c.position == w.clients[i].memory.Position(c.peer) && c.encryption == w.encryptions
    ensures var w' := Run(w, SendAll(i, c));
            && |w'.wire| == |w.wire| + 1 && w'.wire[..|w.wire|] == w.wire && w'.wire[|w.wire|].cipher == c
            && AtTheStore(w', i) && w'.encryptions == w.encryptions + 1
            && w'.fence.seats[i].handle.highWater == w.fence.seats[i].handle.highWater + 1
            && w'.clients == w.clients[i := w'.clients[i]] && w'.fence.seats == w.fence.seats[i := w'.fence.seats[i]]
  {
    SendLands(w, i, c.peer, c.plaintext);
    RunAppend(w, SendSteps(i, c.peer, c.plaintext), [Dispatch(i, c)]);
    RunOne(Run(w, SendSteps(i, c.peer, c.plaintext)), Dispatch(i, c));
  }

  /** Two encryptions at one position, both on the wire. */
  lemma SentTwice(w: World, i: nat, k: nat, c: Cipher)
    requires AtTheStore(w, i) && k < |w.wire| && w.fence.seats[i].handle.highWater < U64_MAX
    requires c.position == w.clients[i].memory.Position(c.peer) && c.encryption == w.encryptions
    requires c != w.wire[k].cipher && c.peer == w.wire[k].cipher.peer && c.position == w.wire[k].cipher.position
    ensures !NoPositionTwice(Run(w, SendAll(i, c)))
  {
    SendReachesTheWire(w, i, c);
    var w' := Run(w, SendAll(i, c));
    assert w'.wire[k] == w'.wire[..|w.wire|][k] == w.wire[k];
    assert w'.wire[|w.wire|].cipher == c;
  }

  /** How far the store is behind a ciphertext on the wire. */
  function Gap(w: World, k: nat): int
    requires w.fence.landed != [] && k < |w.wire|
  {
    w.wire[k].cipher.position - w.fence.Durable().value.content.provider.Position(w.wire[k].cipher.peer)
  }

  function Recovery(i: nat): seq<Step> { [RecoverRead(i, true)] + Rest(i) }

  /** A recovery that meets no failure leaves a coordinator at the store. */
  lemma RecoveryReachesTheStore(w: World, i: nat)
    requires F.Inv(w.fence) && w.fence.landed != [] && i in w.clients && i in w.fence.seats
             && !w.clients[i].phase.Opening?
    ensures var w' := Run(w, Recovery(i));
            && AtTheStore(w', i) && w'.wire == w.wire && w'.encryptions == w.encryptions
              && w'.fence.landed == w.fence.landed
            && w'.fence.seats[i].handle.highWater
              == F.Max(w.fence.seats[i].handle.highWater, w.fence.Durable().value.generation)
  {
    var w1 := Run(w, [RecoverRead(i, true)]);
    assert Run(w, Recovery(i)) == Run(w1, Rest(i)) by { RunAppend(w, [RecoverRead(i, true)], Rest(i)); }
    ReadUnlatches(w, i);
    RestReachesTheStore(w1, i, w.fence.Durable().value);
  }

  /** A coordinator at a store behind a ciphertext on the wire, led on to its position. */
  lemma BehindIsSentAgain(w: World, i: nat, k: nat) returns (steps: seq<Step>)
    requires AtTheStore(w, i) && k < |w.wire| && 0 <= Gap(w, k)
             && w.fence.seats[i].handle.highWater + Gap(w, k) < U64_MAX
    ensures AttachFree(steps) && !NoPositionTwice(Run(w, steps))
  {
    var m := w.wire[k].cipher;
    var more := Reaches(w, i, m.peer, m.position);
    var w' := Run(w, more);
    var again := Cipher(m.peer, m.position, if m.plaintext == [] then [0] else [], w'.encryptions);
    SentTwice(w', i, k, again);
    steps := more + SendAll(i, again);
    RunAppend(w, more, SendAll(i, again));
  }

  /**
    When the store holds a snapshot behind a ciphertext on the wire, a coordinator that
    recovers from it and goes on sending sends that ciphertext's position again.
   */
  lemma LostPositionIsSentAgain(w: World, i: nat, k: nat) returns (steps: seq<Step>)
    requires F.Inv(w.fence) && w.fence.landed != [] && i in w.clients && i in w.fence.seats
             && !w.clients[i].phase.Opening?
    requires k < |w.wire| && 0 <= Gap(w, k)
    requires F.Max(w.fence.seats[i].handle.highWater, w.fence.Durable().value.generation) + Gap(w, k) < U64_MAX
    ensures AttachFree(steps) && !NoPositionTwice(Run(w, steps))
  {
    RecoveryReachesTheStore(w, i);
    var w2 := Run(w, Recovery(i));
    var last := BehindIsSentAgain(w2, i, k);
    steps := Recovery(i) + last;
    RunAppend(w, Recovery(i), last);
  }

  /** A ciphertext another client holds can be put on the wire, and nothing else changes. */
  lemma HeldReachesTheWire(w: World, j: nat, m: Cipher) returns (steps: seq<Step>)
    requires HeldBy(w, j, m) && ClientOk(w.clients[j], w.fence.seats[j].seen, w.minted)
    ensures AttachFree(steps)
    ensures var w' := Run(w, steps);
            && w'.fence == w.fence && |w'.wire| == |w.wire| + 1 && w'.wire[|w.wire|].cipher == m
            && w'.clients.Keys == w.clients.Keys && forall i | i in w.clients && i != j :: w'.clients[i] == w.clients[i]
  {
    var c, seen := w.clients[j], w.fence.seats[j].seen;
    if c.phase.Opening? {
      var open := OpenFinish(j, seen.value.content.provider, Good);
      steps := [open, Dispatch(j, m)];
      RunTwo(w, open, Dispatch(j, m));
    } else if m in c.ready || m in c.snap.content.outbox {
      steps := [Dispatch(j, m)];
      RunOne(w, Dispatch(j, m));
    } else {
      steps := [RecoverRestore(j), Dispatch(j, m)];
      RunTwo(w, RecoverRestore(j), Dispatch(j, m));
    }
  }

  /** The generation an attaching is numbered with leaves room to send on up to position `m`. */
  ghost predicate Room(w: World, i: nat, m: Cipher)
    requires i in w.clients && i in w.fence.seats
  {
    F.Max(w.clients[i].snap.generation, w.fence.seats[i].handle.highWater) + 1 + m.position < U64_MAX
  }

  /** What the store holds after an attaching that lands. */
  lemma AttachedStore(w: World, i: nat, outbox: set<Cipher>, other: bytes, write: F.Write)
    requires F.Inv(w.fence) && CanLand(w, i, outbox, other, write)
    ensures var w', top := ApplyAttach(w, i, outbox, other, write),
            F.Max(w.clients[i].snap.generation, w.fence.seats[i].handle.highWater);
            && F.Inv(w'.fence) && w'.fence.landed != [] && i in w'.clients && i in w'.fence.seats
              && !w'.clients[i].phase.Opening?
            && w'.fence.Durable().value.content.provider == w.clients[i].snap.content.provider
            && w'.fence.Durable().value.generation == top + 1 && w'.fence.seats[i].handle.highWater == top + 1
  {
    var c := w.clients[i];
    OfferFacts(w.fence, i, c.snap.generation, Content(c.snap.content.provider, outbox, other), write);
    LandsExactly(w, i, outbox, other, write);
  }

  /** Landing behind a ciphertext already sent: its position is sent again. */
  lemma SentIsSentAgain(w: World, i: nat, outbox: set<Cipher>, other: bytes, write: F.Write, m: Cipher)
        returns (steps: seq<Step>)
    requires Inv(w) && CanLand(w, i, outbox, other, write) && OnWire(w, m) && Room(w, i, m)
    requires w.clients[i].snap.content.provider.Position(m.peer) <= m.position
    ensures AttachFree(steps) && !NoPositionTwice(Run(ApplyAttach(w, i, outbox, other, write), steps))
  {
    var k :| 0 <= k < |w.wire| && w.wire[k].cipher == m;
    AttachedStore(w, i, outbox, other, write);
    steps := LostPositionIsSentAgain(ApplyAttach(w, i, outbox, other, write), i, k);
  }

  /** Landing behind a ciphertext another client still holds: it is sent, and its position again after it. */
  lemma HeldIsSentAgain(w: World, i: nat, outbox: set<Cipher>, other: bytes, write: F.Write, m: Cipher)
        returns (steps: seq<Step>)
    requires Inv(w) && CanLand(w, i, outbox, other, write) && HeldElsewhere(w, i, m) && Room(w, i, m)
    requires w.clients[i].snap.content.provider.Position(m.peer) <= m.position
    ensures AttachFree(steps) && !NoPositionTwice(Run(ApplyAttach(w, i, outbox, other, write), steps))
  {
    var j :| j != i && HeldBy(w, j, m);
    var w1 := ApplyAttach(w, i, outbox, other, write);
    AttachedStore(w, i, outbox, other, write);
    AttachedSpelled(w, i, outbox, other, write);
    AttachedOther(w, w1, i, Content(w.clients[i].snap.content.provider, outbox, other), j);
    var send := HeldReachesTheWire(w1, j, m);
    var again := LostPositionIsSentAgain(Run(w1, send), i, |w.wire|);
    steps := send + again;
    RunAppend(w1, send, again);
  }

  /** No continuation that attaches nothing further sends a position twice. */
  ghost predicate SafeAfter(w: World) {
    forall steps: seq<Step> | AttachFree(steps) :: NoPositionTwice(Run(w, steps))
  }

  lemma {:induction false} InvIsSafe(w: World, steps: seq<Step>)
    requires Inv(w) && AttachFree(steps)
    ensures Inv(Run(w, steps)) && NoPositionTwice(Run(w, steps))
    decreases |steps|
  {
    if steps != [] {
      var front := steps[..|steps| - 1];
      assert AttachFree(front) by { assert forall s | s in front :: s in steps; }
      InvIsSafe(w, front);
      assert steps[|steps| - 1] in steps;
      StepKeeps(Run(w, front), steps[|steps| - 1]);
    }
    InvGivesSafety(Run(w, steps));
  }

  /**
    Exactly when attaching is safe, whatever froze the coordinator: if it cannot land, or if
    its own snapshot is past every ciphertext that was sent or that another open client can
    still send. In every other case some continuation that attaches nothing further sends a
    position twice, as long as the store has generations left for it.
   */
  lemma AttachLaw(w: World, i: nat, outbox: set<Cipher>, other: bytes, write: F.Write)
    requires Inv(w) && i in w.clients && forall m | OnWire(w, m) || HeldElsewhere(w, i, m) :: Room(w, i, m)
    ensures SafeAfter(ApplyAttach(w, i, outbox, other, write)) <==>
            (CanLand(w, i, outbox, other, write) ==> Ahead(w, i))
  {
    var w' := ApplyAttach(w, i, outbox, other, write);
    if CanLand(w, i, outbox, other, write) && !Ahead(w, i) {
      var m :| (OnWire(w, m) || HeldElsewhere(w, i, m))
        && w.clients[i].snap.content.provider.Position(m.peer) <= m.position;
      var steps;
      if OnWire(w, m) { steps := SentIsSentAgain(w, i, outbox, other, write, m); }
      else { steps := HeldIsSentAgain(w, i, outbox, other, write, m); }
      assert !SafeAfter(w');
    } else {
      AttachKeeps(w, i, outbox, other, write);
      forall steps: seq<Step> | AttachFree(steps) ensures NoPositionTwice(Run(w', steps)) { InvIsSafe(w', steps); }
    }
  }

  // A run that does it.

  const Peer: bytes := [7]
  const Blank := Provider(map[], [])
  const First := Cipher(Peer, 0, [], 0)
  const Second := Cipher(Peer, 0, [1], 1)

  function Opened(i: nat): seq<Step> { [OpenRead(i), OpenFinish(i, Blank, Good)] }

  /** Recovery reads the store, and restoring what it read fails. */
  function FailedRecovery(i: nat): seq<Step> { [RecoverRead(i, true), RecoverFail(i, Blank)] }

  /** A roster control that arrived before its predecessor is held in the snapshot. */
  const Control: bytes := [3]

  function Holding(i: nat): seq<Step> { [CommitOther(i, None, {}, Control, Good)] }

  /** Coordinator 0 fails to recover after 1 has sent, attaches all the same, and recovers. */
  function FrozenAttach(): seq<Step> {
    Prefix() + (FailedRecovery(0) + [Attach(0, {}, [], Good)] + (Recovery(0) + SendAll(0, Second)))
  }

  /** The first coordinator on an empty store publishes its first snapshot. */
  lemma FirstOpens(i: nat)
    ensures var w := Run(Start, Opened(i));
            && AtTheStore(w, i) && w.clients[i].memory == Blank && w.fence.seats[i].handle.highWater == 1
            && w.wire == [] && w.encryptions == 0 && w.clients.Keys == {i} && w.fence.seats.Keys == {i}
  {
    RunTwo(Start, OpenRead(i), OpenFinish(i, Blank, Good));
    F.StepKeeps(Start.fence, F.Open(i));
    F.RecoverKeeps(F.Apply(Start.fence, F.Open(i)), i);
    var w := ApplyOpenRead(Start, i);
    OfferLands(w.fence, i, 0, Content(Blank, {}, []));
  }

  /** A commit that leaves the provider alone leaves the coordinator at the store. */
  lemma HoldingLands(w: World, i: nat)
    requires AtTheStore(w, i) && w.fence.seats[i].handle.highWater < U64_MAX && w.clients.Keys == {i}
             && w.fence.seats.Keys == {i}
    ensures var w' := Run(w, Holding(i));
            && AtTheStore(w', i) && w'.clients[i].memory == w.clients[i].memory
              && w'.clients[i].snap.content.other == Control
            && w'.fence.seats[i].handle.highWater == w.fence.seats[i].handle.highWater + 1
            && w'.wire == w.wire && w'.encryptions == w.encryptions && w'.clients.Keys == {i}
              && w'.fence.seats.Keys == {i}
  {
    RunOne(w, CommitOther(i, None, {}, Control, Good));
    var c := w.clients[i];
    assert F.SeatOk(w.fence.landed, w.fence.seats[i]);
    OfferLands(w.fence, i, c.snap.generation, Content(c.snap.content.provider, {}, Control));
  }

  /** Another opens on what the store holds. */
  lemma AnotherOpens(w: World, i: nat)
    requires F.Inv(w.fence) && i !in w.clients && i !in w.fence.seats
    requires w.fence.Durable().Some? && w.fence.Durable().value.content.provider == Blank
    ensures var w' := Run(w, Opened(i)); var durable := w.fence.Durable().value;
            && AtTheStore(w', i) && w'.fence.landed == w.fence.landed && w'.wire == w.wire
              && w'.encryptions == w.encryptions
            && w'.clients == w.clients[i := w'.clients[i]] && w'.fence.seats == w.fence.seats[i := w'.fence.seats[i]]
            && w'.fence.seats[i].handle.highWater == durable.generation
  {
    RunTwo(w, OpenRead(i), OpenFinish(i, Blank, Good));
    F.StepKeeps(w.fence, F.Open(i));
    F.RecoverKeeps(F.Apply(w.fence, F.Open(i)), i);
  }

  lemma AttachLands(w: World, i: nat)
    requires F.Inv(w.fence) && i in w.clients && i in w.fence.seats && !w.clients[i].phase.Opening?
    requires !w.fence.seats[i].handle.frozen && w.fence.Durable() == w.fence.seats[i].seen
    requires w.clients[i].snap.generation <= w.fence.seats[i].handle.highWater < U64_MAX
             && w.clients[i].snap.content.other != []
    ensures var w' := ApplyAttach(w, i, {}, [], Good);
            && F.Inv(w'.fence) && i in w'.clients && i in w'.fence.seats && !w'.clients[i].phase.Opening?
            && w'.wire == w.wire && w'.encryptions == w.encryptions
            && w'.fence.Durable().Some? && w'.fence.Durable().value.content.provider
              == w.clients[i].snap.content.provider
            && w'.fence.seats[i].handle.highWater == w.fence.seats[i].handle.highWater + 1
            && w'.fence.seats[i].seen == w'.fence.Durable()
  {
    OfferLands(w.fence, i, w.clients[i].snap.generation, Content(w.clients[i].snap.content.provider, {}, []));
  }

  /** The latch is lifted, and the coordinator still has its own snapshot. */
  lemma FailedRecoveryLeaves(w: World, i: nat)
    requires F.Inv(w.fence) && w.fence.landed != [] && i in w.clients && i in w.fence.seats
             && !w.clients[i].phase.Opening?
    ensures var w' := Run(w, FailedRecovery(i));
            && F.Inv(w'.fence) && w'.fence.landed == w.fence.landed && w'.wire == w.wire
              && w'.encryptions == w.encryptions
            && i in w'.clients && w'.clients[i].phase.Poisoned? && w'.clients[i].snap == w.clients[i].snap
            && i in w'.fence.seats && w'.fence.seats[i] == F.Adopting(w.fence.seats[i], w.fence.Durable())
  {
    RunTwo(w, RecoverRead(i, true), RecoverFail(i, Blank));
    ReadAdopts(w, i);
  }

  /** Attaching after a failed recovery puts the coordinator's own snapshot over what it read. */
  lemma FailedThenAttached(w: World, i: nat)
    requires F.Inv(w.fence) && w.fence.landed != [] && i in w.clients && i in w.fence.seats
             && !w.clients[i].phase.Opening?
    requires w.clients[i].snap.generation <= w.fence.seats[i].handle.highWater && w.clients[i].snap.content.other != []
    requires F.Max(w.fence.seats[i].handle.highWater, w.fence.Durable().value.generation) < U64_MAX
    ensures var w' := Run(w, FailedRecovery(i) + [Attach(i, {}, [], Good)]);
            && F.Inv(w'.fence) && i in w'.clients && i in w'.fence.seats && !w'.clients[i].phase.Opening?
            && w'.wire == w.wire && w'.encryptions == w.encryptions
            && w'.fence.Durable().Some? && w'.fence.Durable().value.content.provider
              == w.clients[i].snap.content.provider
            && w'.fence.seats[i].handle.highWater
              == F.Max(w.fence.seats[i].handle.highWater, w.fence.Durable().value.generation) + 1
            && w'.fence.seats[i].seen == w'.fence.Durable()
  {
    RunAppend(w, FailedRecovery(i), [Attach(i, {}, [], Good)]);
    FailedRecoveryLeaves(w, i);
    RunOne(Run(w, FailedRecovery(i)), Attach(i, {}, [], Good));
    AttachLands(Run(w, FailedRecovery(i)), i);
  }

  function Prefix(): seq<Step> { Opened(0) + Holding(0) + (Opened(1) + SendAll(1, First)) }

  lemma FirstHolds()
    ensures var w := Run(Start, Opened(0) + Holding(0));
            && AtTheStore(w, 0) && w.clients[0].memory == Blank && w.clients[0].snap.content.other == Control
            && w.fence.seats[0].handle.highWater == 2
            && w.wire == [] && w.encryptions == 0 && w.clients.Keys == {0} && w.fence.seats.Keys == {0}
  {
    RunAppend(Start, Opened(0), Holding(0));
    FirstOpens(0);
    HoldingLands(Run(Start, Opened(0)), 0);
  }

  /** Coordinator 1 has sent at position 0; coordinator 0 still holds the snapshot before it. */
  lemma OneHasSent()
    ensures var w := Run(Start, Prefix());
            && F.Inv(w.fence) && w.fence.landed != [] && 0 in w.clients && 0 in w.fence.seats
              && w.clients[0].phase.Running?
            && w.clients[0].snap.generation <= w.fence.seats[0].handle.highWater <= 3
              && w.fence.Durable().value.generation <= 3
            && w.clients[0].snap.content.provider == Blank && w.clients[0].snap.content.other == Control
            && w.encryptions == 1 && |w.wire| == 1 && w.wire[0].cipher == First
  {
    var w0 := Run(Start, Opened(0) + Holding(0));
    var w1 := Run(w0, Opened(1));
    assert Run(Start, Prefix()) == Run(w1, SendAll(1, First)) by {
      RunAppend(Start, Opened(0) + Holding(0), Opened(1) + SendAll(1, First));
      RunAppend(w0, Opened(1), SendAll(1, First));
    }
    FirstHolds();
    AnotherOpens(w0, 1);
    assert F.SeatOk(w1.fence.landed, w1.fence.seats[0]) && F.SeatOk(w0.fence.landed, w0.fence.seats[0]);
    SendReachesTheWire(w1, 1, First);
    var w2 := Run(w1, SendAll(1, First));
    assert F.SeatOk(w2.fence.landed, w2.fence.seats[1]);
  }

  /** Whoever attaches without asking: the law fails on this run. */
  lemma FrozenAttachSendsAPositionTwice()
    ensures !NoPositionTwice(Run(Start, FrozenAttach()))
  {
    OneHasSent();
    var w := Run(Start, Prefix());
    FailedThenAttached(w, 0);
    var attach := FailedRecovery(0) + [Attach(0, {}, [], Good)];
    var w1 := Run(w, attach);
    assert F.SeatOk(w1.fence.landed, w1.fence.seats[0]);
    RecoveryReachesTheStore(w1, 0);
    var w2 := Run(w1, Recovery(0));
    SentTwice(w2, 0, 0, Second);
    RunAppend(w1, Recovery(0), SendAll(0, Second));
    RunAppend(w, attach, Recovery(0) + SendAll(0, Second));
    RunAppend(Start, Prefix(), attach + (Recovery(0) + SendAll(0, Second)));
  }
}
