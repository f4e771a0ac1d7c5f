/**
  Any number of group coordinators on one store: opening, encrypting in memory,
  committing the exported ratchet state, dispatching, crashing and recovering, one
  atomic segment (the code between two awaits) at a time.

  The whole-run result is that no two ciphertexts that reach the wire share a ratchet
  position, and that a position is durable before its ciphertext is sent.
 */
module Coordinator {
  import opened Bytes
  import F = Fence

  /**
    The pairwise provider's state: how many messages it has encrypted to each peer
    (the next ratchet position) and everything else in it.
   */
  datatype Provider = Provider(sent: map<bytes, nat>, rest: bytes) {
    function Position(peer: bytes): nat {
      if peer in sent then sent[peer] else 0
    }

    function Advanced(peer: bytes): Provider {
      Provider(sent[peer := Position(peer) + 1], rest)
    }

    /** Nowhere behind `other`. */
    ghost predicate AtLeast(other: Provider) {
      forall peer: bytes :: other.Position(peer) <= Position(peer)
    }
  }

  /** One encryption: its ratchet position, and a number of its own. */
  datatype Cipher = Cipher(peer: bytes, position: nat, plaintext: bytes, encryption: nat)

  /** What a snapshot carries: provider state, exact prepared ciphertexts, everything else. */
  datatype Content = Content(provider: Provider, outbox: set<Cipher>, other: bytes)

  type Snapshot = F.Stamped<Content>

  datatype Phase =
    | Opening                     // the store was read; the client's state is being exported
    | Running
    | Sending                     // a direct send has advanced the ratchet in memory
    | Recovering(target: Snapshot) // the store was read; the provider is being restored
    | Rebuilding                  // restored; the group state is being rebuilt from the snapshot
    | Poisoned                    // only another recovery leads on

  datatype Client = Client(phase: Phase, snap: Snapshot, memory: Provider, pending: Option<Cipher>, ready: set<Cipher>)

  /** A ciphertext put on the wire when `landed` snapshots had reached the store. */
  datatype Sent = Sent(cipher: Cipher, landed: nat)

  datatype World = World(
    fence: F.World<Content>,
    clients: map<nat, Client>,
    minted: set<Cipher>,          // ciphertexts a landed snapshot accounted for that can still be sent, or were
    wire: seq<Sent>,
    encryptions: nat)

  const Start := World(F.World([], map[]), map[], {}, [], 0)

  datatype Step =
    | OpenRead(id: nat)
    | OpenFinish(id: nat, state: Provider, write: F.Write)
    | Encrypt(id: nat, peer: bytes, plaintext: bytes, direct: bool)
    | CommitPending(id: nat, write: F.Write)
    | CommitOther(id: nat, exported: Option<Provider>, outbox: set<Cipher>, other: bytes, write: F.Write)
    | Dispatch(id: nat, cipher: Cipher)
    | RecoverRead(id: nat, readable: bool)
    | RecoverRestore(id: nat)
    | RecoverFail(id: nat, left: Provider)
    | RecoverDone(id: nat)
    | Attach(id: nat, outbox: set<Cipher>, other: bytes, write: F.Write)
    | Crash(id: nat)

  /** A candidate offered to the store; `Some` of it when the write reported committed. */
  function Offer(f: F.World<Content>, i: nat, current: u64, content: Content,
        write: F.Write): (F.World<Content>, Option<Snapshot>)
    requires i in f.seats
  {
    var seat := f.seats[i];
    var next := F.NextGeneration(seat.handle, current);
    var f' := F.Apply(f, F.Publish(i, current, content, write));
    if !seat.handle.frozen && F.Possible(write) && next.Some?
       && F.HandleCommit(seat.handle, f.Durable(), F.Stamped(next.value, content), write).2.Committed? then
      (f', Some(F.Stamped(next.value, content)))
    else (f', None)
  }

  function Drop(w: World, i: nat): World {
    w.(fence := F.Apply(w.fence, F.Close(i)), clients := w.clients - {i})
  }

  /** The coordinator exists and is not frozen: neither poisoned nor latched. */
  predicate Free(w: World, i: nat) {
    i in w.clients && i in w.fence.seats && w.clients[i].phase.Running? && !w.fence.seats[i].handle.frozen
  }

  function ApplyOpenRead(w: World, i: nat): World {
    if i in w.clients || i in w.fence.seats then w
    else
      var f := F.Apply(F.Apply(w.fence, F.Open(i)), F.Recover(i));
      w.(fence := f,
         clients := w.clients[i := Client(Opening, F.Stamped(0, Content(Provider(map[], []), {}, [])),
           Provider(map[], []), None, {})])
  }

  function ApplyOpenFinish(w: World, i: nat, exported: Provider, write: F.Write): World {
    if i !in w.clients || i !in w.fence.seats || !w.clients[i].phase.Opening? then w
    else
      var seen := w.fence.seats[i].seen;
      if seen.Some? then
        if seen.value.content.provider == exported then
          w.(clients := w.clients[i := Client(Running, seen.value, exported, None, {})])
        else Drop(w, i)
      else
        var (f, done) := Offer(w.fence, i, 0, Content(exported, {}, []), write);
        if done.Some? then
          w.(fence := f, clients := w.clients[i := Client(Running, done.value, exported, None, {})])
        else Drop(w.(fence := f), i)
  }

  function ApplyEncrypt(w: World, i: nat, peer: bytes, plaintext: bytes, direct: bool): World {
    if !Free(w, i) then w
    else
      var c := w.clients[i];
      var cipher := Cipher(peer, c.memory.Position(peer), plaintext, w.encryptions);
      w.(encryptions := w.encryptions + 1,
         clients := w.clients[i := c.(phase := if direct then Sending else Running,
                                      memory := c.memory.Advanced(peer), pending := Some(cipher))])
  }

  /** What a commit after an encryption publishes: a group ciphertext is recorded with it. */
  function PendingContent(c: Client): Content
    requires c.pending.Some?
  {
    c.snap.content.(provider := c.memory,
                    outbox := if c.phase.Sending? then c.snap.content.outbox
                      else c.snap.content.outbox + {c.pending.value})
  }

  function AfterPending(c: Client, done: Option<Snapshot>): Client
    requires c.pending.Some?
  {
    if done.None? then c.(pending := None)
    else Client(Running, done.value, c.memory, None, if c.phase.Sending? then c.ready + {c.pending.value} else c.ready)
  }

  /**
    The commit that follows an encryption. A direct ciphertext becomes ready to be
    sent; a group ciphertext is recorded in the snapshot it commits with.
   */
  function ApplyCommitPending(w: World, i: nat, write: F.Write): World {
    if i !in w.clients || i !in w.fence.seats || w.clients[i].pending.None? then w
    else
      var c := w.clients[i];
      var (f, done) := Offer(w.fence, i, c.snap.generation, PendingContent(c), write);
      w.(fence := f,
         minted := if |f.landed| == |w.fence.landed| then w.minted else w.minted + {c.pending.value},
         clients := w.clients[i := AfterPending(c, done)])
  }

  /**
    Every other commit: a received item with the provider state it left, a delivery
    cursor, a reservation, a roster transition. It may drop retained ciphertexts.
   */
  ghost function ApplyCommitOther(w: World, i: nat, exported: Option<Provider>, outbox: set<Cipher>, other: bytes,
        write: F.Write): World {
    if i !in w.clients || i !in w.fence.seats
       || !(Free(w, i) || (w.clients[i].phase.Rebuilding? && exported.None?))
       || !(outbox <= w.clients[i].snap.content.outbox)
       || (exported.Some? && !exported.value.AtLeast(w.clients[i].memory)) then w
    else
      var c := w.clients[i];
      var provider := if exported.Some? then exported.value else c.snap.content.provider;
      var memory := if exported.Some? then exported.value else c.memory;
      var (f, done) := Offer(w.fence, i, c.snap.generation, Content(provider, outbox, other), write);
      w.(fence := f,
         clients := w.clients[i :=
           if done.None? then c.(memory := memory, pending := None, phase := if exported.Some? then Poisoned
             else c.phase)
           else c.(snap := done.value, memory := memory, pending := None)])
  }

  /** A ciphertext a client can put on the wire now, or after it finishes what it has begun. */
  ghost predicate Holds(c: Client, seen: Option<Snapshot>, m: Cipher) {
    || m in c.ready
    || m in c.snap.content.outbox
    || (c.phase.Recovering? && m in c.phase.target.content.outbox)
    || (c.phase.Opening? && seen.Some? && m in seen.value.content.outbox)
  }

  ghost predicate HeldBy(w: World, j: nat, m: Cipher) {
    j in w.clients && j in w.fence.seats && Holds(w.clients[j], w.fence.seats[j].seen, m)
  }

  ghost predicate OnWire(w: World, m: Cipher) { exists k | 0 <= k < |w.wire| :: w.wire[k].cipher == m }

  /**
    Attaching a group applies the roster controls the snapshot holds, and commits what that
    changes. It asks whether the store is latched, not whether the coordinator is frozen;
    the operation that froze it is gone.
   */
  ghost function ApplyAttach(w: World, i: nat, outbox: set<Cipher>, other: bytes, write: F.Write): World {
    if i !in w.clients || i !in w.fence.seats || w.clients[i].phase.Opening?
       || other == w.clients[i].snap.content.other || !(outbox <= w.clients[i].snap.content.outbox) then w
    else
      var c := Stopped(w.clients[i]);
      var (f, done) := Offer(w.fence, i, c.snap.generation, Content(c.snap.content.provider, outbox, other), write);
      var w' := w.(fence := f, clients := w.clients[i := if done.None? then c else c.(snap := done.value)]);
      if f.landed == w.fence.landed then w' else w'.(minted := Outstanding(w'))
  }

  function Stopped(c: Client): Client {
    c.(phase := if c.phase.Recovering? then Poisoned else c.phase, pending := None)
  }

  /** What still matters of what was minted. */
  ghost function Outstanding(w: World): set<Cipher> {
    set m | m in w.minted && (OnWire(w, m) || exists j :: HeldBy(w, j, m))
  }

  function ApplyDispatch(w: World, i: nat, cipher: Cipher): World {
    if i !in w.clients || w.clients[i].phase.Opening?
      || cipher !in w.clients[i].ready + w.clients[i].snap.content.outbox then w
    else w.(wire := w.wire + [Sent(cipher, |w.fence.landed|)])
  }

  function ApplyRecoverRead(w: World, i: nat, readable: bool): World {
    if i !in w.clients || i !in w.fence.seats || w.clients[i].phase.Opening? then w
    else
      var c := w.clients[i].(phase := Poisoned, pending := None, ready := {});
      if !readable then w.(clients := w.clients[i := c])
      else
        var durable := w.fence.Durable();
        var target := if durable.None? || F.Behind(w.fence.seats[i].handle, durable) then Poisoned
          else Recovering(durable.value);
        w.(fence := F.Apply(w.fence, F.RecoverNotBehind(i)), clients := w.clients[i := c.(phase := target)])
  }

  function ApplyRecoverRest(w: World, i: nat, step: Step): World {
    if i !in w.clients then w
    else
      var c := w.clients[i];
      match step
      case RecoverRestore(_) =>
        if !c.phase.Recovering? then w
        else w.(clients := w.clients[i := c.(phase := Rebuilding, snap := c.phase.target,
          memory := c.phase.target.content.provider)])
      case RecoverFail(_, left) =>
        if !c.phase.Recovering? then w
        else w.(clients := w.clients[i := c.(phase := Poisoned, memory := left)])
      case RecoverDone(_) =>
        if !c.phase.Rebuilding? then w else w.(clients := w.clients[i := c.(phase := Running)])
      case _ => w
  }

  ghost function Apply(w: World, step: Step): World {
    match step
    case OpenRead(i) => ApplyOpenRead(w, i)
    case OpenFinish(i, exported, write) => ApplyOpenFinish(w, i, exported, write)
    case Encrypt(i, peer, plaintext, direct) => ApplyEncrypt(w, i, peer, plaintext, direct)
    case CommitPending(i, write) => ApplyCommitPending(w, i, write)
    case CommitOther(i, exported, outbox, other, write) => ApplyCommitOther(w, i, exported, outbox, other, write)
    case Dispatch(i, cipher) => ApplyDispatch(w, i, cipher)
    case RecoverRead(i, readable) => ApplyRecoverRead(w, i, readable)
    case Crash(i) => Drop(w, i)
    case Attach(i, outbox, other, write) => ApplyAttach(w, i, outbox, other, write)
    case _ => ApplyRecoverRest(w, step.id, step)
  }

  ghost function Run(w: World, steps: seq<Step>): World
    decreases |steps|
  {
    if steps == [] then w else Apply(Run(w, steps[..|steps| - 1]), steps[|steps| - 1])
  }

  // What every reachable world satisfies.

  ghost predicate Accounted(durable: Option<Snapshot>, minted: set<Cipher>) {
    && (forall m | m in minted :: durable.Some? && m.position < durable.value.content.provider.Position(m.peer))
    && (forall m, n | m in minted && n in minted && m.peer == n.peer && m.position == n.position :: m == n)
  }

  ghost predicate Uncommitted(c: Client) {
    c.pending.Some? ==>
      && c.snap.content.provider.Position(c.pending.value.peer) <= c.pending.value.position
      && c.pending.value.position < c.memory.Position(c.pending.value.peer)
  }

  ghost predicate PastAll(provider: Provider, ms: set<Cipher>) {
    forall m | m in ms :: m.position < provider.Position(m.peer)
  }

  /** A snapshot is past the ciphertexts it retains. */
  ghost predicate PastOwn(snap: Snapshot) { PastAll(snap.content.provider, snap.content.outbox) }

  ghost predicate ClientOk(c: Client, seen: Option<Snapshot>, minted: set<Cipher>) {
    && (forall m | Holds(c, seen, m) :: m in minted)
    && PastOwn(c.snap) && PastAll(c.snap.content.provider, c.ready)
    && match c.phase
       case Opening => c.pending.None? && c.ready == {} && c.snap.content.outbox == {}
       case Poisoned => c.pending.None?
       case Recovering(target) => c.pending.None? && c.ready == {} && seen == Some(target)
       case _ => seen == Some(c.snap) && c.memory.AtLeast(c.snap.content.provider) && Uncommitted(c)
  }

  ghost predicate ClientsOk(w: World) {
    && w.clients.Keys == w.fence.seats.Keys
    && forall i | i in w.clients :: ClientOk(w.clients[i], w.fence.seats[i].seen, w.minted)
  }

  /** Every landed snapshot is past what it retains, and what the last one retains is minted. */
  ghost predicate OutboxesOk(landed: seq<Snapshot>, minted: set<Cipher>) {
    && (forall k | 0 <= k < |landed| :: PastOwn(landed[k]))
    && (landed != [] ==> landed[|landed| - 1].content.outbox <= minted)
  }

  ghost predicate WireOk(landed: seq<Snapshot>, minted: set<Cipher>, wire: seq<Sent>) {
    forall k | 0 <= k < |wire| :: SentOk(landed, minted, wire[k])
  }

  ghost predicate Inv(w: World) {
    && F.Inv(w.fence)
    && ClientsOk(w)
    && OutboxesOk(w.fence.landed, w.minted)
    && Accounted(w.fence.Durable(), w.minted)
    && WireOk(w.fence.landed, w.minted, w.wire)
  }

  ghost predicate SentOk(landed: seq<Snapshot>, minted: set<Cipher>, s: Sent) {
    && s.cipher in minted
    && 1 <= s.landed <= |landed|
    && s.cipher.position < landed[s.landed - 1].content.provider.Position(s.cipher.peer)
  }

  /** The fence after seat `i` offered `content`: at most that content was added to what landed. */
  ghost predicate Offered(f: F.World<Content>, f': F.World<Content>, i: nat, content: Content)
    requires i in f.seats
  {
    && F.Inv(f') && f'.seats.Keys == f.seats.Keys
    && (forall j | j in f.seats && j != i :: f'.seats[j] == f.seats[j])
    && (f'.landed == f.landed
        || (exists g: u64 :: f'.landed == f.landed + [F.Stamped(g, content)] && f.Durable() == f.seats[i].seen))
  }

  lemma OfferFacts(f: F.World<Content>, i: nat, current: u64, content: Content, write: F.Write)
    requires F.Inv(f) && i in f.seats
    ensures var (f', done) := Offer(f, i, current, content, write);
            && Offered(f, f', i, content)
            && (done.Some? ==>
                  f'.landed == f.landed + [done.value] && f'.seats[i].seen == done && done.value.content == content)
            && (done.None? ==> f'.seats[i].seen == f.seats[i].seen)
  {
    F.PublishKeeps(f, i, current, content, write);
    var next := F.NextGeneration(f.seats[i].handle, current);
    if F.Possible(write) && next.Some? {
      if f.seats[i].handle.frozen {
        assert f.seats[i := f.seats[i]] == f.seats;
      } else {
        F.PublishSpelled(f, i, current, content, write);
        var f' := F.Apply(f, F.Publish(i, current, content, write));
        assert f'.landed != f.landed ==> f'.landed == f.landed + [F.Stamped(next.value, content)];
      }
    }
  }

  lemma WireKept(landed: seq<Snapshot>, minted: set<Cipher>, wire: seq<Sent>, s: Snapshot, minted': set<Cipher>)
    requires WireOk(landed, minted, wire) && minted <= minted'
    ensures WireOk(landed + [s], minted', wire)
  {
    forall k | 0 <= k < |wire| ensures SentOk(landed + [s], minted', wire[k]) {
      assert SentOk(landed, minted, wire[k]);
    }
  }

  lemma ClientsKept(w: World, w': World, i: nat)
    requires ClientsOk(w) && i in w.clients && i in w'.clients
    requires w'.clients == w.clients[i := w'.clients[i]] && w'.fence.seats.Keys == w.fence.seats.Keys
    requires forall j | j in w.fence.seats && j != i :: w'.fence.seats[j] == w.fence.seats[j]
    requires w.minted <= w'.minted && ClientOk(w'.clients[i], w'.fence.seats[i].seen, w'.minted)
    ensures ClientsOk(w')
  {
    forall j | j in w'.clients ensures ClientOk(w'.clients[j], w'.fence.seats[j].seen, w'.minted) {
      if j != i { assert ClientOk(w.clients[j], w.fence.seats[j].seen, w.minted); }
    }
  }

  /** A commit, whatever it published: what every commit step has to show. */
  lemma CommitKeeps(w: World, w': World, i: nat, content: Content)
    requires Inv(w) && i in w.clients && i in w'.clients
    requires Offered(w.fence, w'.fence, i, content)
    requires w' == World(w'.fence, w.clients[i := w'.clients[i]], w'.minted, w.wire, w.encryptions)
    requires w.minted <= w'.minted && ClientOk(w'.clients[i], w'.fence.seats[i].seen, w'.minted)
    requires w'.fence.landed == w.fence.landed ==> w'.minted == w.minted
    requires w'.fence.landed != w.fence.landed ==>
               Accounted(w'.fence.Durable(), w'.minted) && content.outbox <= w'.minted
                 && PastAll(content.provider, content.outbox)
    ensures Inv(w')
  {
    if w'.fence.landed != w.fence.landed {
      var g: u64 :| w'.fence.landed == w.fence.landed + [F.Stamped(g, content)];
      LandingKeeps(w.fence.landed, w.minted, w.wire, F.Stamped(g, content), w'.minted, w'.fence.landed);
    }
    ClientsKept(w, w', i);
  }

  lemma LandingKeeps(landed: seq<Snapshot>, minted: set<Cipher>, wire: seq<Sent>, s: Snapshot, minted': set<Cipher>,
        landed': seq<Snapshot>)
    requires landed' == landed + [s] && OutboxesOk(landed, minted) && WireOk(landed, minted, wire)
    requires minted <= minted' && s.content.outbox <= minted' && PastOwn(s)
    ensures OutboxesOk(landed', minted') && WireOk(landed', minted', wire)
  {
    WireKept(landed, minted, wire, s, minted');
    OutboxesGrow(landed, minted, s, minted');
  }

  lemma OutboxesGrow(landed: seq<Snapshot>, minted: set<Cipher>, s: Snapshot, minted': set<Cipher>)
    requires OutboxesOk(landed, minted) && s.content.outbox <= minted' && PastOwn(s)
    ensures OutboxesOk(landed + [s], minted')
  {
  }

  lemma MintingKeepsAccounts(durable: Snapshot, minted: set<Cipher>, cipher: Cipher, content: Content)
    requires Accounted(Some(durable), minted)
    requires content.provider.AtLeast(durable.content.provider)
    requires durable.content.provider.Position(cipher.peer) <= cipher.position < content.provider.Position(cipher.peer)
    ensures forall g: u64 :: Accounted(Some(F.Stamped(g, content)), minted + {cipher})
  {
    forall m | m in minted ensures m.position < content.provider.Position(m.peer) {
      assert m.position < durable.content.provider.Position(m.peer) <= content.provider.Position(m.peer);
    }
  }

  lemma AfterPendingOk(c: Client, seen: Option<Snapshot>, minted: set<Cipher>, done: Option<Snapshot>)
    requires c.pending.Some? && ClientOk(c, seen, minted)
    requires done.Some? ==> done.value.content == PendingContent(c)
    ensures done.Some? ==> ClientOk(AfterPending(c, done), done, minted + {c.pending.value})
    ensures done.None? ==> ClientOk(AfterPending(c, done), seen, minted)
  {
  }

  /** The client after the commit, whichever way it went. */
  lemma PendingClientOk(c: Client, seen: Option<Snapshot>, minted: set<Cipher>, done: Option<Snapshot>,
        seen': Option<Snapshot>, landed: bool)
    requires c.pending.Some? && ClientOk(c, seen, minted) && seen' == if done.Some? then done else seen
    requires done.Some? ==> landed && done.value.content == PendingContent(c)
    ensures ClientOk(AfterPending(c, done), seen', if landed then minted + {c.pending.value} else minted)
  {
    AfterPendingOk(c, seen, minted, done);
    if done.None? { ClientOkGrows(AfterPending(c, None), seen, minted, minted + {c.pending.value}); }
  }

  lemma PendingIsPast(c: Client, seen: Option<Snapshot>, minted: set<Cipher>)
    requires c.pending.Some? && ClientOk(c, seen, minted)
    ensures seen == Some(c.snap) && Uncommitted(c) && c.memory.AtLeast(c.snap.content.provider)
    ensures PendingContent(c).outbox <= minted + {c.pending.value}
    ensures PastAll(PendingContent(c).provider, PendingContent(c).outbox)
  {
  }

  lemma CommitPendingKeeps(w: World, i: nat, write: F.Write)
    requires Inv(w)
    ensures Inv(ApplyCommitPending(w, i, write))
  {
    if i in w.clients && w.clients[i].pending.Some? {
      var c := w.clients[i];
      var w' := ApplyCommitPending(w, i, write);
      assert ClientOk(c, w.fence.seats[i].seen, w.minted);
      OfferFacts(w.fence, i, c.snap.generation, PendingContent(c), write);
      var (f, done) := Offer(w.fence, i, c.snap.generation, PendingContent(c), write);
      PendingIsPast(c, w.fence.seats[i].seen, w.minted);
      PendingClientOk(c, w.fence.seats[i].seen, w.minted, done, f.seats[i].seen, |f.landed| != |w.fence.landed|);
      if |f.landed| != |w.fence.landed| { MintingKeepsAccounts(c.snap, w.minted, c.pending.value, PendingContent(c)); }
      CommitKeeps(w, w', i, PendingContent(c));
    }
  }

  lemma ClientOkGrows(c: Client, seen: Option<Snapshot>, minted: set<Cipher>, minted': set<Cipher>)
    requires ClientOk(c, seen, minted) && minted <= minted'
    ensures ClientOk(c, seen, minted')
  {
  }

  lemma CommitOtherKeeps(w: World, i: nat, exported: Option<Provider>, outbox: set<Cipher>, other: bytes,
        write: F.Write)
    requires Inv(w)
    ensures Inv(ApplyCommitOther(w, i, exported, outbox, other, write))
  {
    var w' := ApplyCommitOther(w, i, exported, outbox, other, write);
    if w' != w {
      var c := w.clients[i];
      assert ClientOk(c, w.fence.seats[i].seen, w.minted);
      var content := Content(if exported.Some? then exported.value else c.snap.content.provider, outbox, other);
      assert content.provider.AtLeast(c.snap.content.provider) by {
        if exported.Some? { AtLeastTransitive(content.provider, c.memory, c.snap.content.provider); }
      }
      OfferFacts(w.fence, i, c.snap.generation, content, write);
      var (f, done) := Offer(w.fence, i, c.snap.generation, content, write);
      if |f.landed| != |w.fence.landed| {
        RepublishKeepsAccounts(c.snap, w.minted, content);
      }
      CommitKeeps(w, w', i, content);
    }
  }

  lemma AtLeastTransitive(a: Provider, b: Provider, c: Provider)
    requires a.AtLeast(b) && b.AtLeast(c)
    ensures a.AtLeast(c)
  {
    forall peer: bytes ensures c.Position(peer) <= a.Position(peer) {
      assert c.Position(peer) <= b.Position(peer) <= a.Position(peer);
    }
  }

  lemma RepublishKeepsAccounts(durable: Snapshot, minted: set<Cipher>, content: Content)
    requires Accounted(Some(durable), minted) && content.provider.AtLeast(durable.content.provider)
    ensures forall g: u64 :: Accounted(Some(F.Stamped(g, content)), minted)
  {
    forall m | m in minted ensures m.position < content.provider.Position(m.peer) {
      assert m.position < durable.content.provider.Position(m.peer) <= content.provider.Position(m.peer);
    }
  }

  lemma OpenReadKeeps(w: World, i: nat)
    requires Inv(w)
    ensures Inv(ApplyOpenRead(w, i))
  {
    if i !in w.clients {
      var f1 := F.Apply(w.fence, F.Open(i));
      F.StepKeeps(w.fence, F.Open(i));
      F.RecoverKeeps(f1, i);
      var w' := ApplyOpenRead(w, i);
      assert w'.fence == f1.(seats := f1.seats[i := F.Adopting(f1.seats[i], f1.Durable())]);
      assert ClientsOk(w') by {
        forall j | j in w'.clients ensures ClientOk(w'.clients[j], w'.fence.seats[j].seen, w'.minted) {
          if j != i { assert ClientOk(w.clients[j], w.fence.seats[j].seen, w.minted); }
        }
      }
    }
  }

  lemma DropKeeps(w: World, i: nat)
    requires Inv(w)
    ensures Inv(Drop(w, i))
  {
    F.StepKeeps(w.fence, F.Close(i));
  }

  lemma OpenFinishKeeps(w: World, i: nat, exported: Provider, write: F.Write)
    requires Inv(w)
    ensures Inv(ApplyOpenFinish(w, i, exported, write))
  {
    if i in w.clients && w.clients[i].phase.Opening? {
      var seen := w.fence.seats[i].seen;
      if seen.Some? {
        assert F.SeatOk(w.fence.landed, w.fence.seats[i]);
        if seen.value.content.provider == exported {
          var k :| 0 <= k < |w.fence.landed| && w.fence.landed[k] == seen.value;
          assert w.fence.landed[k].content.outbox <= w.minted;
          ClientsKept(w, ApplyOpenFinish(w, i, exported, write), i);
        } else {
          DropKeeps(w, i);
        }
      } else {
        OpenEmptyKeeps(w, i, exported, write);
      }
    }
  }

  /** The first snapshot of an empty store. */
  lemma OpenEmptyKeeps(w: World, i: nat, exported: Provider, write: F.Write)
    requires Inv(w) && i in w.clients && w.clients[i].phase.Opening? && w.fence.seats[i].seen.None?
    ensures Inv(ApplyOpenFinish(w, i, exported, write))
  {
    var (f, done) := Offer(w.fence, i, 0, Content(exported, {}, []), write);
    var client := if done.Some? then Client(Running, done.value, exported, None, {}) else w.clients[i];
    FirstOfferKeeps(w, i, exported, write, f, client);
    if done.None? {
      assert w.(fence := f, clients := w.clients[i := client]) == w.(fence := f);
      DropKeeps(w.(fence := f), i);
    }
  }

  lemma FirstOfferKeeps(w: World, i: nat, exported: Provider, write: F.Write, f: F.World<Content>, client: Client)
    requires Inv(w) && i in w.clients && w.clients[i].phase.Opening? && w.fence.seats[i].seen.None?
    requires var (f', done) := Offer(w.fence, i, 0, Content(exported, {}, []), write);
             f == f' && client == if done.Some? then Client(Running, done.value, exported, None, {}) else w.clients[i]
    ensures Inv(w.(fence := f, clients := w.clients[i := client]))
  {
    var content := Content(exported, {}, []);
    OfferFacts(w.fence, i, 0, content, write);
    assert ClientOk(w.clients[i], w.fence.seats[i].seen, w.minted);
    if f.landed != w.fence.landed {
      assert w.fence.Durable() == None;
      assert w.minted == {};
    }
    CommitKeeps(w, w.(fence := f, clients := w.clients[i := client]), i, content);
  }

  lemma EncryptKeeps(w: World, i: nat, peer: bytes, plaintext: bytes, direct: bool)
    requires Inv(w)
    ensures Inv(ApplyEncrypt(w, i, peer, plaintext, direct))
  {
    if Free(w, i) {
      var w' := ApplyEncrypt(w, i, peer, plaintext, direct);
      assert ClientOk(w.clients[i], w.fence.seats[i].seen, w.minted);
      assert w'.clients[i].memory.AtLeast(w.clients[i].memory);
      AtLeastTransitive(w'.clients[i].memory, w.clients[i].memory, w.clients[i].snap.content.provider);
      ClientsKept(w, w', i);
    }
  }

  lemma DispatchKeeps(w: World, i: nat, cipher: Cipher)
    requires Inv(w)
    ensures Inv(ApplyDispatch(w, i, cipher))
  {
    if i in w.clients {
      assert ClientOk(w.clients[i], w.fence.seats[i].seen, w.minted);
    }
  }

  /** The client that has read the store, or has failed to. */
  lemma ReadClientOk(c: Client, seen: Option<Snapshot>, seen': Option<Snapshot>, phase: Phase, minted: set<Cipher>)
    requires ClientOk(c, seen, minted) && !c.phase.Opening?
    requires phase.Poisoned? || (phase.Recovering? && seen' == Some(phase.target)
             && phase.target.content.outbox <= minted)
    ensures ClientOk(c.(phase := phase, pending := None, ready := {}), seen', minted)
  {
    var c' := c.(phase := phase, pending := None, ready := {});
    forall m | Holds(c', seen', m) ensures m in minted {
      if m in c.snap.content.outbox { assert Holds(c, seen, m); }
    }
  }

  lemma RecoverReadKeeps(w: World, i: nat, readable: bool)
    requires Inv(w)
    ensures Inv(ApplyRecoverRead(w, i, readable))
  {
    if i in w.clients && !w.clients[i].phase.Opening? {
      var w' := ApplyRecoverRead(w, i, readable);
      assert ClientOk(w.clients[i], w.fence.seats[i].seen, w.minted);
      if readable {
        F.RecoverKeeps(w.fence, i);
        assert w'.fence == w.fence.(seats := w.fence.seats[i := F.Adopting(w.fence.seats[i], w.fence.Durable())]);
      }
      ReadClientOk(w.clients[i], w.fence.seats[i].seen, w'.fence.seats[i].seen, w'.clients[i].phase, w.minted);
      ClientsKept(w, w', i);
    }
  }

  lemma RecoverRestKeeps(w: World, i: nat, step: Step)
    requires Inv(w)
    ensures Inv(ApplyRecoverRest(w, i, step))
  {
    if i in w.clients {
      var w' := ApplyRecoverRest(w, i, step);
      var c := w.clients[i];
      assert ClientOk(c, w.fence.seats[i].seen, w.minted);
      if w' != w {
        if c.phase.Recovering? {
          assert F.SeatOk(w.fence.landed, w.fence.seats[i]);
          var k :| 0 <= k < |w.fence.landed| && w.fence.landed[k] == c.phase.target;
          assert w.fence.landed[k].content.outbox <= w.minted;
        }
        ClientsKept(w, w', i);
      }
    }
  }

  /** Attaching changes what the coordinator holds, its store is not latched and still what it last saw, and the write
      lands. */
  ghost predicate CanLand(w: World, i: nat, outbox: set<Cipher>, other: bytes, write: F.Write) {
    && i in w.clients && i in w.fence.seats && !w.clients[i].phase.Opening?
    && other != w.clients[i].snap.content.other && outbox <= w.clients[i].snap.content.outbox
    && !w.fence.seats[i].handle.frozen && F.GenerationOf(w.fence.Durable()) == w.fence.seats[i].handle.observed
    && F.NextGeneration(w.fence.seats[i].handle, w.clients[i].snap.generation).Some?
    && F.Possible(write) && write.lands
  }

  /** The coordinator's snapshot is past every ciphertext that was sent, or that another open client can still send. */
  ghost predicate Ahead(w: World, i: nat)
    requires i in w.clients
  {
    forall m | OnWire(w, m) || HeldElsewhere(w, i, m) ::
      m.position < w.clients[i].snap.content.provider.Position(m.peer)
  }

  ghost predicate HeldElsewhere(w: World, i: nat, m: Cipher) { exists j :: j != i && HeldBy(w, j, m) }

  /** What attaching must not do: land over a snapshot when its own is behind what is sent or held. */
  ghost predicate Sound(w: World, step: Step) {
    step.Attach? && CanLand(w, step.id, step.outbox, step.other, step.write) ==> Ahead(w, step.id)
  }

  lemma LandsExactly(w: World, i: nat, outbox: set<Cipher>, other: bytes, write: F.Write)
    requires F.Inv(w.fence)
    ensures ApplyAttach(w, i, outbox, other, write).fence.landed != w.fence.landed <==>
            CanLand(w, i, outbox, other, write)
    ensures CanLand(w, i, outbox, other, write) ==> w.fence.Durable() == w.fence.seats[i].seen
  {
    if i in w.clients && i in w.fence.seats {
      var c := w.clients[i];
      OfferLandsExactly(w.fence, i, c.snap.generation, Content(c.snap.content.provider, outbox, other), write);
    }
  }

  lemma OfferLandsExactly(f: F.World<Content>, i: nat, current: u64, content: Content, write: F.Write)
    requires F.Inv(f) && i in f.seats
    ensures Offer(f, i, current, content, write).0.landed != f.landed <==>
            (&& !f.seats[i].handle.frozen && F.GenerationOf(f.Durable()) == f.seats[i].handle.observed
             && F.NextGeneration(f.seats[i].handle, current).Some? && F.Possible(write) && write.lands)
    ensures Offer(f, i, current, content, write).0.landed != f.landed ==> f.Durable() == f.seats[i].seen
  {
    OfferFacts(f, i, current, content, write);
    assert F.SeatOk(f.landed, f.seats[i]);
  }

  /** What an attaching that landed did to the world. */
  ghost predicate Attached(w: World, w': World, i: nat, content: Content)
    requires i in w.clients && i in w.fence.seats
  {
    && Offered(w.fence, w'.fence, i, content) && w'.fence.landed != w.fence.landed
    && content.provider == w.clients[i].snap.content.provider && content.outbox <= w.clients[i].snap.content.outbox
    && i in w'.clients && w'.clients == w.clients[i := w'.clients[i]] && w'.wire == w.wire
    && w'.clients[i] == Stopped(w.clients[i]).(snap := w'.clients[i].snap)
    && ((w'.clients[i].snap == w.clients[i].snap && w'.fence.seats[i].seen == w.fence.seats[i].seen)
        || (w'.clients[i].snap.content == content && w'.fence.seats[i].seen == Some(w'.clients[i].snap)))
    && w'.minted == Outstanding(w'.(minted := w.minted))
  }

  lemma AttachedSpelled(w: World, i: nat, outbox: set<Cipher>, other: bytes, write: F.Write)
    requires F.Inv(w.fence) && CanLand(w, i, outbox, other, write)
    ensures Attached(w, ApplyAttach(w, i, outbox, other, write), i,
            Content(w.clients[i].snap.content.provider, outbox, other))
  {
    var c := w.clients[i];
    OfferFacts(w.fence, i, c.snap.generation, Content(c.snap.content.provider, outbox, other), write);
    LandsExactly(w, i, outbox, other, write);
  }

  /** The one that attached holds no more than it did, and its own snapshot is past all of it. */
  lemma AttachedHolds(w: World, w': World, i: nat, content: Content, m: Cipher)
    requires i in w.clients && i in w.fence.seats && ClientOk(w.clients[i], w.fence.seats[i].seen, w.minted)
    requires Attached(w, w', i, content) && !w.clients[i].phase.Opening? && HeldBy(w', i, m)
    ensures m in w.minted && m.position < content.provider.Position(m.peer)
  {
    assert m in w.clients[i].ready || m in w.clients[i].snap.content.outbox;
    assert Holds(w.clients[i], w.fence.seats[i].seen, m);
  }

  lemma AttachedClient(w: World, w': World, i: nat, content: Content)
    requires ClientsOk(w) && i in w.clients && i in w.fence.seats && !w.clients[i].phase.Opening?
             && Attached(w, w', i, content)
    ensures ClientOk(w'.clients[i], w'.fence.seats[i].seen, w'.minted)
  {
    assert ClientOk(w.clients[i], w.fence.seats[i].seen, w.minted);
    forall m | Holds(w'.clients[i], w'.fence.seats[i].seen, m) ensures m in w'.minted {
      assert HeldBy(w', i, m);
      AttachedHolds(w, w', i, content, m);
      assert HeldBy(w'.(minted := w.minted), i, m);
    }
  }

  lemma AttachedOther(w: World, w': World, i: nat, content: Content, j: nat)
    requires ClientsOk(w) && i in w.clients && i in w.fence.seats && Attached(w, w', i, content)
    requires j in w.clients && j != i
    ensures j in w'.clients && j in w'.fence.seats && ClientOk(w'.clients[j], w'.fence.seats[j].seen, w'.minted)
  {
    assert ClientOk(w.clients[j], w.fence.seats[j].seen, w.minted);
    forall m | Holds(w.clients[j], w.fence.seats[j].seen, m) ensures m in w'.minted {
      assert HeldBy(w'.(minted := w.minted), j, m);
    }
  }

  /** Everything that still matters is behind what was attached. */
  lemma AttachedAccounts(w: World, w': World, i: nat, content: Content)
    requires Inv(w) && i in w.clients && !w.clients[i].phase.Opening? && Attached(w, w', i, content) && Ahead(w, i)
    ensures PastAll(content.provider, w'.minted) && w'.minted <= w.minted
  {
    assert ClientOk(w.clients[i], w.fence.seats[i].seen, w.minted);
    var w1 := w'.(minted := w.minted);
    forall m | m in w'.minted ensures m.position < content.provider.Position(m.peer) {
      if OnWire(w1, m) {
        assert OnWire(w, m);
      } else {
        var j :| HeldBy(w1, j, m);
        if j == i { assert HeldBy(w', i, m); AttachedHolds(w, w', i, content, m); }
        else { assert HeldBy(w, j, m); assert HeldElsewhere(w, i, m); }
      }
    }
  }

  lemma AttachedWire(landed: seq<Snapshot>, s: Snapshot, w: World, w': World)
    requires WireOk(landed, w.minted, w.wire) && w'.wire == w.wire && w'.minted == Outstanding(w'.(minted := w.minted))
    ensures WireOk(landed + [s], w'.minted, w'.wire)
  {
    forall k | 0 <= k < |w.wire| ensures SentOk(landed + [s], w'.minted, w.wire[k]) {
      assert SentOk(landed, w.minted, w.wire[k]);
      assert OnWire(w'.(minted := w.minted), w.wire[k].cipher);
    }
  }

  lemma AttachedOutbox(w: World, w': World, i: nat, content: Content)
    requires ClientsOk(w) && i in w.clients && i in w.fence.seats && Attached(w, w', i, content)
    ensures content.outbox <= w'.minted && PastAll(content.provider, content.outbox)
  {
    assert ClientOk(w.clients[i], w.fence.seats[i].seen, w.minted);
    forall m | m in content.outbox ensures m in w'.minted {
      assert Holds(w.clients[i], w.fence.seats[i].seen, m);
      assert HeldBy(w'.(minted := w.minted), i, m);
    }
  }

  lemma AttachedKeeps(w: World, w': World, i: nat, content: Content)
    requires Inv(w) && i in w.clients && !w.clients[i].phase.Opening? && Attached(w, w', i, content) && Ahead(w, i)
    ensures Inv(w')
  {
    var g: u64 :| w'.fence.landed == w.fence.landed + [F.Stamped(g, content)];
    AttachedClient(w, w', i, content);
    forall j | j in w.clients && j != i ensures ClientOk(w'.clients[j], w'.fence.seats[j].seen, w'.minted) {
      AttachedOther(w, w', i, content, j);
    }
    assert ClientsOk(w');
    AttachedOutbox(w, w', i, content);
    AttachedAccounts(w, w', i, content);
    AttachedWire(w.fence.landed, F.Stamped(g, content), w, w');
    OutboxesGrow(w.fence.landed, w.minted, F.Stamped(g, content), w'.minted);
  }

  /** One that lands nothing moves only the client. */
  lemma QuietAttachKeeps(w: World, i: nat, outbox: set<Cipher>, other: bytes, write: F.Write)
    requires Inv(w) && ApplyAttach(w, i, outbox, other, write).fence.landed == w.fence.landed
    ensures Inv(ApplyAttach(w, i, outbox, other, write))
  {
    var w' := ApplyAttach(w, i, outbox, other, write);
    if w' != w {
      var c := w.clients[i];
      assert ClientOk(c, w.fence.seats[i].seen, w.minted);
      var content := Content(c.snap.content.provider, outbox, other);
      OfferFacts(w.fence, i, c.snap.generation, content, write);
      CommitKeeps(w, w', i, content);
    }
  }

  lemma AttachKeeps(w: World, i: nat, outbox: set<Cipher>, other: bytes, write: F.Write)
    requires Inv(w) && Sound(w, Attach(i, outbox, other, write))
    ensures Inv(ApplyAttach(w, i, outbox, other, write))
  {
    LandsExactly(w, i, outbox, other, write);
    if CanLand(w, i, outbox, other, write) {
      AttachedSpelled(w, i, outbox, other, write);
      AttachedKeeps(w, ApplyAttach(w, i, outbox, other, write), i,
        Content(w.clients[i].snap.content.provider, outbox, other));
    } else {
      QuietAttachKeeps(w, i, outbox, other, write);
    }
  }

  /** A coordinator that is not frozen attaches soundly; so does a recovery that rebuilds. */
  lemma UnfrozenAttachIsSound(w: World, i: nat, outbox: set<Cipher>, other: bytes, write: F.Write)
    requires Inv(w) && (Free(w, i) || (i in w.clients && w.clients[i].phase.Rebuilding?))
    ensures Sound(w, Attach(i, outbox, other, write))
  {
    if CanLand(w, i, outbox, other, write) {
      LandsExactly(w, i, outbox, other, write);
      assert ClientOk(w.clients[i], w.fence.seats[i].seen, w.minted);
      forall m | OnWire(w, m) || HeldElsewhere(w, i, m) ensures m in w.minted {
        if OnWire(w, m) {
          var k :| 0 <= k < |w.wire| && w.wire[k].cipher == m;
          assert SentOk(w.fence.landed, w.minted, w.wire[k]);
        } else {
          var j :| j != i && HeldBy(w, j, m);
          assert ClientOk(w.clients[j], w.fence.seats[j].seen, w.minted);
        }
      }
    }
  }

  lemma StepKeeps(w: World, step: Step)
    requires Inv(w) && Sound(w, step)
    ensures Inv(Apply(w, step))
  {
    match step
    case OpenRead(i) => OpenReadKeeps(w, i);
    case OpenFinish(i, exported, write) => OpenFinishKeeps(w, i, exported, write);
    case Encrypt(i, peer, plaintext, direct) => EncryptKeeps(w, i, peer, plaintext, direct);
    case CommitPending(i, write) => CommitPendingKeeps(w, i, write);
    case CommitOther(i, exported, outbox, other, write) => CommitOtherKeeps(w, i, exported, outbox, other, write);
    case Dispatch(i, cipher) => DispatchKeeps(w, i, cipher);
    case RecoverRead(i, readable) => RecoverReadKeeps(w, i, readable);
    case Crash(i) => DropKeeps(w, i);
    case Attach(i, outbox, other, write) => AttachKeeps(w, i, outbox, other, write);
    case _ => RecoverRestKeeps(w, step.id, step);
  }

  ghost predicate AllSound(steps: seq<Step>)
    decreases |steps|
  {
    steps == [] || (AllSound(steps[..|steps| - 1]) && Sound(Run(Start, steps[..|steps| - 1]), steps[|steps| - 1]))
  }

  lemma {:induction false} RunKeeps(steps: seq<Step>)
    requires AllSound(steps)
    ensures Inv(Run(Start, steps))
    decreases |steps|
  {
    if steps != [] {
      RunKeeps(steps[..|steps| - 1]);
      StepKeeps(Run(Start, steps[..|steps| - 1]), steps[|steps| - 1]);
    }
  }

  /** Two ciphertexts on the wire at one ratchet position are one encryption. */
  ghost predicate NoPositionTwice(w: World) {
    forall a, b | 0 <= a < |w.wire| && 0 <= b < |w.wire| ::
      var x, y := w.wire[a].cipher, w.wire[b].cipher;
      x.peer == y.peer && x.position == y.position ==> x == y
  }

  /** The snapshot the store held when a ciphertext was sent was already past its position. */
  ghost predicate DurableFirst(w: World) {
    forall a | 0 <= a < |w.wire| ::
      var s := w.wire[a];
      && 1 <= s.landed <= |w.fence.landed|
      && s.cipher.position < w.fence.landed[s.landed - 1].content.provider.Position(s.cipher.peer)
  }

  lemma InvGivesSafety(w: World)
    requires Inv(w)
    ensures NoPositionTwice(w) && DurableFirst(w)
  {
    forall a | 0 <= a < |w.wire| ensures SentOk(w.fence.landed, w.minted, w.wire[a]) {}
  }

  /**
    Over every run of any number of coordinators on one store, with crashes,
    reopenings and failed, unknown-landed and unknown-lost writes, no ratchet position
    is sent twice and every position sent was durable first, as long as every attaching
    was sound: `UnfrozenAttachIsSound` is what a caller can check.
   */
  lemma NoPositionIsSentTwice(steps: seq<Step>)
    requires AllSound(steps)
    ensures NoPositionTwice(Run(Start, steps)) && DurableFirst(Run(Start, steps))
  {
    RunKeeps(steps);
    InvGivesSafety(Run(Start, steps));
  }
}
