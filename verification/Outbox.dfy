/**
  The control outbox: exact-ciphertext roster-control handoffs, at most eight live and
  sixteen finished, against a ledger that never forgets.
 */
module Outbox {
  import opened Bytes
  import opened Order

  const MAX_LIVE_HANDOFFS := 8
  const MAX_TERMINAL_HANDOFFS := 16
  const MAX_ATTEMPTS: u8 := 3
  const MAX_IDENTITY_LEN := 256
  const MAX_DEVICE_LEN := 64

  datatype Member = Member(identity: bytes, device: bytes)

  datatype Disposition = Prepared | HandedOff | RelayAccepted | ExhaustedUnknown | Cancelled | CancelledAfterHandoff

  datatype Handoff = Handoff(
    recipient: Member,
    payload: bytes,
    ciphertext: bytes,
    attempts: u8,
    disposition: Disposition,
    sequence: u64)

  datatype GroupError = Conflict | OutboxFull | Malformed | WrongDisposition | NonCanonical

  datatype Result<+T> = Ok(value: T) | Err(error: GroupError)

  /** What a payload decodes to, as far as the outbox asks. */
  datatype Kind = Roster | Bootstrap | Acceptance | Revocation | Other

  /** The commitment of a payload and what it decodes to. */
  datatype Env = Env(commit: bytes -> bytes, kind: bytes -> Kind)

  predicate Terminal(h: Handoff) { !h.disposition.Prepared? && !h.disposition.HandedOff? }

  function Live(xs: seq<Handoff>): nat { Count(xs, h => !Terminal(h)) }

  function Finished(xs: seq<Handoff>): nat { Count(xs, h => Terminal(h)) }

  // The canonical order.

  type Key = (bytes, bytes, bytes)

  function KeyOf(env: Env, h: Handoff): Key { (env.commit(h.payload), h.recipient.identity, h.recipient.device) }

  predicate KeyLe(a: Key, b: Key) {
    LexLt(a.0, b.0) || (a.0 == b.0 && (LexLt(a.1, b.1) || (a.1 == b.1 && LexLe(a.2, b.2))))
  }

  function Canonical(env: Env): (Handoff, Handoff) -> bool { (a, b) => KeyLe(KeyOf(env, a), KeyOf(env, b)) }

  lemma KeyTotal(a: Key, b: Key)
    ensures KeyLe(a, b) || KeyLe(b, a)
    ensures KeyLe(a, b) && KeyLe(b, a) ==> a == b
  {
    LexTotal(a.0, b.0); LexTotal(a.1, b.1); LexTotal(a.2, b.2);
    if LexLe(a.0, b.0) && LexLe(b.0, a.0) { LexAntisymmetric(a.0, b.0); }
    if LexLe(a.1, b.1) && LexLe(b.1, a.1) { LexAntisymmetric(a.1, b.1); }
    if LexLe(a.2, b.2) && LexLe(b.2, a.2) { LexAntisymmetric(a.2, b.2); }
  }

  lemma LexLtTransitive(a: bytes, b: bytes, c: bytes)
    requires LexLt(a, b) && LexLt(b, c)
    ensures LexLt(a, c)
  {
    LexTransitive(a, b, c);
    if a == c { LexAntisymmetric(a, b); }
  }

  lemma KeyTransitive(a: Key, b: Key, c: Key)
    requires KeyLe(a, b) && KeyLe(b, c)
    ensures KeyLe(a, c)
  {
    if LexLt(a.0, b.0) && LexLt(b.0, c.0) { LexLtTransitive(a.0, b.0, c.0); }
    if LexLt(a.1, b.1) && LexLt(b.1, c.1) { LexLtTransitive(a.1, b.1, c.1); }
    if LexLe(a.2, b.2) && LexLe(b.2, c.2) { LexTransitive(a.2, b.2, c.2); }
  }

  lemma CanonicalIsAnOrder(env: Env)
    ensures TotalPreorder(Canonical(env))
  {
    var le := Canonical(env);
    forall a, b ensures le(a, b) || le(b, a) { KeyTotal(KeyOf(env, a), KeyOf(env, b)); }
    forall a, b, c | le(a, b) && le(b, c) ensures le(a, c)
    {
      KeyTransitive(KeyOf(env, a), KeyOf(env, b), KeyOf(env, c));
    }
  }

  // The operations.

  predicate Matches(env: Env, h: Handoff, recipient: Member, payload: bytes) {
    h.recipient == recipient && env.commit(h.payload) == env.commit(payload)
  }

  /** The first handoff for a recipient and a payload's commitment. */
  function Find(env: Env, xs: seq<Handoff>, recipient: Member, payload: bytes): (r: Option<nat>)
    ensures r.Some? ==> r.value < |xs| && Matches(env, xs[r.value], recipient, payload)
    ensures r.None? ==> forall h | h in xs :: !Matches(env, h, recipient, payload)
  {
    if xs == [] then None
    else if Matches(env, xs[0], recipient, payload) then Some(0)
    else
      var r := Find(env, xs[1..], recipient, payload);
      assert xs == [xs[0]] + xs[1..];
      if r.None? then None else Some(r.value + 1)
  }

  /** The finished handoff allocated first. */
  function OldestTerminal(xs: seq<Handoff>): (k: nat)
    requires Finished(xs) > 0
    ensures k < |xs| && Terminal(xs[k])
    ensures forall i | 0 <= i < |xs| && Terminal(xs[i]) :: xs[k].sequence <= xs[i].sequence
  {
    var front, last := xs[..|xs| - 1], xs[|xs| - 1];
    if Finished(front) == 0 then NoneFinished(front); |xs| - 1
    else
      var k := OldestTerminal(front);
      if Terminal(last) && last.sequence < xs[k].sequence then |xs| - 1 else k
  }

  lemma {:induction false} NoneFinished(xs: seq<Handoff>)
    requires Finished(xs) == 0
    ensures forall i | 0 <= i < |xs| :: !Terminal(xs[i])
  {
    if xs != [] { NoneFinished(xs[..|xs| - 1]); }
  }

  function Reclaimed(xs: seq<Handoff>): seq<Handoff>
    decreases |xs|
  {
    if Finished(xs) <= MAX_TERMINAL_HANDOFFS then xs else Reclaimed(Without(xs, OldestTerminal(xs)))
  }

  function Highest(xs: seq<Handoff>): (s: u64)
    requires xs != []
    ensures (exists i | 0 <= i < |xs| :: xs[i].sequence == s) && forall i | 0 <= i < |xs| :: xs[i].sequence <= s
  {
    var last := xs[|xs| - 1].sequence;
    if |xs| == 1 then last
    else
      var s := Highest(xs[..|xs| - 1]);
      if s > last then s else last
  }

  function NextSequence(xs: seq<Handoff>): u64 {
    if xs == [] then 0 else if Highest(xs) == U64_MAX then U64_MAX else Highest(xs) + 1
  }

  function Fresh(xs: seq<Handoff>, recipient: Member, payload: bytes, ciphertext: bytes): Handoff {
    Handoff(recipient, payload, ciphertext, 0, Prepared, NextSequence(xs))
  }

  /** A new handoff is admitted: room for a live one, and a control payload. */
  predicate Admits(env: Env, xs: seq<Handoff>, payload: bytes) {
    Live(xs) < MAX_LIVE_HANDOFFS && env.kind(payload) != Other
  }

  function AfterRecord(env: Env, xs: seq<Handoff>, recipient: Member, payload: bytes,
        ciphertext: bytes): Result<seq<Handoff>> {
    match Find(env, xs, recipient, payload)
    case Some(i) => if xs[i].payload == payload && xs[i].ciphertext == ciphertext then Ok(xs) else Err(Conflict)
    case None =>
      if !Admits(env, xs, payload) then Err(OutboxFull)
      else Ok(Reclaimed(Sort(xs + [Fresh(xs, recipient, payload, ciphertext)], Canonical(env))))
  }

  /** One more attempt, counted in a byte. */
  function Reserved(h: Handoff): Handoff {
    var attempts := (h.attempts + 1) % 0x100;
    h.(attempts := attempts, disposition := if attempts == MAX_ATTEMPTS then ExhaustedUnknown else HandedOff)
  }

  function Accepted(h: Handoff): Handoff { h.(disposition := RelayAccepted) }

  function Stopped(env: Env, recipient: Member, h: Handoff): Handoff {
    if h.recipient != recipient || env.kind(h.payload) == Revocation then h
    else if h.disposition.Prepared? then h.(disposition := Cancelled)
    else if h.disposition.HandedOff? then h.(disposition := CancelledAfterHandoff)
    else h
  }

  function AllStopped(env: Env, recipient: Member, xs: seq<Handoff>): (r: seq<Handoff>) {
    seq(|xs|, i requires 0 <= i < |xs| => Stopped(env, recipient, xs[i]))
  }

  class Outbox {
    const env: Env
    var handoffs: seq<Handoff>

    constructor (env: Env)
      ensures this.env == env && handoffs == []
    {
      this.env := env;
      handoffs := [];
    }

    method Reclaim()
      modifies this
      ensures handoffs == Reclaimed(old(handoffs))
    {
      while Finished(handoffs) > MAX_TERMINAL_HANDOFFS
        invariant Reclaimed(handoffs) == Reclaimed(old(handoffs))
        decreases |handoffs|
      {
        handoffs := Without(handoffs, OldestTerminal(handoffs));
      }
    }

    method RecordPrepared(recipient: Member, payload: bytes, ciphertext: bytes) returns (r: Result<()>)
      modifies this
      ensures var after := AfterRecord(env, old(handoffs), recipient, payload, ciphertext);
              && (r.Ok? <==> after.Ok?)
              && (r.Ok? ==> handoffs == after.value)
              && (r.Err? ==> r.error == after.error && handoffs == old(handoffs))
    {
      var found := Find(env, handoffs, recipient, payload);
      if found.Some? {
        var existing := handoffs[found.value];
        if existing.payload == payload && existing.ciphertext == ciphertext { return Ok(()); }
        return Err(Conflict);
      }
      if Live(handoffs) >= MAX_LIVE_HANDOFFS || env.kind(payload) == Other { return Err(OutboxFull); }
      var sequence := NextSequence(handoffs);
      handoffs := handoffs + [Handoff(recipient, payload, ciphertext, 0, Prepared, sequence)];
      handoffs := Sort(handoffs, Canonical(env));
      Reclaim();
      return Ok(());
    }

    /** The third reservation is the last: the handoff is already unknown when its bytes are first sent. */
    method Reserve(recipient: Member, payload: bytes) returns (r: Result<Handoff>)
      modifies this
      ensures var found := Find(env, old(handoffs), recipient, payload);
              if found.None? then r == Err(Malformed) && handoffs == old(handoffs)
              else if Terminal(old(handoffs)[found.value]) then r == Err(WrongDisposition) && handoffs == old(handoffs)
              else
                && r == Ok(Reserved(old(handoffs)[found.value]))
                && handoffs == Reclaimed(old(handoffs)[found.value := r.value])
    {
      var found := Find(env, handoffs, recipient, payload);
      if found.None? { return Err(Malformed); }
      var handoff := handoffs[found.value];
      if Terminal(handoff) { return Err(WrongDisposition); }
      handoff := Reserved(handoff);
      handoffs := handoffs[found.value := handoff];
      Reclaim();
      return Ok(handoff);
    }

    method CancelNonRevocationForRecipient(recipient: Member)
      modifies this
      ensures handoffs == Reclaimed(AllStopped(env, recipient, old(handoffs)))
    {
      var i := 0;
      while i < |handoffs|
        invariant i <= |handoffs| == |old(handoffs)|
        invariant forall j | 0 <= j < i :: handoffs[j] == Stopped(env, recipient, old(handoffs)[j])
        invariant forall j | i <= j < |handoffs| :: handoffs[j] == old(handoffs)[j]
      {
        var handoff := handoffs[i];
        if handoff.recipient == recipient && env.kind(handoff.payload) != Revocation {
          var disposition := match handoff.disposition
            case Prepared => Cancelled
            case HandedOff => CancelledAfterHandoff
            case other => other;
          handoffs := handoffs[i := handoff.(disposition := disposition)];
        }
        i := i + 1;
      }
      assert handoffs == AllStopped(env, recipient, old(handoffs));
      Reclaim();
    }

    method Accept(recipient: Member, payload: bytes) returns (r: Result<()>)
      modifies this
      ensures var found := Find(env, old(handoffs), recipient, payload);
              if found.None? then r == Err(Malformed) && handoffs == old(handoffs)
              else if !Sendable(old(handoffs)[found.value]) then r == Err(WrongDisposition) && handoffs == old(handoffs)
              else
                && r == Ok(())
                && handoffs == Reclaimed(old(handoffs)[found.value := Accepted(old(handoffs)[found.value])])
    {
      var found := Find(env, handoffs, recipient, payload);
      if found.None? { return Err(Malformed); }
      var handoff := handoffs[found.value];
      if !handoff.disposition.HandedOff? && !handoff.disposition.ExhaustedUnknown? { return Err(WrongDisposition); }
      handoffs := handoffs[found.value := handoff.(disposition := RelayAccepted)];
      Reclaim();
      return Ok(());
    }
  }

  /** Its bytes may have left and no outcome is known. */
  predicate Sendable(h: Handoff) { h.disposition.HandedOff? || h.disposition.ExhaustedUnknown? }

  /** The attempts a disposition can stand beside. */
  predicate Consistent(h: Handoff) {
    && h.attempts <= MAX_ATTEMPTS
    && (h.disposition.Prepared? || h.disposition.Cancelled? ==> h.attempts == 0)
    && (h.disposition.HandedOff? ==> 0 < h.attempts < MAX_ATTEMPTS)
    && (h.disposition.ExhaustedUnknown? ==> h.attempts == MAX_ATTEMPTS)
    && (h.disposition.CancelledAfterHandoff? ==> 0 < h.attempts)
  }

  // The ledger: every handoff ever recorded, as it was recorded and as it is now, with
  // the ciphertexts its reservations returned and how often it was accepted.

  datatype Entry = Entry(first: Handoff, now: Handoff, sent: seq<bytes>, accepts: nat)

  datatype World = World(handoffs: seq<Handoff>, ledger: seq<Entry>)

  datatype Step =
    | Record(recipient: Member, payload: bytes, ciphertext: bytes)
    | Reserve(recipient: Member, payload: bytes)
    | Cancel(recipient: Member)
    | Accept(recipient: Member, payload: bytes)

  /** Retained handoff `i` becomes what entry `e` says, and the ledger records it. */
  function Changed(w: World, i: nat, e: Entry): World
    requires i < |w.handoffs| && w.handoffs[i].sequence < |w.ledger|
  {
    World(Reclaimed(w.handoffs[i := e.now]), w.ledger[w.handoffs[i].sequence := e])
  }

  function ApplyRecord(env: Env, w: World, recipient: Member, payload: bytes, ciphertext: bytes): World {
    var after := AfterRecord(env, w.handoffs, recipient, payload, ciphertext);
    if Find(env, w.handoffs, recipient, payload).None? && after.Ok? then
      var h := Fresh(w.handoffs, recipient, payload, ciphertext);
      World(after.value, w.ledger + [Entry(h, h, [], 0)])
    else w
  }

  function ReserveAt(w: World, i: nat): World
    requires i < |w.handoffs|
  {
    var h := w.handoffs[i];
    if Terminal(h) || h.sequence >= |w.ledger| then w
    else
      var e := w.ledger[h.sequence];
      Changed(w, i, e.(now := Reserved(h), sent := e.sent + [Reserved(h).ciphertext]))
  }

  function ApplyReserve(env: Env, w: World, recipient: Member, payload: bytes): World {
    var found := Find(env, w.handoffs, recipient, payload);
    if found.None? then w else ReserveAt(w, found.value)
  }

  function ApplyCancel(env: Env, w: World, recipient: Member): World {
    World(Reclaimed(AllStopped(env, recipient, w.handoffs)),
          seq(|w.ledger|, k requires 0 <= k < |w.ledger| =>
            w.ledger[k].(now := Stopped(env, recipient, w.ledger[k].now))))
  }

  function AcceptAt(w: World, i: nat): World
    requires i < |w.handoffs|
  {
    var h := w.handoffs[i];
    if !Sendable(h) || h.sequence >= |w.ledger| then w
    else
      var e := w.ledger[h.sequence];
      Changed(w, i, e.(now := Accepted(h), accepts := e.accepts + 1))
  }

  function ApplyAccept(env: Env, w: World, recipient: Member, payload: bytes): World {
    var found := Find(env, w.handoffs, recipient, payload);
    if found.None? then w else AcceptAt(w, found.value)
  }

  function Apply(env: Env, w: World, step: Step): World {
    match step
    case Record(recipient, payload, ciphertext) => ApplyRecord(env, w, recipient, payload, ciphertext)
    case Reserve(recipient, payload) => ApplyReserve(env, w, recipient, payload)
    case Cancel(recipient) => ApplyCancel(env, w, recipient)
    case Accept(recipient, payload) => ApplyAccept(env, w, recipient, payload)
  }

  function Run(env: Env, steps: seq<Step>): World
    decreases |steps|
  {
    if steps == [] then World([], []) else Apply(env, Run(env, steps[..|steps| - 1]), steps[|steps| - 1])
  }

  // The invariant.

  /** How many finished handoffs were allocated after `k`. */
  function Above(xs: seq<Handoff>, k: nat): nat { Count(xs, h => Terminal(h) && h.sequence > k) }

  /** What the outbox holds is what the ledger says. */
  ghost predicate Mirrors(xs: seq<Handoff>, ledger: seq<Entry>) {
    forall i | 0 <= i < |xs| :: xs[i].sequence < |ledger| && ledger[xs[i].sequence].now == xs[i]
  }

  /** Retained, or finished with sixteen newer finished ones retained. */
  ghost predicate Kept(xs: seq<Handoff>, h: Handoff, k: nat) {
    h in xs || (Terminal(h) && Above(xs, k) >= MAX_TERMINAL_HANDOFFS)
  }

  ghost predicate Accounted(xs: seq<Handoff>, ledger: seq<Entry>) {
    forall k | 0 <= k < |ledger| :: Kept(xs, ledger[k].now, k)
  }

  ghost predicate Agrees(env: Env, xs: seq<Handoff>, ledger: seq<Entry>) {
    Strict(xs, Canonical(env)) && Mirrors(xs, ledger) && Accounted(xs, ledger)
  }

  predicate SameMessage(a: Handoff, b: Handoff) {
    a.recipient == b.recipient && a.payload == b.payload && a.ciphertext == b.ciphertext && a.sequence == b.sequence
  }

  ghost predicate EntryOk(env: Env, e: Entry, k: nat) {
    && SameMessage(e.first, e.now) && e.now.sequence == k
    && Consistent(e.now) && env.kind(e.now.payload) != Other
    && |e.sent| == e.now.attempts && (forall c | c in e.sent :: c == e.first.ciphertext)
    && e.accepts == (if e.now.disposition.RelayAccepted? then 1 else 0)
  }

  ghost predicate LedgerOk(env: Env, ledger: seq<Entry>) {
    forall k | 0 <= k < |ledger| :: EntryOk(env, ledger[k], k)
  }

  ghost predicate Inv(env: Env, w: World) {
    && Agrees(env, w.handoffs, w.ledger) && LedgerOk(env, w.ledger)
    && Live(w.handoffs) <= MAX_LIVE_HANDOFFS && Finished(w.handoffs) <= MAX_TERMINAL_HANDOFFS
  }

  /** A sequence number names at most one retained handoff. */
  lemma SequencesDiffer(env: Env, xs: seq<Handoff>, ledger: seq<Entry>, i: nat, j: nat)
    requires Strict(xs, Canonical(env)) && Mirrors(xs, ledger) && i < |xs| && j < |xs|
             && xs[i].sequence == xs[j].sequence
    ensures i == j
  {
    CanonicalIsAnOrder(env);
    assert xs[i] == xs[j];
    assert Canonical(env)(xs[i], xs[j]);
  }

  lemma {:induction false} AllAbove(xs: seq<Handoff>, k: nat)
    requires forall i | 0 <= i < |xs| && Terminal(xs[i]) :: xs[i].sequence > k
    ensures Above(xs, k) == Finished(xs)
  {
    if xs != [] { AllAbove(xs[..|xs| - 1], k); }
  }

  lemma LeftIsLater(env: Env, xs: seq<Handoff>, ledger: seq<Entry>, j: nat)
    requires Strict(xs, Canonical(env)) && Mirrors(xs, ledger) && Finished(xs) > 0
    requires j < |xs| && j != OldestTerminal(xs) && Terminal(xs[j])
    ensures xs[j].sequence > xs[OldestTerminal(xs)].sequence
  {
    var m := OldestTerminal(xs);
    if xs[j].sequence == xs[m].sequence { SequencesDiffer(env, xs, ledger, j, m); }
  }

  lemma AllLater(xs: seq<Handoff>, m: nat, k: nat)
    requires m < |xs| && forall j | 0 <= j < |xs| && j != m && Terminal(xs[j]) :: xs[j].sequence > k
    ensures Above(Without(xs, m), k) == Finished(Without(xs, m))
  {
    var ys := Without(xs, m);
    forall i | 0 <= i < |ys| && Terminal(ys[i]) ensures ys[i].sequence > k {
      assert ys[i] == xs[if i < m then i else i + 1];
    }
    AllAbove(ys, k);
  }

  /** Everything finished that is left was allocated after `k`, if the one evicted was not before it. */
  lemma LeftAbove(env: Env, xs: seq<Handoff>, ledger: seq<Entry>, k: nat)
    requires Strict(xs, Canonical(env)) && Mirrors(xs, ledger)
    requires Finished(xs) > 0 && xs[OldestTerminal(xs)].sequence >= k
    ensures Above(Without(xs, OldestTerminal(xs)), k) == Finished(Without(xs, OldestTerminal(xs)))
  {
    var m := OldestTerminal(xs);
    forall j | 0 <= j < |xs| && j != m && Terminal(xs[j]) ensures xs[j].sequence > k {
      LeftIsLater(env, xs, ledger, j);
    }
    AllLater(xs, m, k);
  }

  /** The finished handoffs retained after one eviction still number sixteen above whatever is gone. */
  lemma EvictionKeeps(env: Env, xs: seq<Handoff>, ledger: seq<Entry>, k: nat)
    requires Strict(xs, Canonical(env)) && Mirrors(xs, ledger) && Finished(xs) > MAX_TERMINAL_HANDOFFS
    requires k < |ledger| && ledger[k].now.sequence == k && Kept(xs, ledger[k].now, k)
    ensures Kept(Without(xs, OldestTerminal(xs)), ledger[k].now, k)
  {
    var m := OldestTerminal(xs);
    NotGone(xs, m, ledger[k].now);
    CountWithout(xs, m, h => Terminal(h));
    if xs[m].sequence >= k {
      LeftAbove(env, xs, ledger, k);
    } else {
      CountWithout(xs, m, h => Terminal(h) && h.sequence > k);
    }
  }

  lemma NotGone(xs: seq<Handoff>, m: nat, h: Handoff)
    requires m < |xs|
    ensures h in xs ==> h in Without(xs, m) || h == xs[m]
  {
    assert xs == xs[..m] + [xs[m]] + xs[m + 1..];
  }

  lemma WithoutStrict(xs: seq<Handoff>, m: nat, le: (Handoff, Handoff) -> bool)
    requires m < |xs| && Strict(xs, le)
    ensures Strict(Without(xs, m), le)
  {
    var ys := Without(xs, m);
    forall i, j | 0 <= i < j < |ys| ensures !le(ys[j], ys[i]) {
      assert ys[i] == xs[if i < m then i else i + 1] && ys[j] == xs[if j < m then j else j + 1];
    }
  }

  lemma WithoutMirrors(xs: seq<Handoff>, m: nat, ledger: seq<Entry>)
    requires m < |xs| && Mirrors(xs, ledger)
    ensures Mirrors(Without(xs, m), ledger)
  {
    var ys := Without(xs, m);
    forall i | 0 <= i < |ys| ensures ys[i].sequence < |ledger| && ledger[ys[i].sequence].now == ys[i] {
      assert ys[i] == xs[if i < m then i else i + 1];
    }
  }

  /** Reclaiming drops finished handoffs only, down to the bound, and the ledger still accounts for all. */
  lemma {:induction false} ReclaimKeeps(env: Env, xs: seq<Handoff>, ledger: seq<Entry>)
    requires Agrees(env, xs, ledger) && forall k | 0 <= k < |ledger| :: ledger[k].now.sequence == k
    ensures Agrees(env, Reclaimed(xs), ledger)
    ensures Live(Reclaimed(xs)) == Live(xs) && Finished(Reclaimed(xs)) <= MAX_TERMINAL_HANDOFFS
    decreases |xs|
  {
    if Finished(xs) > MAX_TERMINAL_HANDOFFS {
      var m := OldestTerminal(xs);
      var ys := Without(xs, m);
      forall k | 0 <= k < |ledger| ensures Kept(ys, ledger[k].now, k) {
        EvictionKeeps(env, xs, ledger, k);
      }
      WithoutStrict(xs, m, Canonical(env));
      WithoutMirrors(xs, m, ledger);
      CountWithout(xs, m, h => !Terminal(h));
      ReclaimKeeps(env, ys, ledger);
    }
  }

  /** A handoff changes only forward: same message, and finished stays finished. */
  ghost predicate Evolves(h: Handoff, h': Handoff) { SameMessage(h, h') && (Terminal(h) ==> Terminal(h')) }

  ghost predicate AllEvolve(xs: seq<Handoff>, ys: seq<Handoff>) {
    |xs| == |ys| && forall i | 0 <= i < |xs| :: Evolves(xs[i], ys[i])
  }

  /** The ledger follows the outbox: retained entries change with it, the others not at all. */
  ghost predicate Tracks(xs: seq<Handoff>, ledger: seq<Entry>, ys: seq<Handoff>, ledger': seq<Entry>) {
    && |ledger'| == |ledger| && Mirrors(ys, ledger')
    && forall k | 0 <= k < |ledger| :: ledger[k].now in xs || ledger'[k].now == ledger[k].now
  }

  lemma EvolveKept(env: Env, xs: seq<Handoff>, ledger: seq<Entry>, ys: seq<Handoff>, ledger': seq<Entry>, k: nat)
    requires AllEvolve(xs, ys) && Tracks(xs, ledger, ys, ledger') && k < |ledger|
    requires ledger[k].now.sequence == k && Kept(xs, ledger[k].now, k)
    ensures Kept(ys, ledger'[k].now, k)
  {
    if ledger[k].now in xs {
      var i :| 0 <= i < |xs| && xs[i] == ledger[k].now;
      assert Evolves(xs[i], ys[i]);
      assert ledger'[k].now == ys[i];
    } else {
      forall i | 0 <= i < |xs| ensures Terminal(xs[i]) && xs[i].sequence > k ==> Terminal(ys[i]) && ys[i].sequence > k {
        assert Evolves(xs[i], ys[i]);
      }
      CountGrows(xs, ys, h => Terminal(h) && h.sequence > k, h => Terminal(h) && h.sequence > k);
    }
  }

  lemma EvolveStrict(env: Env, xs: seq<Handoff>, ys: seq<Handoff>)
    requires AllEvolve(xs, ys) && Strict(xs, Canonical(env))
    ensures Strict(ys, Canonical(env))
  {
    var le := Canonical(env);
    forall i, j | 0 <= i < j < |ys| ensures !le(ys[j], ys[i]) {
      assert Evolves(xs[i], ys[i]) && Evolves(xs[j], ys[j]);
      assert !le(xs[j], xs[i]);
    }
  }

  lemma EvolveLive(xs: seq<Handoff>, ys: seq<Handoff>)
    requires AllEvolve(xs, ys)
    ensures Live(ys) <= Live(xs)
  {
    forall i | 0 <= i < |xs| ensures !Terminal(ys[i]) ==> !Terminal(xs[i]) { assert Evolves(xs[i], ys[i]); }
    CountGrows(ys, xs, h => !Terminal(h), h => !Terminal(h));
  }

  lemma EvolveKeeps(env: Env, w: World, ys: seq<Handoff>, ledger': seq<Entry>)
    requires Inv(env, w) && AllEvolve(w.handoffs, ys) && Tracks(w.handoffs, w.ledger, ys, ledger')
             && LedgerOk(env, ledger')
    ensures Inv(env, World(Reclaimed(ys), ledger'))
  {
    forall k | 0 <= k < |ledger'| ensures Kept(ys, ledger'[k].now, k) && ledger'[k].now.sequence == k {
      assert EntryOk(env, w.ledger[k], k) && EntryOk(env, ledger'[k], k);
      EvolveKept(env, w.handoffs, w.ledger, ys, ledger', k);
    }
    EvolveStrict(env, w.handoffs, ys);
    EvolveLive(w.handoffs, ys);
    ReclaimKeeps(env, ys, ledger');
  }

  lemma FoundInLedger(env: Env, w: World, i: nat)
    requires Inv(env, w) && i < |w.handoffs|
    ensures var h := w.handoffs[i];
            h.sequence < |w.ledger| && w.ledger[h.sequence].now == h && EntryOk(env, w.ledger[h.sequence], h.sequence)
  {
  }

  /** One retained handoff changes, and its ledger entry with it. */
  lemma OneEvolves(env: Env, w: World, i: nat, e: Entry)
    requires Inv(env, w) && i < |w.handoffs| && Evolves(w.handoffs[i], e.now) && EntryOk(env, e, e.now.sequence)
    ensures w.handoffs[i].sequence < |w.ledger| && Inv(env, Changed(w, i, e))
  {
    var xs, s := w.handoffs, w.handoffs[i].sequence;
    assert xs[i].sequence < |w.ledger| && w.ledger[s].now == xs[i];
    var ys, ledger' := xs[i := e.now], w.ledger[s := e];
    forall j | 0 <= j < |ys| ensures ys[j].sequence < |ledger'| && ledger'[ys[j].sequence].now == ys[j] {
      if j != i && xs[j].sequence == s { SequencesDiffer(env, xs, w.ledger, i, j); }
    }
    forall k | 0 <= k < |ledger'| ensures EntryOk(env, ledger'[k], k) { assert EntryOk(env, w.ledger[k], k); }
    EvolveKeeps(env, w, ys, ledger');
  }

  lemma ReservedEntry(env: Env, e: Entry, k: nat)
    requires EntryOk(env, e, k) && !Terminal(e.now)
    ensures var e' := e.(now := Reserved(e.now), sent := e.sent + [Reserved(e.now).ciphertext]);
            EntryOk(env, e', k) && Evolves(e.now, e'.now)
  {
  }

  lemma AcceptedEntry(env: Env, e: Entry, k: nat)
    requires EntryOk(env, e, k) && Sendable(e.now)
    ensures var e' := e.(now := Accepted(e.now), accepts := e.accepts + 1);
            EntryOk(env, e', k) && Evolves(e.now, e'.now)
  {
  }

  lemma ReservedKeeps(env: Env, w: World, i: nat)
    requires Inv(env, w) && i < |w.handoffs|
    ensures Inv(env, ReserveAt(w, i))
  {
    FoundInLedger(env, w, i);
    var e := w.ledger[w.handoffs[i].sequence];
    if !Terminal(e.now) {
      ReservedEntry(env, e, e.now.sequence);
      var e' := e.(now := Reserved(e.now), sent := e.sent + [Reserved(e.now).ciphertext]);
      assert ReserveAt(w, i) == Changed(w, i, e');
      OneEvolves(env, w, i, e');
    }
  }

  lemma AcceptedKeeps(env: Env, w: World, i: nat)
    requires Inv(env, w) && i < |w.handoffs|
    ensures Inv(env, AcceptAt(w, i))
  {
    FoundInLedger(env, w, i);
    var e := w.ledger[w.handoffs[i].sequence];
    if Sendable(e.now) {
      AcceptedEntry(env, e, e.now.sequence);
      var e' := e.(now := Accepted(e.now), accepts := e.accepts + 1);
      assert AcceptAt(w, i) == Changed(w, i, e');
      OneEvolves(env, w, i, e');
    }
  }

  lemma CancelKeeps(env: Env, w: World, recipient: Member)
    requires Inv(env, w)
    ensures Inv(env, ApplyCancel(env, w, recipient))
  {
    var ys := AllStopped(env, recipient, w.handoffs);
    var ledger' := seq(|w.ledger|, k requires 0 <= k < |w.ledger| =>
      w.ledger[k].(now := Stopped(env, recipient, w.ledger[k].now)));
    forall i | 0 <= i < |ys| ensures Evolves(w.handoffs[i], ys[i]) && ys[i].sequence < |ledger'|
      && ledger'[ys[i].sequence].now == ys[i] {
      assert ys[i] == Stopped(env, recipient, w.handoffs[i]);
    }
    forall k | 0 <= k < |ledger'|
      ensures EntryOk(env, ledger'[k], k) && (w.ledger[k].now in w.handoffs || ledger'[k].now == w.ledger[k].now)
    {
      assert EntryOk(env, w.ledger[k], k) && Kept(w.handoffs, w.ledger[k].now, k);
    }
    EvolveKeeps(env, w, ys, ledger');
  }

  // Recording.

  /** The newest handoff of all is always retained, so the next number is the next ledger index. */
  lemma NextIsNew(env: Env, w: World)
    requires Inv(env, w) && |w.ledger| <= U64_MAX
    ensures NextSequence(w.handoffs) == |w.ledger|
  {
    var xs := w.handoffs;
    if w.ledger != [] {
      var k := |w.ledger| - 1;
      assert Kept(xs, w.ledger[k].now, k) && EntryOk(env, w.ledger[k], k);
      if w.ledger[k].now !in xs {
        NothingAbove(xs, k);
        assert false;
      }
    }
  }

  lemma {:induction false} NothingAbove(xs: seq<Handoff>, k: nat)
    requires forall i | 0 <= i < |xs| :: xs[i].sequence <= k
    ensures Above(xs, k) == 0
  {
    if xs != [] { NothingAbove(xs[..|xs| - 1], k); }
  }

  lemma SortsIn(env: Env, xs: seq<Handoff>, h: Handoff)
    requires Strict(xs, Canonical(env)) && forall x | x in xs :: !Matches(env, x, h.recipient, h.payload)
    ensures Sort(xs + [h], Canonical(env)) == Insert(xs, h, Canonical(env))
    ensures Strict(Insert(xs, h, Canonical(env)), Canonical(env))
  {
    var le := Canonical(env);
    CanonicalIsAnOrder(env);
    StrictIsSorted(xs, le);
    SortOfSorted(xs, le);
    assert (xs + [h])[..|xs|] == xs;
    forall y | y in xs ensures !(le(h, y) && le(y, h)) {
      KeyTotal(KeyOf(env, h), KeyOf(env, y));
    }
    InsertStrict(xs, h, le);
  }

  lemma InsertedElements(xs: seq<Handoff>, h: Handoff, le: (Handoff, Handoff) -> bool, x: Handoff)
    ensures x in Insert(xs, h, le) <==> x in xs || x == h
  {
    assert x in multiset(Insert(xs, h, le)) <==> x in multiset(xs) + multiset{h};
  }

  lemma InsertAgrees(env: Env, w: World, h: Handoff, e: Entry)
    requires Inv(env, w) && h.sequence == |w.ledger| && e.now == h && !Terminal(h)
    requires Strict(Insert(w.handoffs, h, Canonical(env)), Canonical(env))
    ensures Agrees(env, Insert(w.handoffs, h, Canonical(env)), w.ledger + [e])
  {
    var xs, ys, ledger' := w.handoffs, Insert(w.handoffs, h, Canonical(env)), w.ledger + [e];
    forall i | 0 <= i < |ys| ensures ys[i].sequence < |ledger'| && ledger'[ys[i].sequence].now == ys[i] {
      InsertedElements(xs, h, Canonical(env), ys[i]);
      if ys[i] != h { var j :| 0 <= j < |xs| && xs[j] == ys[i]; }
    }
    forall k | 0 <= k < |ledger'| ensures Kept(ys, ledger'[k].now, k) {
      InsertedElements(xs, h, Canonical(env), ledger'[k].now);
      CountInsert(xs, h, Canonical(env), x => Terminal(x) && x.sequence > k);
      if k < |w.ledger| { assert Kept(xs, w.ledger[k].now, k); }
    }
  }

  lemma NewEntryKeeps(env: Env, w: World, h: Handoff)
    requires Inv(env, w) && h.sequence == |w.ledger| && h.disposition.Prepared? && h.attempts == 0
    requires env.kind(h.payload) != Other && Live(w.handoffs) < MAX_LIVE_HANDOFFS
    requires Strict(Insert(w.handoffs, h, Canonical(env)), Canonical(env))
    ensures Inv(env, World(Reclaimed(Insert(w.handoffs, h, Canonical(env))), w.ledger + [Entry(h, h, [], 0)]))
  {
    var e := Entry(h, h, [], 0);
    var ledger' := w.ledger + [e];
    InsertAgrees(env, w, h, e);
    CountInsert(w.handoffs, h, Canonical(env), x => !Terminal(x));
    forall k | 0 <= k < |ledger'| ensures EntryOk(env, ledger'[k], k) && ledger'[k].now.sequence == k {
      if k < |w.ledger| { assert EntryOk(env, w.ledger[k], k); }
    }
    ReclaimKeeps(env, Insert(w.handoffs, h, Canonical(env)), ledger');
  }

  lemma RecordKeeps(env: Env, w: World, recipient: Member, payload: bytes, ciphertext: bytes)
    requires Inv(env, w) && |ApplyRecord(env, w, recipient, payload, ciphertext).ledger| <= U64_MAX + 1
    ensures Inv(env, ApplyRecord(env, w, recipient, payload, ciphertext))
  {
    if Find(env, w.handoffs, recipient, payload).None? && Admits(env, w.handoffs, payload) {
      var h := Fresh(w.handoffs, recipient, payload, ciphertext);
      NextIsNew(env, w);
      SortsIn(env, w.handoffs, h);
      NewEntryKeeps(env, w, h);
    }
  }

  lemma StepKeeps(env: Env, w: World, step: Step)
    requires Inv(env, w) && |Apply(env, w, step).ledger| <= U64_MAX + 1
    ensures Inv(env, Apply(env, w, step))
  {
    match step
    case Record(recipient, payload, ciphertext) => RecordKeeps(env, w, recipient, payload, ciphertext);
    case Reserve(recipient, payload) =>
      var found := Find(env, w.handoffs, recipient, payload);
      if found.Some? { ReservedKeeps(env, w, found.value); }
    case Cancel(recipient) => CancelKeeps(env, w, recipient);
    case Accept(recipient, payload) =>
      var found := Find(env, w.handoffs, recipient, payload);
      if found.Some? { AcceptedKeeps(env, w, found.value); }
  }

  /** Every run of at most 2^64 records. */
  lemma {:induction false} RunKeeps(env: Env, steps: seq<Step>)
    requires |Run(env, steps).ledger| <= U64_MAX + 1
    ensures Inv(env, Run(env, steps))
    decreases |steps|
  {
    if steps != [] {
      var w := Run(env, steps[..|steps| - 1]);
      assert |w.ledger| <= |Apply(env, w, steps[|steps| - 1]).ledger|;
      RunKeeps(env, steps[..|steps| - 1]);
      StepKeeps(env, w, steps[|steps| - 1]);
    }
  }

  // The main results.

  /** The numbers of the finished handoffs allocated after `k`, in the ledger and in the outbox. */
  ghost function LaterFinished(ledger: seq<Entry>, k: nat): set<nat> {
    set j | k < j < |ledger| && Terminal(ledger[j].now)
  }

  ghost function LaterRetained(xs: seq<Handoff>, k: nat): set<nat> {
    set i | 0 <= i < |xs| && Terminal(xs[i]) && xs[i].sequence > k :: xs[i].sequence
  }

  lemma {:induction false} AboveIsSize(xs: seq<Handoff>, k: nat)
    requires forall i, j | 0 <= i < j < |xs| :: xs[i].sequence != xs[j].sequence
    ensures |LaterRetained(xs, k)| == Above(xs, k)
  {
    if xs != [] {
      var front, last := xs[..|xs| - 1], xs[|xs| - 1];
      AboveIsSize(front, k);
      if Terminal(last) && last.sequence > k {
        assert LaterRetained(xs, k) == LaterRetained(front, k) + {last.sequence};
      } else {
        assert LaterRetained(xs, k) == LaterRetained(front, k);
      }
    } else {
      assert LaterRetained(xs, k) == {};
    }
  }

  lemma SmallerSet(a: set<nat>, b: set<nat>)
    requires a <= b
    ensures |a| <= |b|
  {
    assert b == a + (b - a);
  }

  lemma RetainedSize(env: Env, w: World, k: nat)
    requires Inv(env, w)
    ensures |LaterRetained(w.handoffs, k)| == Above(w.handoffs, k) <= |LaterFinished(w.ledger, k)|
  {
    forall i, j | 0 <= i < j < |w.handoffs| ensures w.handoffs[i].sequence != w.handoffs[j].sequence {
      if w.handoffs[i].sequence == w.handoffs[j].sequence { SequencesDiffer(env, w.handoffs, w.ledger, i, j); }
    }
    AboveIsSize(w.handoffs, k);
    SmallerSet(LaterRetained(w.handoffs, k), LaterFinished(w.ledger, k));
  }

  /** A retained finished handoff and those above it are within the bound. */
  lemma {:induction false} AboveAndItself(xs: seq<Handoff>, i: nat, k: nat)
    requires i < |xs| && Terminal(xs[i]) && xs[i].sequence <= k
    ensures Above(xs, k) < Finished(xs)
  {
    CountWithout(xs, i, h => Terminal(h));
    CountWithout(xs, i, h => Terminal(h) && h.sequence > k);
    var ys := Without(xs, i);
    CountGrows(ys, ys, h => Terminal(h) && h.sequence > k, h => Terminal(h));
  }

  /** A retained finished handoff has fewer than sixteen finished after it in the whole ledger. */
  lemma RetainedIsRecent(env: Env, w: World, i: nat)
    requires Inv(env, w) && i < |w.handoffs| && Terminal(w.handoffs[i])
    ensures |LaterFinished(w.ledger, w.handoffs[i].sequence)| < MAX_TERMINAL_HANDOFFS
  {
    var xs, k := w.handoffs, w.handoffs[i].sequence;
    forall j | j in LaterFinished(w.ledger, k) ensures j in LaterRetained(xs, k) {
      assert Kept(xs, w.ledger[j].now, j) && EntryOk(env, w.ledger[j], j);
      if w.ledger[j].now !in xs {
        AboveAndItself(xs, i, j);
        assert false;
      }
    }
    RetainedSize(env, w, k);
    SmallerSet(LaterFinished(w.ledger, k), LaterRetained(xs, k));
    AboveAndItself(xs, i, k);
  }

  /** The outbox is the ledger's live handoffs, at most eight, and its sixteen newest finished ones. */
  ghost predicate LiveAndNewest(w: World) {
    && (forall h | h in w.handoffs :: h.sequence < |w.ledger| && w.ledger[h.sequence].now == h)
    && (forall k | 0 <= k < |w.ledger| ::
          w.ledger[k].now in w.handoffs <==>
          !Terminal(w.ledger[k].now) || |LaterFinished(w.ledger, k)| < 16)
    && Live(w.handoffs) <= 8
  }

  lemma InvRetains(env: Env, w: World)
    requires Inv(env, w)
    ensures LiveAndNewest(w)
  {
    forall k | 0 <= k < |w.ledger|
      ensures w.ledger[k].now in w.handoffs <==>
              !Terminal(w.ledger[k].now) || |LaterFinished(w.ledger, k)| < MAX_TERMINAL_HANDOFFS
    {
      assert Kept(w.handoffs, w.ledger[k].now, k) && EntryOk(env, w.ledger[k], k);
      RetainedSize(env, w, k);
      if w.ledger[k].now in w.handoffs && Terminal(w.ledger[k].now) {
        var i :| 0 <= i < |w.handoffs| && w.handoffs[i] == w.ledger[k].now;
        RetainedIsRecent(env, w, i);
      }
    }
  }

  /** Each handoff: its number is its place in the ledger, at most three sends of the first bytes, at most one
      acceptance. */
  ghost predicate SentAsRecorded(ledger: seq<Entry>) {
    forall k | 0 <= k < |ledger| ::
      var e := ledger[k];
      && e.first.sequence == k && SameMessage(e.first, e.now)
      && |e.sent| <= 3 && (forall c | c in e.sent :: c == e.first.ciphertext)
      && e.accepts <= 1
  }

  /**
    Over every run: the outbox holds exactly the live handoffs and the sixteen newest
    finished ones of everything ever recorded, no number is given twice, and each
    handoff is sent at most three times, always with the bytes first recorded, and
    accepted at most once.
   */
  lemma EveryRunAgreesWithTheLedger(env: Env, steps: seq<Step>)
    requires |Run(env, steps).ledger| <= U64_MAX + 1
    ensures LiveAndNewest(Run(env, steps)) && SentAsRecorded(Run(env, steps).ledger)
  {
    RunKeeps(env, steps);
    InvRetains(env, Run(env, steps));
    var ledger := Run(env, steps).ledger;
    forall k | 0 <= k < |ledger| ensures EntryOk(env, ledger[k], k) {}
  }
}
