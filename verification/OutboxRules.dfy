/**
  What the operations on the control outbox mean for a handoff, said of recipients,
  payloads and dispositions alone: which handoff an operation is about, what it becomes, and
  that over every run a handoff that was stopped is never sent again.
 */
module OutboxRules {
  import opened Bytes
  import opened Order
  import opened Outbox

  /** Still to be sent. */
  predicate IsLive(h: Handoff) { h.disposition == Prepared || h.disposition == HandedOff }

  /** The handoff of this payload, by its commitment, to this recipient. */
  ghost predicate IsFor(env: Env, h: Handoff, recipient: Member, payload: bytes) {
    h.recipient == recipient && env.commit(h.payload) == env.commit(payload)
  }

  ghost predicate Has(env: Env, xs: seq<Handoff>, recipient: Member, payload: bytes) {
    exists h | h in xs :: IsFor(env, h, recipient, payload)
  }

  /** Held, and only with these bytes. */
  ghost predicate HasExactly(env: Env, xs: seq<Handoff>, recipient: Member, payload: bytes, ciphertext: bytes) {
    && Has(env, xs, recipient, payload)
    && forall h | h in xs && IsFor(env, h, recipient, payload) :: h.payload == payload && h.ciphertext == ciphertext
  }

  lemma FindMeans(env: Env, xs: seq<Handoff>, recipient: Member, payload: bytes)
    ensures var found := Find(env, xs, recipient, payload);
            && (found.Some? <==> Has(env, xs, recipient, payload))
            && (found.Some? ==> found.value < |xs| && IsFor(env, xs[found.value], recipient, payload))
  {
    var found := Find(env, xs, recipient, payload);
    if found.Some? { assert IsFor(env, xs[found.value], recipient, payload); }
    if Has(env, xs, recipient, payload) {
      var h :| h in xs && IsFor(env, h, recipient, payload);
      assert Matches(env, h, recipient, payload);
    }
  }

  // Reclaiming.

  /** Nothing is made up, and nothing live is dropped. */
  lemma {:induction false} ReclaimedRetains(xs: seq<Handoff>, h: Handoff)
    ensures h in Reclaimed(xs) ==> h in xs
    ensures h in xs && IsLive(h) ==> h in Reclaimed(xs)
    decreases |xs|
  {
    if Finished(xs) > MAX_TERMINAL_HANDOFFS {
      var m := OldestTerminal(xs);
      assert xs == xs[..m] + [xs[m]] + xs[m + 1..];
      ReclaimedRetains(Without(xs, m), h);
    }
  }

  lemma {:induction false} LiveSize(xs: seq<Handoff>)
    ensures Live(xs) == |LiveAt(xs)|
    decreases |xs|
  {
    if xs == [] {
      assert LiveAt(xs) == {};
    } else {
      var front, last := xs[..|xs| - 1], |xs| - 1;
      LiveSize(front);
      if IsLive(xs[last]) {
        assert LiveAt(xs) == LiveAt(front) + {last};
      } else {
        assert LiveAt(xs) == LiveAt(front);
      }
    }
  }

  function LiveAt(xs: seq<Handoff>): set<nat> { set i | 0 <= i < |xs| && IsLive(xs[i]) }

  // Recording.

  /** A new handoff is admitted: fewer than eight are live, and the payload is a control. */
  ghost predicate CanAdmit(env: Env, xs: seq<Handoff>, payload: bytes) {
    |LiveAt(xs)| < 8 && env.kind(payload) != Other
  }

  /**
    An exact repeat of what is held for the recipient changes nothing; other bytes under the
    same commitment conflict; a control not held is admitted while there is room, prepared
    and unsent, and whatever was live stays.
   */
  lemma RecordMeans(env: Env, xs: seq<Handoff>, recipient: Member, payload: bytes, ciphertext: bytes)
    ensures var r := AfterRecord(env, xs, recipient, payload, ciphertext);
            && (r == Err(OutboxFull) <==> !Has(env, xs, recipient, payload) && !CanAdmit(env, xs, payload))
            && (r.Err? ==> r == Err(OutboxFull) || r == Err(Conflict))
            && (r == Err(Conflict) ==>
                  exists h | h in xs ::
                    IsFor(env, h, recipient, payload) && (h.payload != payload || h.ciphertext != ciphertext))
            && (HasExactly(env, xs, recipient, payload, ciphertext) ==> r == Ok(xs))
            && (r.Ok? && Has(env, xs, recipient, payload) ==>
                  r.value == xs
                  && exists h | h in xs ::
                       h.recipient == recipient && h.payload == payload && h.ciphertext == ciphertext)
            && (r.Ok? && !Has(env, xs, recipient, payload) ==>
                  Handoff(recipient, payload, ciphertext, 0, Prepared, NextSequence(xs)) in r.value
                  && forall h | h in xs && IsLive(h) :: h in r.value)
  {
    FindMeans(env, xs, recipient, payload);
    LiveSize(xs);
    if !Has(env, xs, recipient, payload) && CanAdmit(env, xs, payload) {
      var h := Handoff(recipient, payload, ciphertext, 0, Prepared, NextSequence(xs));
      var sorted := Sort(xs + [h], Canonical(env));
      forall x | x in xs + [h] && IsLive(x) ensures x in Reclaimed(sorted) {
        SameElements(xs + [h], sorted, x);
        ReclaimedRetains(sorted, x);
      }
      assert h in xs + [h];
    }
  }

  // Reserving and accepting.

  /** Which handoff a reservation is about, and what it becomes: the third send is the last. */
  lemma ReserveMeans(h: Handoff)
    requires h.attempts < 3
    ensures Terminal(h) <==> !IsLive(h)
    ensures Reserved(h) ==
            h.(attempts := h.attempts + 1, disposition := if h.attempts == 2 then ExhaustedUnknown else HandedOff)
  {
  }

  lemma AcceptMeans(h: Handoff)
    ensures Sendable(h) <==> h.disposition == HandedOff || h.disposition == ExhaustedUnknown
    ensures Accepted(h) == h.(disposition := RelayAccepted)
  {
  }

  // Cancelling.

  /** What a cancellation for the recipient makes of a handoff. */
  ghost predicate CancelledFrom(env: Env, recipient: Member, h: Handoff, h': Handoff) {
    if h.recipient == recipient && env.kind(h.payload) != Revocation then
      && h' == h.(disposition := h'.disposition)
      && h'.disposition == (match h.disposition
                            case Prepared => Cancelled
                            case HandedOff => CancelledAfterHandoff
                            case other => other)
    else h' == h
  }

  lemma StoppedMeans(env: Env, recipient: Member, h: Handoff)
    ensures CancelledFrom(env, recipient, h, Stopped(env, recipient, h))
  {
  }

  /**
    After a cancellation nothing to the recipient but revocations is live; every handoff held
    is one held before, cancelled if it was to be; and a live revocation or a live handoff to
    anyone else is held as it was.
   */
  lemma CancelMeans(env: Env, recipient: Member, xs: seq<Handoff>)
    ensures var ys := Reclaimed(AllStopped(env, recipient, xs));
            && (forall h | h in ys && h.recipient == recipient && env.kind(h.payload) != Revocation :: !IsLive(h))
            && (forall h | h in ys :: exists i | 0 <= i < |xs| :: CancelledFrom(env, recipient, xs[i], h))
            && (forall h | h in xs && IsLive(h) && (h.recipient != recipient || env.kind(h.payload) == Revocation) ::
                  h in ys)
  {
    var stopped := AllStopped(env, recipient, xs);
    var ys := Reclaimed(stopped);
    forall h | h in ys
      ensures exists i | 0 <= i < |xs| :: CancelledFrom(env, recipient, xs[i], h)
      ensures h.recipient == recipient && env.kind(h.payload) != Revocation ==> !IsLive(h)
    {
      ReclaimedRetains(stopped, h);
      var i :| 0 <= i < |stopped| && stopped[i] == h;
      StoppedMeans(env, recipient, xs[i]);
      assert CancelledFrom(env, recipient, xs[i], h);
    }
    forall h | h in xs && IsLive(h) && (h.recipient != recipient || env.kind(h.payload) == Revocation) ensures h in ys {
      var i :| 0 <= i < |xs| && xs[i] == h;
      StoppedMeans(env, recipient, xs[i]);
      assert stopped[i] == h;
      ReclaimedRetains(stopped, h);
    }
  }

  // Over runs.

  lemma {:induction false} RunAppend(env: Env, a: seq<Step>, b: seq<Step>)
    ensures Run(env, a + b) == RunFrom(env, Run(env, a), b)
    decreases |b|
  {
    if b == [] {
      assert a + b == a;
    } else {
      assert (a + b)[..|a + b| - 1] == a + b[..|b| - 1];
      RunAppend(env, a, b[..|b| - 1]);
    }
  }

  function RunFrom(env: Env, w: World, steps: seq<Step>): World
    decreases |steps|
  {
    if steps == [] then w else Apply(env, RunFrom(env, w, steps[..|steps| - 1]), steps[|steps| - 1])
  }

  /** Entry `k` is over: not live, and sent as often as `sent` says. */
  ghost predicate Over(w: World, k: nat, sent: seq<bytes>) {
    k < |w.ledger| && !IsLive(w.ledger[k].now) && w.ledger[k].sent == sent
  }

  lemma OverStays(env: Env, w: World, step: Step, k: nat, sent: seq<bytes>)
    requires Inv(env, w) && Over(w, k, sent)
    ensures Over(Apply(env, w, step), k, sent)
  {
    if step.Reserve? || step.Accept? {
      var found := Find(env, w.handoffs, step.recipient, step.payload);
      if found.Some? { FoundInLedger(env, w, found.value); }
    }
  }

  lemma LedgerGrows(env: Env, w: World, step: Step)
    ensures |w.ledger| <= |Apply(env, w, step).ledger|
  {
  }

  lemma {:induction false} OverForGood(env: Env, w: World, more: seq<Step>, k: nat, sent: seq<bytes>)
    requires Inv(env, w) && Over(w, k, sent) && |RunFrom(env, w, more).ledger| <= U64_MAX + 1
    ensures Inv(env, RunFrom(env, w, more)) && Over(RunFrom(env, w, more), k, sent)
    decreases |more|
  {
    if more != [] {
      var front, last := RunFrom(env, w, more[..|more| - 1]), more[|more| - 1];
      LedgerGrows(env, front, last);
      OverForGood(env, w, more[..|more| - 1], k, sent);
      StepKeeps(env, front, last);
      OverStays(env, front, last, k, sent);
    }
  }

  /** A cancellation stops every entry to the recipient that is not a revocation. */
  lemma CancelStops(env: Env, w: World, recipient: Member, k: nat)
    requires k < |w.ledger| && w.ledger[k].now.recipient == recipient && env.kind(w.ledger[k].now.payload) != Revocation
    ensures Over(ApplyCancel(env, w, recipient), k, w.ledger[k].sent)
  {
    StoppedMeans(env, recipient, w.ledger[k].now);
  }

  /**
    Once a member's handoffs are cancelled, none recorded before that is ever sent to them
    again, whatever follows, unless it is a revocation.
   */
  lemma CancelledIsNeverSent(env: Env, steps: seq<Step>, recipient: Member, more: seq<Step>, k: nat)
    requires |Run(env, steps + [Cancel(recipient)] + more).ledger| <= U64_MAX + 1 && k < |Run(env, steps).ledger|
    requires var e := Run(env, steps).ledger[k];
             e.first.recipient == recipient && env.kind(e.first.payload) != Revocation
    ensures var w := Run(env, steps + [Cancel(recipient)] + more);
            k < |w.ledger| && w.ledger[k].sent == Run(env, steps).ledger[k].sent
  {
    var w := Run(env, steps);
    assert (steps + [Cancel(recipient)])[..|steps|] == steps;
    var w1 := Run(env, steps + [Cancel(recipient)]);
    assert w1 == ApplyCancel(env, w, recipient);
    RunAppend(env, steps + [Cancel(recipient)], more);
    ShorterLedger(env, w1, more);
    RunKeeps(env, steps);
    RunKeeps(env, steps + [Cancel(recipient)]);
    assert EntryOk(env, w.ledger[k], k);
    CancelStops(env, w, recipient, k);
    OverForGood(env, w1, more, k, w.ledger[k].sent);
  }

  lemma {:induction false} ShorterLedger(env: Env, w: World, more: seq<Step>)
    ensures |w.ledger| <= |RunFrom(env, w, more).ledger|
    decreases |more|
  {
    if more != [] {
      ShorterLedger(env, w, more[..|more| - 1]);
      LedgerGrows(env, RunFrom(env, w, more[..|more| - 1]), more[|more| - 1]);
    }
  }

  /** The one retained handoff for a recipient and a commitment is found. */
  lemma FoundIsIt(env: Env, w: World, k: nat)
    requires Inv(env, w) && k < |w.ledger| && IsLive(w.ledger[k].now)
    ensures var h := w.ledger[k].now; var found := Find(env, w.handoffs, h.recipient, h.payload);
            found.Some? && found.value < |w.handoffs| && w.handoffs[found.value] == h && h.sequence == k
  {
    var h := w.ledger[k].now;
    assert EntryOk(env, w.ledger[k], k) && Kept(w.handoffs, h, k);
    FindMeans(env, w.handoffs, h.recipient, h.payload);
    assert IsFor(env, h, h.recipient, h.payload);
    var j := Find(env, w.handoffs, h.recipient, h.payload).value;
    var i :| 0 <= i < |w.handoffs| && w.handoffs[i] == h;
    CanonicalIsAnOrder(env);
    assert KeyOf(env, w.handoffs[i]) == KeyOf(env, w.handoffs[j]);
    KeyTotal(KeyOf(env, w.handoffs[i]), KeyOf(env, w.handoffs[j]));
    assert Canonical(env)(w.handoffs[i], w.handoffs[j]) && Canonical(env)(w.handoffs[j], w.handoffs[i]);
  }

  /** A live handoff is sent when it is asked for, with the bytes recorded; the third time is the last. */
  lemma LiveIsSent(env: Env, w: World, k: nat)
    requires Inv(env, w) && k < |w.ledger| && IsLive(w.ledger[k].now)
    ensures var e := w.ledger[k]; var w' := Apply(env, w, Reserve(e.first.recipient, e.first.payload));
            && |w'.ledger| == |w.ledger| && w'.ledger[k].sent == e.sent + [e.first.ciphertext]
            && |e.sent| < 3 && (IsLive(w'.ledger[k].now) <==> |e.sent| < 2)
  {
    FoundIsIt(env, w, k);
    assert EntryOk(env, w.ledger[k], k);
    ReserveMeans(w.ledger[k].now);
  }
}
