/**
  Delivery of group events to the caller: the bounded inbox, the delivery cursor, what a
  receive offers or reports lost, and what it acknowledges at the relay, over runs with
  crashes, failed and unknown commits, and partial batches.

  A step here is one commit, one fetch item or one network exchange of the source. Event
  ids are counted without a bound.
 */
module Delivery {
  import opened Bytes
  import opened Order

  const MAX_INBOX_RECORDS := 64
  const MAX_RECEIVE_ITEMS := 32

  /** A commit records the item it is for, or the at most four receives a roster let through. */
  const MAX_DEFERRED := 4

  /** One receive record: an accepted event, with or without its context, or anything else. */
  datatype Record = Event(id: nat, kept: bool) | Other

  /** What the snapshot holds of this: the inbox, the cursor and how many events were issued. */
  datatype Snap = Snap(inbox: seq<Record>, cursor: nat, issued: nat)

  // The routines on the inbox.

  function Bounded(xs: seq<Record>): seq<Record> {
    if |xs| <= MAX_INBOX_RECORDS then xs else xs[|xs| - MAX_INBOX_RECORDS..]
  }

  /** The new record is kept and comes last; the oldest go, and only when there are too many. */
  method PushBounded(xs: seq<Record>, r: Record) returns (ys: seq<Record>)
    ensures 0 < |ys| <= MAX_INBOX_RECORDS && ys[|ys| - 1] == r
    ensures exists n | 0 <= n <= |xs| :: ys == xs[n..] + [r] && (n > 0 ==> |ys| == MAX_INBOX_RECORDS)
    ensures ys == Bounded(xs + [r])
  {
    ys := xs + [r];
    if |ys| > MAX_INBOX_RECORDS {
      assert ys[|ys| - MAX_INBOX_RECORDS..] == xs[|ys| - MAX_INBOX_RECORDS..] + [r];
      ys := ys[|ys| - MAX_INBOX_RECORDS..];
    } else {
      assert ys == xs[0..] + [r];
    }
  }

  /** Pushing one at a time keeps the newest, however many are pushed. */
  lemma BoundedTwice(xs: seq<Record>, ys: seq<Record>)
    ensures Bounded(Bounded(xs) + ys) == Bounded(xs + ys)
  {
    var k := |xs| - MAX_INBOX_RECORDS;
    if k > 0 { assert (xs + ys)[k..] == xs[k..] + ys; }
  }

  predicate Offers(s: Snap, r: Record) { r.Event? && r.kept && r.id >= s.cursor }

  /** The ids of the events the snapshot can still offer. */
  function Undelivered(s: Snap): set<nat> { set i | 0 <= i < |s.inbox| && Offers(s, s.inbox[i]) :: s.inbox[i].id }

  /** An event is offered exactly when the inbox keeps its context and the cursor has not passed it. */
  method UndeliveredEvents(s: Snap) returns (ids: seq<nat>)
    ensures Strict(ids, (a: nat, b: nat) => a <= b)
    ensures forall id: nat :: id in ids <==> Event(id, true) in s.inbox && s.cursor <= id
  {
    ids := [];
    for i := 0 to |s.inbox|
      invariant NoRepeats(ids)
      invariant forall id :: id in ids <==> exists j | 0 <= j < i :: Offers(s, s.inbox[j]) && s.inbox[j].id == id
    {
      var r := s.inbox[i];
      if Offers(s, r) && r.id !in ids { ids := ids + [r.id]; }
    }
    var unsorted := ids;
    ids := Sort(ids, (a: nat, b: nat) => a <= b);
    SortStrict(unsorted, (a: nat, b: nat) => a <= b);
    forall id: nat ensures id in ids <==> Event(id, true) in s.inbox && s.cursor <= id {
      assert id in multiset(ids) <==> id in multiset(unsorted);
      if id in unsorted {
        var j :| 0 <= j < |s.inbox| && Offers(s, s.inbox[j]) && s.inbox[j].id == id;
        assert s.inbox[j] == Event(id, true);
      }
      if Event(id, true) in s.inbox && s.cursor <= id {
        var j :| 0 <= j < |s.inbox| && s.inbox[j] == Event(id, true);
        assert Offers(s, s.inbox[j]);
      }
    }
  }

  /** A delivered event loses its context. */
  function Scrub(r: Record, cursor: nat): Record { if r.Event? && r.id < cursor then r.(kept := false) else r }

  function Advanced(s: Snap, cursor: nat): Snap {
    Snap(seq(|s.inbox|, i requires 0 <= i < |s.inbox| => Scrub(s.inbox[i], cursor)), cursor, s.issued)
  }

  /** The context of an event goes exactly when the cursor passes it; nothing else of the inbox changes. */
  method AdvanceCursor(s: Snap, cursor: nat) returns (r: Snap)
    ensures r.cursor == cursor && r.issued == s.issued && |r.inbox| == |s.inbox|
    ensures forall id: nat :: Event(id, true) in r.inbox <==> Event(id, true) in s.inbox && cursor <= id
    ensures forall i | 0 <= i < |s.inbox| ::
              || r.inbox[i] == s.inbox[i]
              || exists id: nat :: s.inbox[i] == Event(id, true) && r.inbox[i] == Event(id, false)
    ensures r == Advanced(s, cursor)
  {
    var inbox := s.inbox;
    for i := 0 to |inbox|
      invariant |inbox| == |s.inbox|
      invariant forall j | 0 <= j < i :: inbox[j] == Scrub(s.inbox[j], cursor)
      invariant forall j | i <= j < |inbox| :: inbox[j] == s.inbox[j]
    {
      var record := inbox[i];
      if record.Event? && record.id < cursor && record.kept { inbox := inbox[i := record.(kept := false)]; }
    }
    r := Snap(inbox, cursor, s.issued);
    assert r.inbox == Advanced(s, cursor).inbox;
    AdvancedKeeps(s, cursor);
  }

  lemma AdvancedKeeps(s: Snap, cursor: nat)
    ensures forall id: nat ::
              Event(id, true) in Advanced(s, cursor).inbox <==> Event(id, true) in s.inbox && cursor <= id
  {
    var r := Advanced(s, cursor);
    assert forall i | 0 <= i < |s.inbox| :: r.inbox[i] == Scrub(s.inbox[i], cursor);
    forall id: nat | Event(id, true) in s.inbox && cursor <= id ensures Event(id, true) in r.inbox {
      var i :| 0 <= i < |s.inbox| && s.inbox[i] == Event(id, true);
      assert r.inbox[i] == Event(id, true);
    }
  }

  /** The records of one commit: `true` is an accepted event, which takes the next id. */
  function RecordsFrom(kinds: seq<bool>, next: nat): seq<Record> {
    if kinds == [] then []
    else if kinds[0] then [Event(next, true)] + RecordsFrom(kinds[1..], next + 1)
    else [Other] + RecordsFrom(kinds[1..], next)
  }

  function Accepted(kinds: seq<bool>): nat {
    if kinds == [] then 0 else (if kinds[0] then 1 else 0) + Accepted(kinds[1..])
  }

  function Committed(s: Snap, kinds: seq<bool>): Snap {
    Snap(Bounded(s.inbox + RecordsFrom(kinds, s.issued)), s.cursor, s.issued + Accepted(kinds))
  }

  // The machine.

  datatype Stop = Going | Froze | Failed

  /**
    A receive under way: where its fetch starts, the events it offers, the ones it will
    report lost, how many events were issued when it began as far as it can tell, up to
    which id new events are in its answer, and how many items it has settled.
   */
  datatype Call = Call(from: nat, offered: set<nat>, missing: set<nat>, lost: nat, issuedBefore: nat, done: nat,
    processed: nat, stop: Stop)

  datatype Client = Client(mem: Snap, handedOver: nat, frozen: bool, attached: bool, call: Option<Call>)

  /** `handed` is every id some completed receive offered or reported lost. */
  datatype World = World(disk: Snap, client: Option<Client>, handed: set<nat>, acked: nat, settled: set<nat>)

  const Start := World(Snap([], 0, 0), None, {}, 0, {})

  /** A commit that succeeds, or one that does not and may still have landed. */
  datatype Write = Written | Unwritten(landed: bool)

  datatype Step =
    | Open
    | Crash
    | Attach
    | Recover
    | Acknowledge(write: Write)
    | Commit(kinds: seq<bool>, write: Write)      // outside a receive
    | BeginReceive
    | ItemCommit(kinds: seq<bool>, write: Write)
    | ItemDone
    | ItemFailed
    | AckRelay
    | EndReceive
    | AbortReceive

  /** One more than the highest id, or zero. */
  ghost function Beyond(ids: set<nat>): (n: nat)
    ensures (forall id | id in ids :: id < n) && (ids != {} ==> n > 0 && n - 1 in ids)
  {
    if ids == {} then 0
    else
      var x :| x in ids;
      assert forall id | id in ids :: id == x || id in ids - {x};
      Max(x + 1, Beyond(ids - {x}))
  }

  function Max(a: nat, b: nat): nat { if a > b then a else b }

  function Between(a: nat, b: nat): (ids: set<nat>)
    ensures (forall id :: id in ids <==> a <= id < b) && |ids| == Minus(b, a)
  {
    var ids := set id: nat | id < b && AtLeast(id, a);
    BetweenCounts(a, b, ids);
    ids
  }

  predicate AtLeast(id: nat, a: nat) { a <= id }

  lemma {:induction false} BetweenCounts(a: nat, b: nat, ids: set<nat>)
    requires forall id: nat :: id in ids <==> a <= id < b
    ensures |ids| == Minus(b, a)
    decreases b
  {
    if a < b {
      BetweenCounts(a, b - 1, ids - {b - 1});
    } else {
      assert ids == {};
    }
  }

  function Minus(a: nat, b: nat): nat { if a > b then a - b else 0 }

  function Begun(c: Client, from: nat): Call {
    var undelivered := Undelivered(c.mem);
    var issued := if c.attached then c.mem.issued else 0;
    Call(from, undelivered, Between(c.mem.cursor, issued) - undelivered,
         Minus(Minus(issued, c.mem.cursor), |undelivered|), issued, c.mem.issued, 0, Going)
  }

  /** The client publishes a candidate: it continues on it, or freezes where it was. */
  function Publish(w: World, c: Client, candidate: Snap, write: Write): World {
    match write
    case Written => w.(disk := candidate, client := Some(c.(mem := candidate)))
    case Unwritten(landed) => w.(disk := if landed then candidate else w.disk, client := Some(c.(frozen := true)))
  }

  predicate Idle(w: World) { w.client.Some? && !w.client.value.frozen && w.client.value.call.None? }

  predicate Receiving(w: World) { w.client.Some? && w.client.value.call.Some? && w.client.value.call.value.stop.Going? }

  /** What one commit can record: few enough, and events only with a receiver attached. */
  predicate Recordable(c: Client, kinds: seq<bool>) { |kinds| <= MAX_DEFERRED && (true in kinds ==> c.attached) }

  function ApplyItemCommit(w: World, kinds: seq<bool>, write: Write): World {
    if !Receiving(w) || !Recordable(w.client.value, kinds)
      || w.client.value.call.value.processed == MAX_RECEIVE_ITEMS then w
    else
      var c := w.client.value;
      var c' := if write.Written? then c else c.(call := Some(c.call.value.(stop := Froze)));
      Publish(w, c', Committed(c.mem, kinds), write)
  }

  /** An item is settled, and the events issued since the last one join the answer. */
  function Settle(w: World, c: Client, call: Call, since: set<nat>): World {
    var call' := call.(offered := call.offered + since, done := c.mem.issued, processed := call.processed + 1);
    w.(client := Some(c.(call := Some(call'))), settled := w.settled + {call.from + call.processed})
  }

  function ApplyItemDone(w: World): World {
    if !Receiving(w) || w.client.value.call.value.processed == MAX_RECEIVE_ITEMS then w
    else
      var c, call := w.client.value, w.client.value.call.value;
      Settle(w, c, call, Between(call.done, c.mem.issued))
  }

  ghost function ApplyEnd(w: World): World {
    if w.client.None? || w.client.value.call.None?
      || (w.client.value.call.value.stop.Failed? && w.client.value.call.value.processed == 0) then w
    else
      var c, call := w.client.value, w.client.value.call.value;
      var reached := Max(c.handedOver, Beyond(call.offered));
      var reached' := if call.lost > 0 then Max(reached, call.issuedBefore) else reached;
      w.(client := Some(c.(handedOver := reached', call := None)),
         handed := w.handed + call.offered + if call.lost > 0 then call.missing else {})
  }

  ghost function Apply(w: World, step: Step): World {
    match step
    case Open => if w.client.Some? then w else w.(client := Some(Client(w.disk, 0, false, false, None)))
    case Crash => w.(client := None)
    case Attach => if !Idle(w) then w else w.(client := Some(w.client.value.(attached := true)))
    case Recover =>
      if w.client.None? || w.client.value.call.Some? then w
        else w.(client := Some(w.client.value.(mem := w.disk, frozen := false)))
    case Acknowledge(write) =>
      if !Idle(w) || w.client.value.handedOver <= w.client.value.mem.cursor then w
      else Publish(w, w.client.value, Advanced(w.client.value.mem, w.client.value.handedOver), write)
    case Commit(kinds, write) =>
      if !Idle(w) || !Recordable(w.client.value, kinds) then w
      else Publish(w, w.client.value, Committed(w.client.value.mem, kinds), write)
    case BeginReceive =>
      if !Idle(w) || w.client.value.handedOver > w.client.value.mem.cursor then w
      else w.(client := Some(w.client.value.(call := Some(Begun(w.client.value, w.acked)))))
    case ItemCommit(kinds, write) => ApplyItemCommit(w, kinds, write)
    case ItemDone => ApplyItemDone(w)
    case ItemFailed =>
      if !Receiving(w) then w
      else w.(client := Some(w.client.value.(frozen := true, call := Some(w.client.value.call.value.(stop := Failed)))))
    case AckRelay =>
      if w.client.None? || w.client.value.call.None? then w
      else w.(acked := Max(w.acked, w.client.value.call.value.from + w.client.value.call.value.processed))
    case EndReceive => ApplyEnd(w)
    case AbortReceive => if w.client.None? then w else w.(client := Some(w.client.value.(call := None)))
  }

  ghost function Run(steps: seq<Step>): World
    decreases |steps|
  {
    if steps == [] then Start else Apply(Run(steps[..|steps| - 1]), steps[|steps| - 1])
  }

  // What holds in every run.

  ghost predicate DistinctIds(xs: seq<Record>) {
    forall i, j | 0 <= i < j < |xs| && xs[i].Event? && xs[j].Event? :: xs[i].id != xs[j].id
  }

  /** Ids are below what was issued, each in one record, and the cursor has not passed what was issued. */
  ghost predicate SnapOk(s: Snap) {
    && (forall i | 0 <= i < |s.inbox| && s.inbox[i].Event? :: s.inbox[i].id < s.issued)
    && DistinctIds(s.inbox) && s.cursor <= s.issued
  }

  ghost predicate AllIn(a: nat, b: nat, ids: set<nat>) { forall id | a <= id < b :: id in ids }

  ghost predicate Covered(n: nat, ids: set<nat>) { AllIn(0, n, ids) }

  /** Up to where a call's answer, with what was handed over before, leaves no gap. */
  ghost function Reach(c: Client): nat
    requires c.call.Some?
  {
    if c.attached then c.call.value.done else Beyond(c.call.value.offered)
  }

  ghost predicate CallOk(w: World, c: Client)
    requires c.call.Some?
  {
    var call := c.call.value;
    && call.lost == |call.missing| && call.issuedBefore <= Reach(c) && call.done <= c.mem.issued
    && Beyond(call.offered) <= Reach(c) && Beyond(call.offered) <= call.done
    && Covered(Reach(c), w.handed + call.offered + call.missing)
    && (!c.attached ==> call.done == c.mem.issued)
    && AllIn(call.from, call.from + call.processed, w.settled) && call.from <= w.acked
    && (call.stop.Going? <==> !c.frozen)
  }

  ghost predicate ClientOk(w: World, c: Client) {
    && SnapOk(c.mem) && Covered(c.mem.cursor, w.handed) && Covered(c.handedOver, w.handed)
    && c.handedOver <= c.mem.issued <= w.disk.issued
    && (!c.frozen ==> c.mem == w.disk)
    && (c.call.Some? ==> CallOk(w, c))
  }

  ghost predicate Inv(w: World) {
    && SnapOk(w.disk) && Covered(w.disk.cursor, w.handed) && Covered(w.acked, w.settled)
    && (w.client.Some? ==> ClientOk(w, w.client.value))
  }

  // Snapshots.

  lemma DistinctAppend(xs: seq<Record>, ys: seq<Record>, next: nat)
    requires DistinctIds(xs) && DistinctIds(ys)
    requires forall i | 0 <= i < |xs| && xs[i].Event? :: xs[i].id < next
    requires forall i | 0 <= i < |ys| && ys[i].Event? :: ys[i].id >= next
    ensures DistinctIds(xs + ys)
  {
    var all := xs + ys;
    forall i, j | 0 <= i < j < |all| && all[i].Event? && all[j].Event? ensures all[i].id != all[j].id {
      if j < |xs| {
        assert all[i] == xs[i] && all[j] == xs[j];
      } else if i < |xs| {
        assert all[i] == xs[i] && all[j] == ys[j - |xs|];
      } else {
        assert all[i] == ys[i - |xs|] && all[j] == ys[j - |xs|];
      }
    }
  }

  lemma {:induction false} RecordsAreNew(kinds: seq<bool>, next: nat)
    ensures var r := RecordsFrom(kinds, next);
            DistinctIds(r) && forall i | 0 <= i < |r| && r[i].Event? :: next <= r[i].id < next + Accepted(kinds)
    decreases |kinds|
  {
    if kinds != [] {
      var next' := if kinds[0] then next + 1 else next;
      RecordsAreNew(kinds[1..], next');
      DistinctAppend([if kinds[0] then Event(next, true) else Other], RecordsFrom(kinds[1..], next'), next');
    }
  }

  lemma CommittedOk(s: Snap, kinds: seq<bool>)
    requires SnapOk(s)
    ensures SnapOk(Committed(s, kinds))
  {
    RecordsAreNew(kinds, s.issued);
    DistinctAppend(s.inbox, RecordsFrom(kinds, s.issued), s.issued);
  }

  lemma AdvancedOk(s: Snap, cursor: nat)
    requires SnapOk(s) && cursor <= s.issued
    ensures SnapOk(Advanced(s, cursor))
  {
    var s' := Advanced(s, cursor);
    assert forall i | 0 <= i < |s.inbox| :: s'.inbox[i] == Scrub(s.inbox[i], cursor);
  }

  lemma {:induction false} NothingAccepted(kinds: seq<bool>)
    requires true !in kinds
    ensures Accepted(kinds) == 0
  {
    if kinds != [] { NothingAccepted(kinds[1..]); }
  }

  // Steps.

  lemma PublishKeeps(w: World, c: Client, candidate: Snap, write: Write)
    requires Inv(w) && c.call.None? && !c.frozen && ClientOk(w, c)
    requires SnapOk(candidate) && Covered(candidate.cursor, w.handed) && c.mem.issued <= candidate.issued
    ensures Inv(Publish(w, c, candidate, write))
  {
  }

  lemma BeginIsOk(w: World, c: Client)
    requires Inv(w) && w.client == Some(c) && Idle(w) && c.handedOver <= c.mem.cursor && (c.attached || Told(w, c.mem))
    ensures CallOk(w, c.(call := Some(Begun(c, w.acked))))
  {
    var call, undelivered := Begun(c, w.acked), Undelivered(c.mem);
    PartitionOfIssued(c.mem);
    if !c.attached {
      forall id | 0 <= id < Beyond(undelivered) ensures id in w.handed + undelivered {
        if id >= c.mem.cursor { assert id in w.handed + undelivered; }
      }
    }
  }

  /** Nothing between the cursor and an event the snapshot can still offer is gone. */
  ghost predicate NoGap(s: Snap) { AllIn(s.cursor, Beyond(Undelivered(s)), Undelivered(s)) }

  /** Or, if something is gone there, some completed receive has offered or reported it. */
  ghost predicate Told(w: World, s: Snap) { AllIn(s.cursor, Beyond(Undelivered(s)), w.handed + Undelivered(s)) }

  /** Every issued id is exactly one of acknowledged, retained to be offered, or lost; the loss is counted exactly. */
  lemma PartitionOfIssued(s: Snap)
    requires SnapOk(s)
    ensures var undelivered := Undelivered(s); var missing := Between(s.cursor, s.issued) - undelivered;
            && undelivered <= Between(s.cursor, s.issued) && Beyond(undelivered) <= s.issued
            && Between(0, s.issued) == Between(0, s.cursor) + undelivered + missing
            && Between(0, s.cursor) !! undelivered !! missing
            && |missing| == Minus(Minus(s.issued, s.cursor), |undelivered|)
  {
    var undelivered, all := Undelivered(s), Between(s.cursor, s.issued);
    assert undelivered <= all;
    Split(all, undelivered);
  }

  lemma Split(all: set<nat>, some: set<nat>)
    requires some <= all
    ensures |all - some| == |all| - |some|
  {
    assert all == some + (all - some);
  }

  lemma ItemCommitKeeps(w: World, kinds: seq<bool>, write: Write)
    requires Inv(w)
    ensures Inv(ApplyItemCommit(w, kinds, write))
  {
    if Receiving(w) && Recordable(w.client.value, kinds) {
      CommittedOk(w.client.value.mem, kinds);
      if true !in kinds { NothingAccepted(kinds); }
    }
  }

  lemma OneMoreIn(a: nat, b: nat, ids: set<nat>)
    requires a <= b && AllIn(a, b, ids)
    ensures AllIn(a, b + 1, ids + {b})
  {
  }

  /** Up to what was issued the answer leaves no gap once it holds the events since the last item. */
  lemma OfferedGrows(w: World, c: Client, since: set<nat>)
    requires c.call.Some? && CallOk(w, c) && forall id: nat :: id in since <==> c.call.value.done <= id < c.mem.issued
    ensures Beyond(c.call.value.offered + since) <= c.mem.issued
    ensures if c.attached then Covered(c.mem.issued, w.handed + (c.call.value.offered + since) + c.call.value.missing)
            else c.call.value.offered + since == c.call.value.offered
  {
    var call := c.call.value;
    if c.attached {
      forall id | 0 <= id < c.mem.issued ensures id in w.handed + (call.offered + since) + call.missing {
        if id < call.done { assert id in w.handed + call.offered + call.missing; }
      }
    } else {
      assert since == {};
    }
  }

  lemma SettleKeeps(w: World, c: Client, call: Call, since: set<nat>)
    requires Inv(w) && w.client == Some(c) && c.call == Some(call)
    requires forall id: nat :: id in since <==> call.done <= id < c.mem.issued
    ensures Inv(Settle(w, c, call, since))
  {
    OneMoreIn(call.from, call.from + call.processed, w.settled);
    OfferedGrows(w, c, since);
    SettledKeeps(w, c, call.offered + since, w.settled + {call.from + call.processed});
  }

  lemma ItemDoneKeeps(w: World)
    requires Inv(w)
    ensures Inv(ApplyItemDone(w))
  {
    if Receiving(w) && w.client.value.call.value.processed != MAX_RECEIVE_ITEMS {
      var c, call := w.client.value, w.client.value.call.value;
      SettleKeeps(w, c, call, Between(call.done, c.mem.issued));
    }
  }

  lemma SettledKeeps(w: World, c: Client, offered: set<nat>, settled: set<nat>)
    requires Inv(w) && w.client == Some(c) && c.call.Some?
    requires var call := c.call.value;
             && Beyond(offered) <= c.mem.issued && w.settled <= settled
             && AllIn(call.from, call.from + call.processed + 1, settled)
             && if c.attached then Covered(c.mem.issued, w.handed + offered + call.missing) else offered == call.offered
    ensures var call := c.call.value;
            var call' := call.(offered := offered, done := c.mem.issued, processed := call.processed + 1);
            Inv(w.(client := Some(c.(call := Some(call'))), settled := settled))
  {
  }

  lemma EndKeeps(w: World)
    requires Inv(w)
    ensures Inv(ApplyEnd(w))
  {
    if w.client.Some? && w.client.value.call.Some?
      && !(w.client.value.call.value.stop.Failed? && w.client.value.call.value.processed == 0) {
      var c, call := w.client.value, w.client.value.call.value;
      var handed := w.handed + call.offered + if call.lost > 0 then call.missing else {};
      assert call.lost == 0 ==> call.missing == {};
      assert handed == w.handed + call.offered + call.missing;
    }
  }

  /** No receive begins with no receiver attached while an event it could let the cursor pass is gone and nobody was
      told. */
  ghost predicate Sound(w: World, step: Step) {
    step.BeginReceive? && Idle(w) ==> w.client.value.attached || Told(w, w.client.value.mem)
  }

  lemma StepKeeps(w: World, step: Step)
    requires Inv(w) && Sound(w, step)
    ensures Inv(Apply(w, step))
  {
    match step
    case Acknowledge(write) =>
      if Idle(w) && w.client.value.handedOver > w.client.value.mem.cursor {
        AdvancedOk(w.client.value.mem, w.client.value.handedOver);
        PublishKeeps(w, w.client.value, Advanced(w.client.value.mem, w.client.value.handedOver), write);
      }
    case Commit(kinds, write) =>
      if Idle(w) && Recordable(w.client.value, kinds) {
        CommittedOk(w.client.value.mem, kinds);
        PublishKeeps(w, w.client.value, Committed(w.client.value.mem, kinds), write);
      }
    case BeginReceive =>
      if Idle(w) && w.client.value.handedOver <= w.client.value.mem.cursor { BeginIsOk(w, w.client.value); }
    case ItemCommit(kinds, write) => ItemCommitKeeps(w, kinds, write);
    case ItemDone => ItemDoneKeeps(w);
    case EndReceive => EndKeeps(w);
    case _ =>
  }

  ghost predicate AllSound(steps: seq<Step>)
    decreases |steps|
  {
    steps == [] || (AllSound(steps[..|steps| - 1]) && Sound(Run(steps[..|steps| - 1]), steps[|steps| - 1]))
  }

  lemma {:induction false} RunKeeps(steps: seq<Step>)
    requires AllSound(steps)
    ensures Inv(Run(steps))
    decreases |steps|
  {
    if steps != [] {
      RunKeeps(steps[..|steps| - 1]);
      StepKeeps(Run(steps[..|steps| - 1]), steps[|steps| - 1]);
    }
  }

  /**
    Over every run: the cursor, in memory and on disk, has passed only events that a
    completed receive offered or reported lost, and the relay was told to forget only
    items whose disposition was settled, from the first on without a gap.
   */
  lemma CursorPassesOnlyHandedOver(steps: seq<Step>)
    requires AllSound(steps)
    ensures var w := Run(steps);
            && Covered(w.disk.cursor, w.handed) && (w.client.Some? ==> Covered(w.client.value.mem.cursor, w.handed))
            && Covered(w.acked, w.settled)
  {
    RunKeeps(steps);
  }

  /** A client not frozen works on what is on disk, and a receive goes on exactly while its client is not frozen. */
  lemma FrozenOrCurrent(steps: seq<Step>)
    requires AllSound(steps) && Run(steps).client.Some?
    ensures var w, c := Run(steps), Run(steps).client.value;
            && (!c.frozen ==> c.mem == w.disk) && (c.call.Some? ==> (c.call.value.stop == Going <==> !c.frozen))
  {
    RunKeeps(steps);
  }

  /** A receive under way gives no answer exactly when its first item already failed. */
  lemma AnswersExactly(w: World)
    requires w.client.Some? && w.client.value.call.Some?
    ensures var call, w' := w.client.value.call.value, Apply(w, EndReceive);
            && w'.client.Some? && (w'.client.value.call.Some? <==> call.stop == Failed && call.processed == 0)
            && (w'.client.value.call.Some? ==> w' == w) && w.handed <= w'.handed && w'.disk == w.disk
  {
  }

  /** An item that fails stops the receive and freezes the client; a recovery then resumes from the disk. */
  lemma FailureFreezesUntilRecovery(w: World)
    requires Receiving(w)
    ensures var failed := Apply(w, ItemFailed);
            var resumed := Apply(Apply(failed, AbortReceive), Recover);
            && failed.client.Some? && failed.client.value.frozen && !Receiving(failed) && failed.disk == w.disk
            && failed.client.value.call == Some(w.client.value.call.value.(stop := Failed))
            && Idle(resumed) && resumed.client.value.mem == w.disk && resumed.disk == w.disk
            && resumed.client.value.handedOver == w.client.value.handedOver
  {
  }

  // What a receive offers and what it reports, said of the records.

  lemma OffersMeans(s: Snap, id: nat)
    ensures id in Undelivered(s) <==> Event(id, true) in s.inbox && s.cursor <= id
  {
    if id in Undelivered(s) {
      var i :| 0 <= i < |s.inbox| && Offers(s, s.inbox[i]) && s.inbox[i].id == id;
      assert s.inbox[i] == Event(id, true);
    }
    if Event(id, true) in s.inbox && s.cursor <= id {
      var i :| 0 <= i < |s.inbox| && s.inbox[i] == Event(id, true);
      assert Offers(s, s.inbox[i]);
    }
  }

  ghost predicate BeginsWith(s: Snap, call: Call) {
    && (forall id: nat :: id in call.offered <==> Event(id, true) in s.inbox && s.cursor <= id)
    && (forall id: nat :: id in call.missing <==> s.cursor <= id < s.issued && Event(id, true) !in s.inbox)
    && call.lost == |call.missing|
  }

  lemma BegunFrom(c: Client, from: nat)
    requires SnapOk(c.mem) && c.attached
    ensures BeginsWith(c.mem, Begun(c, from))
  {
    var s := c.mem;
    PartitionOfIssued(s);
    forall id: nat ensures id in Undelivered(s) <==> Event(id, true) in s.inbox && s.cursor <= id {
      OffersMeans(s, id);
    }
  }

  /**
    An attached receive begins with exactly the kept events the cursor has not passed, and
    counts as lost exactly the issued ones past the cursor that no record keeps.
   */
  lemma BeginsWithTheKept(w: World)
    requires Inv(w) && Idle(w) && w.client.value.attached && w.client.value.handedOver <= w.client.value.mem.cursor
    ensures var c := Apply(w, BeginReceive).client;
            c.Some? && c.value.call.Some? && BeginsWith(w.client.value.mem, c.value.call.value)
  {
    BegunFrom(w.client.value, w.acked);
  }

  ghost function RunFrom(w: World, steps: seq<Step>): World
    decreases |steps|
  {
    if steps == [] then w else Apply(RunFrom(w, steps[..|steps| - 1]), steps[|steps| - 1])
  }

  /** Nothing ends a receive but its completion. */
  predicate GoesOn(step: Step) { !step.Crash? && !step.AbortReceive? && !step.EndReceive? }

  ghost predicate Offering(w: World, ids: set<nat>) {
    w.client.Some? && w.client.value.call.Some? && ids <= w.client.value.call.value.offered
  }

  lemma {:induction false} OfferStays(w: World, steps: seq<Step>, ids: set<nat>)
    requires Offering(w, ids) && forall step | step in steps :: GoesOn(step)
    ensures Offering(RunFrom(w, steps), ids)
    decreases |steps|
  {
    if steps != [] {
      var front := steps[..|steps| - 1];
      assert steps[|steps| - 1] in steps && forall step | step in front :: step in steps;
      OfferStays(w, front, ids);
    }
  }

  lemma BeginsOffering(w: World, id: nat)
    requires Inv(w) && Idle(w) && w.client.value.attached && w.client.value.handedOver <= w.client.value.mem.cursor
    requires Event(id, true) in w.client.value.mem.inbox && w.client.value.mem.cursor <= id
    ensures Offering(Apply(w, BeginReceive), {id})
  {
    BeginsWithTheKept(w);
  }

  lemma EndHandsOver(w: World, id: nat)
    requires Offering(w, {id})
    ensures var w' := Apply(w, EndReceive); w'.client.Some? && (w'.client.value.call.None? ==> id in w'.handed)
  {
    assert id in w.client.value.call.value.offered;
  }

  /**
    An event whose record is still kept when an attached receive begins is handed over by
    that receive once it completes, whatever the receive commits and however it stops.
   */
  lemma KeptIsHandedOver(w: World, steps: seq<Step>, id: nat)
    requires Inv(w) && Idle(w) && w.client.value.attached && w.client.value.handedOver <= w.client.value.mem.cursor
    requires Event(id, true) in w.client.value.mem.inbox && w.client.value.mem.cursor <= id
    requires forall step | step in steps :: GoesOn(step)
    ensures var w' := Apply(RunFrom(Apply(w, BeginReceive), steps), EndReceive);
            w'.client.Some? && (w'.client.value.call.None? ==> id in w'.handed)
  {
    BeginsOffering(w, id);
    OfferStays(Apply(w, BeginReceive), steps, {id});
    EndHandsOver(RunFrom(Apply(w, BeginReceive), steps), id);
  }

  /**
    An undisturbed receive and its acknowledgement: the cursor passes everything issued if
    there was anything to hand over, and nothing is left to offer.
   */
  lemma AcknowledgedIsPassed(w: World)
    requires Inv(w) && Idle(w) && w.client.value.attached && w.client.value.handedOver <= w.client.value.mem.cursor
    requires w.client.value.mem.cursor < w.client.value.mem.issued
    ensures var w' := Apply(Apply(Apply(w, BeginReceive), EndReceive), Acknowledge(Written));
            && w'.disk.cursor == w.disk.issued && w'.disk.issued == w.disk.issued
            && (forall id: nat :: Event(id, true) !in w'.disk.inbox)
  {
    var c, ended := w.client.value, Apply(Apply(w, BeginReceive), EndReceive);
    EndsAttached(w);
    AdvancedKeeps(c.mem, c.mem.issued);
    AllBelow(c.mem);
    assert Idle(ended) && Apply(ended, Acknowledge(Written)).disk == Advanced(c.mem, c.mem.issued);
  }

  lemma EndsAttached(w: World)
    requires Inv(w) && Idle(w) && w.client.value.attached && w.client.value.handedOver <= w.client.value.mem.cursor
    requires w.client.value.mem.cursor < w.client.value.mem.issued
    ensures var ended, c := Apply(Apply(w, BeginReceive), EndReceive), w.client.value;
            ended.client == Some(c.(handedOver := c.mem.issued)) && ended.disk == w.disk
  {
    var c, begun := w.client.value, Apply(w, BeginReceive);
    ReachesAll(c, w.acked);
    assert begun.disk == w.disk && begun.client == Some(c.(call := Some(Begun(c, w.acked))));
    EndsAt(begun, c, Begun(c, w.acked));
  }

  lemma EndsAt(w: World, c: Client, call: Call)
    requires c.call.None? && w.client == Some(c.(call := Some(call))) && call.stop.Going?
    ensures var ended, reached := Apply(w, EndReceive), Max(c.handedOver, Beyond(call.offered));
            var reached' := if call.lost > 0 then Max(reached, call.issuedBefore) else reached;
            ended.disk == w.disk && ended.client == Some(c.(handedOver := reached'))
  {
  }

  lemma AllBelow(s: Snap)
    requires SnapOk(s)
    ensures forall id: nat | Event(id, true) in s.inbox :: id < s.issued
  {
  }

  /** What a receive that stops at once hands over reaches what was issued. */
  lemma ReachesAll(c: Client, from: nat)
    requires SnapOk(c.mem) && c.attached && c.handedOver <= c.mem.cursor < c.mem.issued
    ensures var call := Begun(c, from); var reached := Max(c.handedOver, Beyond(call.offered));
            (if call.lost > 0 then Max(reached, call.issuedBefore) else reached) == c.mem.issued
  {
    var s, call := c.mem, Begun(c, from);
    PartitionOfIssued(s);
    if call.lost == 0 {
      assert call.missing == {};
      assert s.issued - 1 in Between(s.cursor, s.issued);
      assert s.issued - 1 in call.offered;
    }
  }

  // A receive with no receiver attached.

  lemma UnattachedEnds(w: World)
    requires Idle(w) && !w.client.value.attached && w.client.value.handedOver <= w.client.value.mem.cursor
    ensures var w', ids := Apply(Apply(w, BeginReceive), EndReceive), Undelivered(w.client.value.mem);
            && w'.client.Some? && w'.handed == w.handed + ids
            && w'.client.value.handedOver == Max(w.client.value.handedOver, Beyond(ids))
  {
  }

  /**
    A receive that begins unattached counts no loss. What it then lets the cursor pass was
    all handed over exactly when every event between the cursor and the last one it can
    offer is still there to be offered or was handed over before.
   */
  lemma UnattachedExactly(w: World)
    requires Inv(w) && Idle(w) && !w.client.value.attached && w.client.value.handedOver <= w.client.value.mem.cursor
    ensures var w' := Apply(Apply(w, BeginReceive), EndReceive);
            w'.client.Some? && (Covered(w'.client.value.handedOver, w'.handed) <==> Told(w, w.client.value.mem))
  {
    var c, ids := w.client.value, Undelivered(w.client.value.mem);
    UnattachedEnds(w);
    if Told(w, c.mem) {
      forall id | 0 <= id < Max(c.handedOver, Beyond(ids)) ensures id in w.handed + ids {
        if id >= c.mem.cursor { assert id in w.handed + ids; }
      }
    }
  }

  /** Where nothing past the cursor was handed over before, that is that nothing is gone. */
  lemma UnattachedFirst(w: World)
    requires Inv(w) && Idle(w) && !w.client.value.attached && w.client.value.handedOver <= w.client.value.mem.cursor
    requires forall id | id in w.handed :: id < w.client.value.mem.cursor
    ensures var w' := Apply(Apply(w, BeginReceive), EndReceive);
            w'.client.Some? && (Covered(w'.client.value.handedOver, w'.handed) <==> NoGap(w.client.value.mem))
  {
    UnattachedExactly(w);
  }

  // A run that loses one: receives that commit their items and are dropped before they return.

  lemma Assoc(x: seq<Record>, y: seq<Record>, z: seq<Record>)
    ensures x + y + z == x + (y + z)
  {
  }

  function FirstOf(kind: bool, next: nat): seq<Record> { if kind then [Event(next, true)] else [Other] }

  lemma RecordsCons(kind: bool, kinds: seq<bool>, next: nat)
    ensures RecordsFrom([kind] + kinds, next) == FirstOf(kind, next) + RecordsFrom(kinds, next + Accepted([kind]))
    ensures Accepted([kind] + kinds) == Accepted([kind]) + Accepted(kinds)
  {
    assert ([kind] + kinds)[1..] == kinds;
  }

  lemma RecordsConsAppend(kind: bool, rest: seq<bool>, b: seq<bool>, next: nat, a: seq<bool>, all: seq<bool>)
    requires a == [kind] + rest && all == [kind] + (rest + b)
    requires var next' := next + Accepted([kind]);
             RecordsFrom(rest + b, next') == RecordsFrom(rest, next') + RecordsFrom(b, next' + Accepted(rest))
    requires Accepted(rest + b) == Accepted(rest) + Accepted(b)
    ensures RecordsFrom(all, next) == RecordsFrom(a, next) + RecordsFrom(b, next + Accepted(a))
            && Accepted(all) == Accepted(a) + Accepted(b)
  {
    var next' := next + Accepted([kind]);
    RecordsCons(kind, rest, next);
    RecordsCons(kind, rest + b, next);
    Assoc(FirstOf(kind, next), RecordsFrom(rest, next'), RecordsFrom(b, next' + Accepted(rest)));
  }

  lemma {:induction false} RecordsAppend(a: seq<bool>, b: seq<bool>, next: nat)
    ensures RecordsFrom(a + b, next) == RecordsFrom(a, next) + RecordsFrom(b, next + Accepted(a))
    ensures Accepted(a + b) == Accepted(a) + Accepted(b)
    decreases |a|
  {
    if a == [] {
      assert a + b == b;
    } else {
      RecordsAppend(a[1..], b, next + Accepted([a[0]]));
      RecordsConsAppend(a[0], a[1..], b, next, a, a + b);
    }
  }

  lemma BoundedAppend(xs: seq<Record>, x: seq<Record>, y: seq<Record>, z: seq<Record>)
    requires z == x + y
    ensures Bounded(Bounded(xs + x) + y) == Bounded(xs + z)
  {
    BoundedTwice(xs + x, y);
    Assoc(xs, x, y);
  }

  /** Committing one after another leaves what committing all at once would. */
  lemma CommittedAppend(s: Snap, a: seq<bool>, b: seq<bool>)
    ensures Committed(Committed(s, a), b) == Committed(s, a + b)
  {
    var x, y := RecordsFrom(a, s.issued), RecordsFrom(b, s.issued + Accepted(a));
    assert Committed(s, a) == Snap(Bounded(s.inbox + x), s.cursor, s.issued + Accepted(a));
    RecordsAppend(a, b, s.issued);
    BoundedAppend(s.inbox, x, y, RecordsFrom(a + b, s.issued));
  }

  lemma {:induction false} OthersFrom(n: nat, next: nat)
    ensures RecordsFrom(seq(n, _ => false), next) == seq(n, _ => Other) && Accepted(seq(n, _ => false)) == 0
    decreases n
  {
    if n > 0 {
      var kinds := seq(n, _ => false);
      assert kinds[1..] == seq(n - 1, _ => false);
      OthersFrom(n - 1, next);
      assert seq(n, _ => Other) == [Other] + seq(n - 1, _ => Other);
    }
  }

  function Nots(n: nat): seq<bool> { seq(n, _ => false) }

  /** An event, sixty-four items that are none, and an event. */
  function AllKinds(): seq<bool> { [true] + Nots(64) + [true] }

  /** The first event has been pushed out of the inbox. */
  const Full: Snap := Snap(seq(63, _ => Other) + [Event(1, true)], 0, 2)

  lemma One(next: nat)
    ensures RecordsFrom([true], next) == [Event(next, true)] && Accepted([true]) == 1
  {
  }

  lemma RecordsAround(nots: seq<bool>, n: nat)
    requires nots == Nots(n)
    ensures RecordsFrom([true] + nots + [true], 0) == [Event(0, true)] + seq(n, _ => Other) + [Event(1, true)]
    ensures Accepted([true] + nots + [true]) == 2
  {
    OthersFrom(n, 1);
    One(0);
    One(1);
    RecordsAppend([true], nots, 0);
    RecordsAppend([true] + nots, [true], 0);
  }

  lemma LastSixtyFour(others: seq<Record>, first: Record, last: Record)
    requires |others| == 64
    ensures Bounded([] + ([first] + others + [last])) == others[1..] + [last]
  {
    assert ([] + ([first] + others + [last]))[2..] == others[1..] + [last];
  }

  lemma FillsUp()
    ensures Committed(Snap([], 0, 0), AllKinds()) == Full
  {
    RecordsAround(Nots(64), 64);
    LastSixtyFour(seq(64, _ => Other), Event(0, true), Event(1, true));
    assert seq(64, _ => Other)[1..] == seq(63, _ => Other);
  }

  lemma RunStep(steps: seq<Step>, step: Step)
    ensures Run(steps + [step]) == Apply(Run(steps), step)
  {
    assert (steps + [step])[..|steps|] == steps;
  }

  ghost predicate Rests(w: World, s: Snap) {
    w.disk == s && w.client == Some(Client(s, 0, false, true, None)) && w.handed == {}
  }

  ghost predicate InReceive(w: World, s: Snap, n: nat) {
    && w.disk == s && w.handed == {} && w.client.Some? && w.client.value.call.Some?
    && w.client.value == Client(s, 0, false, true, w.client.value.call)
    && w.client.value.call.value.processed == n && w.client.value.call.value.stop.Going?
  }

  /** One item after another, each in its own commit. */
  function Items(steps: seq<Step>, kinds: seq<bool>): seq<Step>
    decreases |kinds|
  {
    if kinds == [] then steps
    else Items(steps, kinds[..|kinds| - 1]) + [ItemCommit([kinds[|kinds| - 1]], Written)] + [ItemDone]
  }

  lemma ItemCommits(w: World, s: Snap, n: nat, kind: bool)
    requires InReceive(w, s, n) && n < MAX_RECEIVE_ITEMS
    ensures InReceive(ApplyItemDone(ApplyItemCommit(w, [kind], Written)), Committed(s, [kind]), n + 1)
  {
  }

  function Each(s: Snap, kinds: seq<bool>): Snap
    decreases |kinds|
  {
    if kinds == [] then s else Committed(Each(s, kinds[..|kinds| - 1]), [kinds[|kinds| - 1]])
  }

  lemma {:induction false} EachIsCommitted(s: Snap, kinds: seq<bool>)
    requires |s.inbox| <= MAX_INBOX_RECORDS
    ensures Each(s, kinds) == Committed(s, kinds)
    decreases |kinds|
  {
    if kinds == [] {
      assert s.inbox + [] == s.inbox;
    } else {
      var front, last := kinds[..|kinds| - 1], kinds[|kinds| - 1];
      assert front + [last] == kinds;
      EachIsCommitted(s, front);
      CommittedAppend(s, front, [last]);
    }
  }

  lemma {:induction false} ItemsCommit(steps: seq<Step>, s: Snap, kinds: seq<bool>)
    requires InReceive(Run(steps), s, 0) && |kinds| <= MAX_RECEIVE_ITEMS
    ensures InReceive(Run(Items(steps, kinds)), Each(s, kinds), |kinds|)
    decreases |kinds|
  {
    if kinds != [] {
      var front, last := kinds[..|kinds| - 1], kinds[|kinds| - 1];
      ItemsCommit(steps, s, front);
      var before := Items(steps, front);
      RunStep(before, ItemCommit([last], Written));
      RunStep(before + [ItemCommit([last], Written)], ItemDone);
      ItemCommits(Run(before), Each(s, front), |front|, last);
    }
  }

  /** A receive that settles its items and is dropped before it returns. */
  function Dropped(steps: seq<Step>, kinds: seq<bool>): seq<Step> {
    Items(steps + [BeginReceive], kinds) + [AckRelay] + [AbortReceive]
  }

  lemma DropRests(items: seq<Step>, s: Snap, n: nat)
    requires InReceive(Run(items), s, n)
    ensures Rests(Run(items + [AckRelay] + [AbortReceive]), s)
  {
    RunStep(items, AckRelay);
    RunStep(items + [AckRelay], AbortReceive);
  }

  lemma DroppedCommits(steps: seq<Step>, s: Snap, kinds: seq<bool>)
    requires Rests(Run(steps), s) && |kinds| <= MAX_RECEIVE_ITEMS && |s.inbox| <= MAX_INBOX_RECORDS
    ensures Rests(Run(Dropped(steps, kinds)), Committed(s, kinds))
  {
    RunStep(steps, BeginReceive);
    ItemsCommit(steps + [BeginReceive], s, kinds);
    EachIsCommitted(s, kinds);
    DropRests(Items(steps + [BeginReceive], kinds), Committed(s, kinds), |kinds|);
  }

  lemma Attaches()
    ensures Rests(Run([Open] + [Attach]), Snap([], 0, 0))
  {
    assert [Open] == [] + [Open];
    RunStep([], Open);
    RunStep([Open], Attach);
  }

  /** Three receives of at most thirty-two items, each dropped; then the process stops. */
  function Filling(): seq<Step> {
    Dropped(Dropped(Dropped([Open] + [Attach], [true] + Nots(31)), Nots(32)), Nots(1) + [true]) + [Crash]
  }

  lemma Fills()
    ensures var w := Run(Filling()); w.disk == Full && w.client == None && w.handed == {}
  {
    var s0 := Snap([], 0, 0);
    var k1, k2, k3 := [true] + Nots(31), Nots(32), Nots(1) + [true];
    var t0: seq<Step> := [Open] + [Attach];
    Attaches();
    DroppedCommits(t0, s0, k1);
    DroppedCommits(Dropped(t0, k1), Committed(s0, k1), k2);
    CommittedAppend(s0, k1, k2);
    DroppedCommits(Dropped(Dropped(t0, k1), k2), Committed(s0, k1 + k2), k3);
    CommittedAppend(s0, k1 + k2, k3);
    assert k1 + k2 + k3 == AllKinds();
    FillsUp();
    RunStep(Dropped(Dropped(Dropped(t0, k1), k2), k3), Crash);
  }

  /** The caller of the next process receives before it attaches, then acknowledges. */
  function Unattached(): seq<Step> { Filling() + [Open] + [BeginReceive] + [EndReceive] + [Acknowledge(Written)] }

  lemma FullOffersOne()
    ensures Undelivered(Full) == {1}
  {
    assert Full.inbox[63] == Event(1, true) && Offers(Full, Full.inbox[63]);
    assert forall i | 0 <= i < 63 :: Full.inbox[i] == Other;
  }

  /** The condition is needed: the cursor passes event 0, which no receive offered or reported. */
  lemma UnattachedReceivePassesALoss()
    ensures var w := Run(Unattached()); w.disk.cursor == 2 && w.disk.issued == 2 && w.handed == {1}
  {
    Fills();
    FullOffersOne();
    var s0 := Filling() + [Open];
    var s1 := s0 + [BeginReceive];
    var s2 := s1 + [EndReceive];
    RunStep(Filling(), Open);
    RunStep(s0, BeginReceive);
    RunStep(s1, EndReceive);
    RunStep(s2, Acknowledge(Written));
    var c := Client(Full, 0, false, false, None);
    assert Run(s0).client == Some(c);
    var call := Begun(c, Run(s0).acked);
    assert call.offered == {1} && call.lost == 0 && Beyond({1}) == 2;
    assert Run(s2).handed == {1} && Run(s2).client.value.handedOver == 2;
  }
}
