/**
  The durable write fence: the compare-and-write port a platform store implements,
  the latching handle a coordinator holds over it, and what any number of handles
  on one store can and cannot do.
 */
module Fence {
  import opened Bytes

  /** What is published: some content under a generation. */
  datatype Stamped<+C> = Stamped(generation: u64, content: C)

  datatype CommitOutcome = Committed | Failed | Unknown

  /**
    How the medium answers one write that passed the generation check: what it
    reports, and whether the bytes reached durable storage. Only a write that
    reports `Committed` is known to have landed.
   */
  datatype Write = Write(outcome: CommitOutcome, lands: bool)

  predicate Possible(w: Write) { w.outcome.Committed? ==> w.lands }

  datatype RecoverError = Unreadable | RolledBack

  datatype Recovered<+C> = Yields(snapshot: Option<Stamped<C>>) | Refuses(error: RecoverError)

  function GenerationOf<C>(s: Option<Stamped<C>>): Option<u64> {
    match s
    case None => None
    case Some(x) => Some(x.generation)
  }

  function MaxOpt(a: Option<u64>, b: u64): Option<u64> {
    if a.Some? && a.value > b then a else Some(b)
  }

  function Max(a: u64, b: u64): u64 { if a > b then a else b }

  /** The state of a handle. */
  datatype Handle = Handle(frozen: bool, highWater: u64, observed: Option<u64>, committed: Option<u64>)

  const NewHandle := Handle(false, 0, None, None)

  // The port's atomic step: check and write together.
  function CommitAfter<C>(durable: Option<Stamped<C>>, expected: Option<u64>, s: Stamped<C>,
        w: Write): (Option<Stamped<C>>, CommitOutcome) {
    if GenerationOf(durable) != expected then (durable, Failed)
    else (if w.lands then Some(s) else durable, w.outcome)
  }

  function HandleCommit<C>(h: Handle, durable: Option<Stamped<C>>, s: Stamped<C>,
        w: Write): (Handle, Option<Stamped<C>>, CommitOutcome) {
    if h.frozen then (h, durable, Failed)
    else
      var h1 := h.(highWater := Max(h.highWater, s.generation));
      var (durable', outcome) := CommitAfter(durable, h.observed, s, w);
      if outcome.Committed? then
        (h1.(observed := Some(s.generation), committed := MaxOpt(h.committed, s.generation)), durable', outcome)
      else
        (h1.(frozen := true), durable', outcome)
  }

  function HandleAdopt<C>(h: Handle, recovered: Option<Stamped<C>>): Handle {
    match recovered
    case None => h.(observed := None, frozen := false)
    case Some(s) =>
      Handle(false, Max(h.highWater, s.generation), Some(s.generation), MaxOpt(h.committed, s.generation))
  }

  /** Whether a recovery that must not go back refuses this snapshot. */
  predicate Behind<C>(h: Handle, recovered: Option<Stamped<C>>) {
    h.committed.Some? && recovered.Some? && recovered.value.generation < h.committed.value
  }

  function NextGeneration(h: Handle, current: u64): Option<u64> {
    var top := Max(current, h.highWater);
    if top == U64_MAX then None else Some(top + 1)
  }

  // The two objects of the source.

  /** A platform store. `offered` counts the writes that reached it. */
  class InnerStore<C> {
    var durable: Option<Stamped<C>>
    var offered: nat

    constructor ()
      ensures durable == None && offered == 0
    {
      durable, offered := None, 0;
    }

    method CommitWhenAt(expected: Option<u64>, s: Stamped<C>, w: Write) returns (outcome: CommitOutcome)
      modifies this
      ensures (durable, outcome) == CommitAfter(old(durable), expected, s, w)
      ensures offered == old(offered) + 1
    {
      offered := offered + 1;
      if GenerationOf(durable) != expected { return Failed; }
      if w.lands { durable := Some(s); }
      outcome := w.outcome;
    }
  }

  /** The handle a coordinator holds. */
  class DurableStore<C> {
    const inner: InnerStore<C>
    var frozen: bool
    var highWater: u64
    var observed: Option<u64>
    var committed: Option<u64>

    ghost function View(): Handle
      reads this
    {
      Handle(frozen, highWater, observed, committed)
    }

    constructor (inner: InnerStore<C>)
      ensures this.inner == inner && View() == NewHandle
    {
      this.inner := inner;
      frozen, highWater, observed, committed := false, 0, None, None;
    }

    function Next(current: u64): (r: Option<u64>)
      reads this
      ensures r == NextGeneration(View(), current)
      ensures r.Some? ==> r.value > current && r.value > highWater
      ensures r.None? <==> current == U64_MAX || highWater == U64_MAX
    {
      var top := Max(current, highWater);
      if top == U64_MAX then None else Some(top + 1)
    }

    /** A latched handle refuses without forwarding; any write that does not commit latches it. */
    method Commit(s: Stamped<C>, w: Write) returns (outcome: CommitOutcome)
      modifies this, inner
      ensures (View(), inner.durable, outcome) == HandleCommit(old(View()), old(inner.durable), s, w)
      ensures inner.offered == old(inner.offered) + if old(frozen) then 0 else 1
    {
      if frozen { return Failed; }
      highWater := Max(highWater, s.generation);
      outcome := inner.CommitWhenAt(observed, s, w);
      if outcome == Committed {
        observed := Some(s.generation);
        committed := MaxOpt(committed, s.generation);
      } else {
        frozen := true;
      }
    }

    method Adopt(recovered: Option<Stamped<C>>)
      modifies this
      ensures View() == HandleAdopt(old(View()), recovered)
    {
      if recovered.Some? {
        highWater := Max(highWater, recovered.value.generation);
        committed := MaxOpt(committed, recovered.value.generation);
      }
      observed := GenerationOf(recovered);
      frozen := false;
    }

    method Recover(readable: bool) returns (r: Recovered<C>)
      modifies this
      ensures r == if readable then Yields(inner.durable) else Refuses(Unreadable)
      ensures View() == if readable then HandleAdopt(old(View()), inner.durable) else old(View())
    {
      if !readable { return Refuses(Unreadable); }
      Adopt(inner.durable);
      r := Yields(inner.durable);
    }

    /** A refusal leaves the handle latched and remembers nothing new. */
    method RecoverNotBehind(readable: bool) returns (r: Recovered<C>)
      modifies this
      ensures !readable ==> r == Refuses(Unreadable) && View() == old(View())
      ensures readable && Behind(old(View()), inner.durable) ==>
                r == Refuses(RolledBack) && View() == old(View()).(frozen := true)
      ensures readable && !Behind(old(View()), inner.durable) ==>
                r == Yields(inner.durable) && View() == HandleAdopt(old(View()), inner.durable)
    {
      if !readable { return Refuses(Unreadable); }
      var recovered := inner.durable;
      if committed.Some? && recovered.Some? && recovered.value.generation < committed.value {
        frozen := true;
        return Refuses(RolledBack);
      }
      Adopt(recovered);
      r := Yields(recovered);
    }
  }

  // Any number of handles on one store that does not go back.

  /**
    One handle among many, with two things the code does not keep: what it last
    recovered or published, and every generation it offered to the store.
   */
  datatype Seat<+C> = Seat(handle: Handle, seen: Option<Stamped<C>>, attempted: seq<u64>)

  /** The store, as everything that ever landed in it, and the seats on it. */
  datatype World<C> = World(landed: seq<Stamped<C>>, seats: map<nat, Seat<C>>) {
    function Durable(): Option<Stamped<C>> {
      if landed == [] then None else Some(landed[|landed| - 1])
    }
  }

  datatype Step<C> =
    | Open(seat: nat)
    | Close(seat: nat)
    | Recover(seat: nat)
    | RecoverNotBehind(seat: nat)
    | Publish(seat: nat, current: u64, content: C, write: Write)

  function Adopting<C>(seat: Seat<C>, durable: Option<Stamped<C>>): Seat<C> {
    seat.(handle := HandleAdopt(seat.handle, durable), seen := durable)
  }

  /** A candidate, numbered by `NextGeneration`, offered through the handle. */
  function Publishing<C>(seat: Seat<C>, durable: Option<Stamped<C>>, candidate: Stamped<C>,
        w: Write): (Seat<C>, Option<Stamped<C>>) {
    var (h, durable', outcome) := HandleCommit(seat.handle, durable, candidate, w);
    if seat.handle.frozen then (seat, durable)
    else
      var seen := if outcome.Committed? then Some(candidate) else seat.seen;
      (Seat(h, seen, seat.attempted + [candidate.generation]), durable')
  }

  /** What the store holds after a write; a landed write always carries a new generation. */
  function Landing<C>(w: World<C>, durable: Option<Stamped<C>>): World<C> {
    if durable.None? || GenerationOf(durable) == GenerationOf(w.Durable()) then w
    else w.(landed := w.landed + [durable.value])
  }

  function Apply<C>(w: World<C>, step: Step<C>): World<C> {
    match step
    case Open(i) => if i in w.seats then w else w.(seats := w.seats[i := Seat(NewHandle, None, [])])
    case Close(i) => w.(seats := w.seats - {i})
    case Recover(i) => if i !in w.seats then w else w.(seats := w.seats[i := Adopting(w.seats[i], w.Durable())])
    case RecoverNotBehind(i) =>
      if i !in w.seats then w
      else if Behind(w.seats[i].handle, w.Durable()) then
        w.(seats := w.seats[i := w.seats[i].(handle := w.seats[i].handle.(frozen := true))])
      else w.(seats := w.seats[i := Adopting(w.seats[i], w.Durable())])
    case Publish(i, current, content, write) =>
      if i !in w.seats || !Possible(write) then w
      else
        var next := NextGeneration(w.seats[i].handle, current);
        if next.None? then w
        else
          var (seat, durable) := Publishing(w.seats[i], w.Durable(), Stamped(next.value, content), write);
          Landing(w.(seats := w.seats[i := seat]), durable)
  }

  function Run<C>(w: World<C>, steps: seq<Step<C>>): World<C>
    decreases |steps|
  {
    if steps == [] then w else Apply(Run(w, steps[..|steps| - 1]), steps[|steps| - 1])
  }

  ghost predicate Ascending(xs: seq<u64>) {
    forall i, j | 0 <= i < j < |xs| :: xs[i] < xs[j]
  }

  ghost predicate GenerationsAscend<C>(landed: seq<Stamped<C>>) {
    forall i, j | 0 <= i < j < |landed| :: landed[i].generation < landed[j].generation
  }

  ghost predicate SeatOk<C>(landed: seq<Stamped<C>>, s: Seat<C>) {
    && s.handle.observed == GenerationOf(s.seen)
    && (s.seen.Some? ==> s.seen.value in landed && s.seen.value.generation <= s.handle.highWater)
    && Ascending(s.attempted)
    && (forall g | g in s.attempted :: g <= s.handle.highWater)
    && (s.handle.committed.Some? ==> s.handle.committed.value <= s.handle.highWater)
    && (s.handle.committed.Some? ==> landed != [] && s.handle.committed.value <= landed[|landed| - 1].generation)
    && (s.seen.Some? ==> s.handle.committed == Some(s.seen.value.generation))
  }

  ghost predicate Inv<C>(w: World<C>) {
    && GenerationsAscend(w.landed)
    && forall i | i in w.seats :: SeatOk(w.landed, w.seats[i])
  }

  /** One landed snapshot per generation. */
  lemma SameGeneration<C>(landed: seq<Stamped<C>>, a: Stamped<C>, b: Stamped<C>)
    requires GenerationsAscend(landed) && a in landed && b in landed && a.generation == b.generation
    ensures a == b
  {
  }

  /**
    The store holds the generation a handle last saw only when it still holds the
    very snapshot the handle last saw.
   */
  lemma PassingTheFence<C>(w: World<C>, i: nat)
    requires Inv(w) && i in w.seats
    requires GenerationOf(w.Durable()) == w.seats[i].handle.observed
    ensures w.Durable() == w.seats[i].seen
  {
    assert SeatOk(w.landed, w.seats[i]);
    if w.landed != [] && w.seats[i].seen.Some? {
      SameGeneration(w.landed, w.landed[|w.landed| - 1], w.seats[i].seen.value);
    }
  }

  lemma SeatOkGrows<C>(landed: seq<Stamped<C>>, more: Stamped<C>, s: Seat<C>)
    requires SeatOk(landed, s)
    requires landed != [] ==> landed[|landed| - 1].generation < more.generation
    ensures SeatOk(landed + [more], s)
  {
  }

  /** What one publication did to the chain of landed snapshots. */
  ghost predicate PublishesOnChain<C>(w: World<C>, w': World<C>, i: nat)
    requires i in w.seats && i in w'.seats
  {
    var seat, seat' := w.seats[i], w'.seats[i];
    // A latched handle reaches nothing.
    && (seat.handle.frozen ==> w' == w)
    // Whatever lands is one snapshot, above all others, over exactly what its writer last saw.
    && (w'.landed != w.landed ==>
          && |w'.landed| == |w.landed| + 1
          && w'.landed[..|w.landed|] == w.landed
          && w.Durable() == seat.seen
          && forall k | 0 <= k < |w.landed| :: w.landed[k].generation < w'.landed[|w.landed|].generation)
    // An offered generation was never offered by this handle before.
    && (seat'.attempted == seat.attempted
        || exists g :: seat'.attempted == seat.attempted + [g] && g !in seat.attempted)
    // The handle is left unlatched only by a write that is what the store now holds.
    && (seat'.attempted != seat.attempted && !seat'.handle.frozen ==>
          w'.Durable() == seat'.seen && w'.landed != w.landed)
    // No other handle is touched.
    && forall j | j in w.seats && j != i :: j in w'.seats && w'.seats[j] == w.seats[j]
  }

  lemma AscendingMore(xs: seq<u64>, x: u64)
    requires Ascending(xs) && forall y | y in xs :: y < x
    ensures Ascending(xs + [x])
  {
    forall a, b | 0 <= a < b < |xs + [x]| ensures (xs + [x])[a] < (xs + [x])[b] {
      assert xs[a] in xs;
    }
  }

  /** A seat after its candidate was offered: nothing landed, or the candidate did. */
  lemma SeatAfterPublishing<C>(landed: seq<Stamped<C>>, seat: Seat<C>, durable: Option<Stamped<C>>,
        candidate: Stamped<C>, w: Write)
    requires SeatOk(landed, seat) && Possible(w) && !seat.handle.frozen
    requires durable == (if landed == [] then None else Some(landed[|landed| - 1]))
    requires seat.handle.highWater < candidate.generation
    ensures var (seat', durable') := Publishing(seat, durable, candidate, w);
            var passes := GenerationOf(durable) == seat.handle.observed;
            && durable' == (if passes && w.lands then Some(candidate) else durable)
            && SeatOk(if passes && w.lands then landed + [candidate] else landed, seat')
            && candidate.generation !in seat.attempted && seat'.attempted == seat.attempted + [candidate.generation]
            && (!seat'.handle.frozen ==> passes && w.lands && seat'.seen == Some(candidate))
  {
    AscendingMore(seat.attempted, candidate.generation);
    if GenerationOf(durable) == seat.handle.observed {
      SeatOkGrows(landed, candidate, seat);
    }
    assert (landed + [candidate])[|landed|] == candidate;
  }

  /** The world after an offered candidate, spelled out. */
  lemma PublishSpelled<C>(w: World<C>, i: nat, current: u64, content: C, write: Write)
    requires Inv(w) && i in w.seats && Possible(write)
    requires !w.seats[i].handle.frozen && NextGeneration(w.seats[i].handle, current).Some?
    ensures var candidate := Stamped(NextGeneration(w.seats[i].handle, current).value, content);
            var seat' := Publishing(w.seats[i], w.Durable(), candidate, write).0;
            var lands := GenerationOf(w.Durable()) == w.seats[i].handle.observed && write.lands;
            Apply(w, Publish(i, current, content, write))
            == World(if lands then w.landed + [candidate] else w.landed, w.seats[i := seat'])
  {
    assert SeatOk(w.landed, w.seats[i]);
    SeatAfterPublishing(w.landed, w.seats[i], w.Durable(),
      Stamped(NextGeneration(w.seats[i].handle, current).value, content), write);
  }

  lemma PublishLanded<C>(w: World<C>, w': World<C>, i: nat, candidate: Stamped<C>, seat': Seat<C>)
    requires Inv(w) && i in w.seats && !w.seats[i].handle.frozen
    requires GenerationOf(w.Durable()) == w.seats[i].handle.observed
    requires w' == World(w.landed + [candidate], w.seats[i := seat'])
    requires SeatOk(w'.landed, seat') && w.seats[i].handle.highWater < candidate.generation
    requires seat'.attempted == w.seats[i].attempted + [candidate.generation]
             && candidate.generation !in w.seats[i].attempted
    requires !seat'.handle.frozen ==> seat'.seen == Some(candidate)
    ensures Inv(w') && PublishesOnChain(w, w', i)
  {
    assert SeatOk(w.landed, w.seats[i]);
    PassingTheFence(w, i);
    forall j | j in w.seats ensures SeatOk(w'.landed, w.seats[j]) { SeatOkGrows(w.landed, candidate, w.seats[j]); }
  }

  lemma PublishKeeps<C>(w: World<C>, i: nat, current: u64, content: C, write: Write)
    requires Inv(w) && i in w.seats
    ensures var w' := Apply(w, Publish(i, current, content, write));
            Inv(w') && i in w'.seats && PublishesOnChain(w, w', i)
  {
    var seat := w.seats[i];
    var next := NextGeneration(seat.handle, current);
    assert SeatOk(w.landed, seat);
    if !Possible(write) || next.None? {
    } else if seat.handle.frozen {
      assert w.seats[i := seat] == w.seats;
    } else {
      var candidate := Stamped(next.value, content);
      var seat' := Publishing(seat, w.Durable(), candidate, write).0;
      var w' := Apply(w, Publish(i, current, content, write));
      PublishSpelled(w, i, current, content, write);
      SeatAfterPublishing(w.landed, seat, w.Durable(), candidate, write);
      if GenerationOf(w.Durable()) == seat.handle.observed && write.lands {
        PublishLanded(w, w', i, candidate, seat');
      }
    }
  }

  /** A recovery that meets something older than committed latches and adopts nothing; any other lifts the latch. */
  lemma OlderThanCommittedLatches<C>(w: World<C>, i: nat)
    requires i in w.seats && w.landed != []
    ensures var h, last := w.seats[i].handle, w.landed[|w.landed| - 1];
            var w' := Apply(w, RecoverNotBehind(i));
            && i in w'.seats && w'.landed == w.landed
            && if h.committed.Some? && last.generation < h.committed.value
               then w'.seats[i].handle == h.(frozen := true) && w'.seats[i].seen == w.seats[i].seen
               else w'.seats[i].handle.observed == Some(last.generation) && !w'.seats[i].handle.frozen
                    && w'.seats[i].seen == Some(last)
  {
  }

  lemma RecoverKeeps<C>(w: World<C>, i: nat)
    requires Inv(w) && i in w.seats
    ensures !Behind(w.seats[i].handle, w.Durable())
    ensures Inv(w.(seats := w.seats[i := Adopting(w.seats[i], w.Durable())]))
  {
    assert SeatOk(w.landed, w.seats[i]);
    if w.landed != [] {
      assert w.landed[|w.landed| - 1] in w.landed;
      assert !Behind(w.seats[i].handle, w.Durable());
    }
  }

  lemma StepKeeps<C>(w: World<C>, step: Step<C>)
    requires Inv(w)
    ensures Inv(Apply(w, step))
  {
    match step
    case Open(i) => assert SeatOk(w.landed, Seat(NewHandle, None, []));
    case Close(i) =>
    case Recover(i) => if i in w.seats { RecoverKeeps(w, i); }
    case RecoverNotBehind(i) => if i in w.seats { RecoverKeeps(w, i); }
    case Publish(i, current, content, write) => if i in w.seats { PublishKeeps(w, i, current, content, write); }
  }

  lemma {:induction false} RunKeeps<C>(steps: seq<Step<C>>)
    ensures Inv(Run(World([], map[]), steps))
    decreases |steps|
  {
    if steps != [] {
      RunKeeps(steps[..|steps| - 1]);
      StepKeeps(Run(World([], map[]), steps[..|steps| - 1]), steps[|steps| - 1]);
    }
  }

  /**
    Over every interleaving of openings, closings, recoveries and publications by any
    number of handles, the snapshots that land form one chain.
   */
  lemma CommitsFormOneChain<C>(steps: seq<Step<C>>, i: nat, current: u64, content: C, write: Write)
    ensures var w := Run(World([], map[]), steps);
            var w' := Apply(w, Publish(i, current, content, write));
            && GenerationsAscend(w.landed) && GenerationsAscend(w'.landed)
            && (i in w.seats ==> i in w'.seats && Ascending(w'.seats[i].attempted) && PublishesOnChain(w, w', i))
            && (i !in w.seats ==> w' == w)
  {
    RunKeeps(steps);
    var w := Run(World([], map[]), steps);
    StepKeeps(w, Publish(i, current, content, write));
    if i in w.seats {
      PublishKeeps(w, i, current, content, write);
      assert SeatOk(Apply(w, Publish(i, current, content, write)).landed,
        Apply(w, Publish(i, current, content, write)).seats[i]);
    }
  }

  /** A store that never goes back is never taken for one that did. */
  lemma NoFalseRollback<C>(steps: seq<Step<C>>, i: nat)
    ensures var w := Run(World([], map[]), steps);
            i in w.seats ==> !Behind(w.seats[i].handle, w.Durable())
  {
    RunKeeps(steps);
    if i in Run(World([], map[]), steps).seats { RecoverKeeps(Run(World([], map[]), steps), i); }
  }
}
