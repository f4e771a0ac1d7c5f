/**
  Roster controls held until their predecessor arrives: at most four, one per revision,
  in ascending revision, and the record they are kept in.

  What a roster is belongs to another crate, so rosters come with the functions this
  one asks of them.
 */
module DeferredRosters {
  import opened Bytes
  import opened Order
  import Outbox

  type GroupError = Outbox.GroupError
  type Member = Outbox.Member
  type Result<+T> = Outbox.Result<T>

  const MAX_DEFERRED_ROSTERS := 4
  const GROUP_ID_LEN := 16
  const TAG: bytes := [0x54, 0x43, 0x47, 0x51] // TCGQ

  datatype Roster<!R> = Roster(
    revision: R -> u64,
    predecessor: R -> bytes,
    groupId: R -> bytes,
    authority: R -> Member,
    encode: R -> Result<bytes>,
    decode: bytes -> Result<R>)

  datatype Hold = Held | Duplicate | Refused

  /** A view: the revision it is at and the digest of its roster. */
  datatype View = View(revision: u64, digest: bytes)

  function ByRevision<R>(t: Roster<R>): (R, R) -> bool { (a, b) => t.revision(a) <= t.revision(b) }

  function IndexOf<R>(t: Roster<R>, xs: seq<R>, revision: u64): (k: Option<nat>)
    ensures k.Some? ==> k.value < |xs| && t.revision(xs[k.value]) == revision
    ensures k.None? ==> forall i | 0 <= i < |xs| :: t.revision(xs[i]) != revision
  {
    if xs == [] then None
    else if t.revision(xs[0]) == revision then Some(0)
    else
      var k := IndexOf(t, xs[1..], revision);
      if k.None? then None else Some(k.value + 1)
  }

  function AfterHold<R(==)>(t: Roster<R>, xs: seq<R>, r: R): (Hold, seq<R>) {
    match IndexOf(t, xs, t.revision(r))
    case Some(k) => (if xs[k] == r then Duplicate else Refused, xs)
    case None =>
      if |xs| == MAX_DEFERRED_ROSTERS then (Refused, xs) else (Held, Sort(xs + [r], ByRevision(t)))
  }

  /** A full queue gives up its highest control for a lower one of a revision it does not hold. */
  predicate MakesRoom<R>(t: Roster<R>, xs: seq<R>, r: R) {
    |xs| == MAX_DEFERRED_ROSTERS && IndexOf(t, xs, t.revision(r)).None? && t.revision(r) < t.revision(xs[|xs| - 1])
  }

  function AfterHoldLowest<R(==)>(t: Roster<R>, xs: seq<R>, r: R): (Hold, seq<R>) {
    AfterHold(t, if MakesRoom(t, xs, r) then xs[..|xs| - 1] else xs, r)
  }

  class DeferredRosters<R(==, !new)> {
    const t: Roster<R>
    var rosters: seq<R>

    constructor (t: Roster<R>)
      ensures this.t == t && rosters == []
    {
      this.t := t;
      rosters := [];
    }

    /** A fork of a held revision is refused and the first is kept; a refusal or a duplicate changes nothing. */
    method HoldRoster(roster: R) returns (r: Hold)
      modifies this
      ensures (r, rosters) == AfterHold(t, old(rosters), roster)
      ensures r != Held ==> rosters == old(rosters)
    {
      var k := IndexOf(t, rosters, t.revision(roster));
      if k.Some? {
        if rosters[k.value] == roster { return Duplicate; }
        return Refused;
      }
      if |rosters| == MAX_DEFERRED_ROSTERS { return Refused; }
      rosters := rosters + [roster];
      rosters := Sort(rosters, ByRevision(t));
      return Held;
    }

    method HoldKeepingLowest(roster: R) returns (r: Hold)
      modifies this
      ensures (r, rosters) == AfterHoldLowest(t, old(rosters), roster)
      ensures r != Held ==> rosters == old(rosters)
    {
      if |rosters| == MAX_DEFERRED_ROSTERS && IndexOf(t, rosters, t.revision(roster)).None?
         && t.revision(roster) < t.revision(rosters[|rosters| - 1]) {
        rosters := rosters[..|rosters| - 1];
        NotInFront(t, old(rosters), t.revision(roster));
      }
      r := HoldRoster(roster);
    }

    /** Exactly the controls above the revision stay, and an ascending queue stays ascending. */
    method PruneThrough(revision: u64)
      modifies this
      ensures forall x :: x in rosters <==> x in old(rosters) && t.revision(x) > revision
      ensures Ascending(t, old(rosters)) ==> Ascending(t, rosters)
      ensures rosters == Keep(old(rosters), x => t.revision(x) > revision)
    {
      var kept: seq<R> := [];
      for i := 0 to |rosters|
        invariant rosters == old(rosters) && kept == Keep(rosters[..i], x => t.revision(x) > revision)
      {
        assert rosters[..i + 1][..i] == rosters[..i];
        if t.revision(rosters[i]) > revision { kept := kept + [rosters[i]]; }
      }
      assert rosters[..|rosters|] == rosters;
      if Ascending(t, rosters) { KeepAscends(t, rosters, x => t.revision(x) > revision); }
      rosters := kept;
    }

    /** Exactly the controls of other revisions stay, and an ascending queue stays ascending. */
    method Remove(revision: u64)
      modifies this
      ensures forall x :: x in rosters <==> x in old(rosters) && t.revision(x) != revision
      ensures Ascending(t, old(rosters)) ==> Ascending(t, rosters)
      ensures rosters == Keep(old(rosters), x => t.revision(x) != revision)
    {
      var kept: seq<R> := [];
      for i := 0 to |rosters|
        invariant rosters == old(rosters) && kept == Keep(rosters[..i], x => t.revision(x) != revision)
      {
        assert rosters[..i + 1][..i] == rosters[..i];
        if t.revision(rosters[i]) != revision { kept := kept + [rosters[i]]; }
      }
      assert rosters[..|rosters|] == rosters;
      if Ascending(t, rosters) { KeepAscends(t, rosters, x => t.revision(x) != revision); }
      rosters := kept;
    }

    /** The held control that succeeds the view, if one does. */
    method NextFor(view: View) returns (next: Option<R>)
      ensures next.Some? ==> next.value in rosters
      ensures next.Some? ==> t.revision(next.value) == view.revision + 1 && t.predecessor(next.value) == view.digest
      ensures next.None? ==>
                forall x | x in rosters :: t.revision(x) == view.revision + 1 ==> t.predecessor(x) != view.digest
    {
      for i := 0 to |rosters|
        invariant forall j | 0 <= j < i :: !Succeeds(t, view, rosters[j])
      {
        if Succeeds(t, view, rosters[i]) { return Some(rosters[i]); }
      }
      return None;
    }
  }

  predicate Succeeds<R>(t: Roster<R>, view: View, r: R) {
    view.revision < U64_MAX && t.revision(r) == view.revision + 1 && t.predecessor(r) == view.digest
  }

  lemma NotInFront<R>(t: Roster<R>, xs: seq<R>, revision: u64)
    requires xs != [] && IndexOf(t, xs, revision).None?
    ensures IndexOf(t, xs[..|xs| - 1], revision).None?
  {
    var front := xs[..|xs| - 1];
    assert forall i | 0 <= i < |front| :: front[i] == xs[i];
  }

  // What holding one control does, said of the controls held.

  /** A control of the same revision is held. */
  ghost predicate IsHeld<R>(t: Roster<R>, xs: seq<R>, r: R) { exists x | x in xs :: t.revision(x) == t.revision(r) }

  lemma IndexMeans<R(!new)>(t: Roster<R>, xs: seq<R>, r: R)
    requires Ascending(t, xs)
    ensures IndexOf(t, xs, t.revision(r)).Some? <==> IsHeld(t, xs, r)
    ensures var k := IndexOf(t, xs, t.revision(r)); k.Some? ==> (xs[k.value] == r <==> r in xs)
  {
    var k := IndexOf(t, xs, t.revision(r));
    if k.Some? && r in xs {
      var i :| 0 <= i < |xs| && xs[i] == r;
      assert ByRevision(t)(xs[i], xs[k.value]) && ByRevision(t)(xs[k.value], xs[i]);
    }
  }

  /**
    A control held already is a duplicate; another of its revision, or any when four are
    held, is refused; every other joins the ones held.
   */
  lemma HoldExactly<R(!new)>(t: Roster<R>, xs: seq<R>, r: R)
    requires Ascending(t, xs) && |xs| <= 4
    ensures var (hold, ys) := AfterHold(t, xs, r);
            && (hold == Duplicate <==> r in xs)
            && (hold == Refused <==> r !in xs && (IsHeld(t, xs, r) || |xs| == 4))
            && multiset(ys) == (if hold == Held then multiset(xs) + multiset{r} else multiset(xs))
  {
    IndexMeans(t, xs, r);
    assert multiset(xs + [r]) == multiset(xs) + multiset{r};
  }

  /**
    When four are held, one lower than some of them is held too, in place of the highest;
    a higher one is refused.
   */
  lemma HoldLowestExactly<R(!new)>(t: Roster<R>, xs: seq<R>, r: R)
    requires Ascending(t, xs) && |xs| <= 4
    ensures var (hold, ys) := AfterHoldLowest(t, xs, r);
            && (hold == Duplicate <==> r in xs)
            && (hold == Refused <==>
                  r !in xs && (IsHeld(t, xs, r) || (|xs| == 4 && forall x | x in xs :: t.revision(x) < t.revision(r))))
            && (hold != Held ==> ys == xs)
            && (hold == Held && |xs| < 4 ==> multiset(ys) == multiset(xs) + multiset{r})
            && (hold == Held && |xs| == 4 ==> multiset(ys) == multiset(xs[..3]) + multiset{r})
  {
    IndexMeans(t, xs, r);
    if |xs| == 4 && !IsHeld(t, xs, r) {
      assert xs[3] in xs && t.revision(xs[3]) != t.revision(r);
      assert forall i | 0 <= i < 3 :: !ByRevision(t)(xs[3], xs[i]);
      if t.revision(r) < t.revision(xs[3]) {
        NotInFront(t, xs, t.revision(r));
        assert multiset(xs[..3] + [r]) == multiset(xs[..3]) + multiset{r};
      }
    } else if |xs| < 4 {
      HoldExactly(t, xs, r);
    }
  }

  // The ledger: the first control ever offered for each revision, in order, with no bound.

  function Ledger<R(==)>(t: Roster<R>, offers: seq<R>): seq<R>
    decreases |offers|
  {
    if offers == [] then []
    else
      var earlier, r := Ledger(t, offers[..|offers| - 1]), offers[|offers| - 1];
      if IndexOf(t, earlier, t.revision(r)).Some? then earlier else Insert(earlier, r, ByRevision(t))
  }

  /** Controls offered to an empty queue of a coordinator without a view. */
  function Offered<R(==)>(t: Roster<R>, offers: seq<R>): seq<R>
    decreases |offers|
  {
    if offers == [] then [] else AfterHoldLowest(t, Offered(t, offers[..|offers| - 1]), offers[|offers| - 1]).1
  }

  ghost predicate Ascending<R>(t: Roster<R>, xs: seq<R>) { Strict(xs, ByRevision(t)) }

  lemma RevisionsAreOrdered<R(!new)>(t: Roster<R>)
    ensures TotalPreorder(ByRevision(t))
  {
  }

  function Lowest<R>(xs: seq<R>): seq<R> { if |xs| <= MAX_DEFERRED_ROSTERS then xs else xs[..MAX_DEFERRED_ROSTERS] }

  /** Inserting at or after position `n` leaves the first `n`; before it, pushes the last of them out. */
  lemma {:induction false} InsertPrefix<R(!new)>(xs: seq<R>, r: R, le: (R, R) -> bool, n: nat)
    requires TotalPreorder(le) && Sorted(xs, le) && 0 < n <= |xs|
    ensures |Insert(xs, r, le)| == |xs| + 1
    ensures le(xs[n - 1], r) ==> Insert(xs, r, le)[..n] == xs[..n]
    ensures !le(xs[n - 1], r) ==> Insert(xs, r, le)[..n] == Insert(xs[..n - 1], r, le)
    decreases |xs|
  {
    InsertLength(xs, r, le);
    InsertLength(xs[..n - 1], r, le);
    var front, last := xs[..|xs| - 1], xs[|xs| - 1];
    if le(last, r) {
      assert n < |xs| ==> le(xs[n - 1], last);
    } else if n < |xs| {
      FrontSorted(xs, le);
      assert front[..n] == xs[..n] && front[..n - 1] == xs[..n - 1];
      InsertPrefix(front, r, le, n);
      assert Insert(xs, r, le)[..n] == Insert(front, r, le)[..n];
    } else {
      InsertLength(front, r, le);
      assert Insert(xs, r, le)[..n] == Insert(front, r, le);
    }
  }

  lemma InsertLength<R>(xs: seq<R>, r: R, le: (R, R) -> bool)
    ensures |Insert(xs, r, le)| == |xs| + 1
  {
    assert |Insert(xs, r, le)| == |multiset(Insert(xs, r, le))|;
  }

  lemma SortIsInsert<R(!new)>(xs: seq<R>, r: R, le: (R, R) -> bool)
    requires Sorted(xs, le)
    ensures Sort(xs + [r], le) == Insert(xs, r, le)
  {
    assert (xs + [r])[..|xs|] == xs;
    SortOfSorted(xs, le);
  }

  lemma NotHeldIsApart<R>(t: Roster<R>, xs: seq<R>, r: R)
    requires IndexOf(t, xs, t.revision(r)).None?
    ensures forall y | y in xs :: !(ByRevision(t)(r, y) && ByRevision(t)(y, r))
  {
  }

  lemma {:induction false} LedgerAscends<R(!new)>(t: Roster<R>, offers: seq<R>)
    ensures Ascending(t, Ledger(t, offers))
    decreases |offers|
  {
    if offers != [] {
      var earlier, r := Ledger(t, offers[..|offers| - 1]), offers[|offers| - 1];
      LedgerAscends(t, offers[..|offers| - 1]);
      if IndexOf(t, earlier, t.revision(r)).None? {
        RevisionsAreOrdered(t);
        NotHeldIsApart(t, earlier, r);
        InsertStrict(earlier, r, ByRevision(t));
      }
    }
  }

  /** Nothing but first offers is in the ledger, and every revision offered is. */
  lemma {:induction false} LedgerIsFirstOffers<R(!new)>(t: Roster<R>, offers: seq<R>, r: R)
    ensures r in Ledger(t, offers) <==> exists k :: FirstOffer(t, offers, k, r)
    decreases |offers|
  {
    if offers != [] {
      var init, last := offers[..|offers| - 1], offers[|offers| - 1];
      assert init + [last] == offers;
      LedgerIsFirstOffers(t, init, r);
      FirstOfferGrows(t, init, last, r);
      LedgerHolds(t, init, t.revision(last));
      LedgerGrows(t, init, last, r);
    }
  }

  lemma LedgerGrows<R(!new)>(t: Roster<R>, init: seq<R>, last: R, r: R)
    ensures r in Ledger(t, init + [last]) <==>
            r in Ledger(t, init) || (r == last && IndexOf(t, Ledger(t, init), t.revision(last)).None?)
  {
    assert (init + [last])[..|init|] == init;
    var earlier := Ledger(t, init);
    assert r in multiset(Insert(earlier, last, ByRevision(t))) <==> r in multiset(earlier) + multiset{last};
  }

  /** `r` was the `k`-th offer and the first of its revision. */
  ghost predicate FirstOffer<R>(t: Roster<R>, offers: seq<R>, k: nat, r: R) {
    k < |offers| && offers[k] == r && forall j | 0 <= j < k :: t.revision(offers[j]) != t.revision(r)
  }

  lemma FirstOfferGrows<R(!new)>(t: Roster<R>, offers: seq<R>, last: R, r: R)
    ensures (exists k :: FirstOffer(t, offers + [last], k, r)) <==>
            (exists k :: FirstOffer(t, offers, k, r)) || FirstOffer(t, offers + [last], |offers|, r)
  {
    var longer := offers + [last];
    forall k: nat | k < |offers| ensures FirstOffer(t, longer, k, r) <==> FirstOffer(t, offers, k, r) {
      assert forall j | 0 <= j < k :: longer[j] == offers[j];
    }
  }

  ghost predicate WasOffered<R>(t: Roster<R>, offers: seq<R>, revision: u64) {
    exists k | 0 <= k < |offers| :: t.revision(offers[k]) == revision
  }

  lemma WasOfferedGrows<R>(t: Roster<R>, offers: seq<R>, last: R, revision: u64)
    ensures WasOffered(t, offers + [last], revision) <==>
            WasOffered(t, offers, revision) || t.revision(last) == revision
  {
    var longer := offers + [last];
    assert longer[|offers|] == last;
    assert forall k | 0 <= k < |offers| :: longer[k] == offers[k];
  }

  /** A revision is in the ledger exactly if it was offered. */
  lemma {:induction false} LedgerHolds<R(!new)>(t: Roster<R>, offers: seq<R>, revision: u64)
    ensures IndexOf(t, Ledger(t, offers), revision).Some? <==> WasOffered(t, offers, revision)
    decreases |offers|
  {
    if offers != [] {
      var init, last := offers[..|offers| - 1], offers[|offers| - 1];
      assert init + [last] == offers;
      LedgerHolds(t, init, revision);
      WasOfferedGrows(t, init, last, revision);
      var earlier := Ledger(t, init);
      if IndexOf(t, earlier, t.revision(last)).None? { InsertHolds(t, earlier, last, revision); }
    }
  }

  lemma InsertHolds<R(!new)>(t: Roster<R>, xs: seq<R>, r: R, revision: u64)
    ensures IndexOf(t, Insert(xs, r, ByRevision(t)), revision).Some? <==>
            IndexOf(t, xs, revision).Some? || t.revision(r) == revision
  {
    var ys := Insert(xs, r, ByRevision(t));
    forall y ensures y in ys <==> y in xs || y == r {
      assert y in multiset(ys) <==> y in multiset(xs) + multiset{r};
    }
    if IndexOf(t, ys, revision).None? {
      forall i | 0 <= i < |xs| ensures t.revision(xs[i]) != revision { assert xs[i] in ys; }
      assert r in ys;
    } else {
      var y := ys[IndexOf(t, ys, revision).value];
      assert y in xs || y == r;
    }
  }

  /** A revision the ledger has beyond its four lowest is above all of them. */
  lemma BeyondIsHigher<R(!new)>(t: Roster<R>, ledger: seq<R>, revision: u64)
    requires Ascending(t, ledger) && IndexOf(t, ledger, revision).Some? && IndexOf(t, Lowest(ledger), revision).None?
    ensures |ledger| > MAX_DEFERRED_ROSTERS && revision > t.revision(ledger[MAX_DEFERRED_ROSTERS - 1])
  {
    var k := IndexOf(t, ledger, revision).value;
    var low := Lowest(ledger);
    assert forall i | 0 <= i < |low| :: low[i] == ledger[i];
    assert k > MAX_DEFERRED_ROSTERS - 1 ==> !ByRevision(t)(ledger[k], ledger[MAX_DEFERRED_ROSTERS - 1]);
  }

  /** With room: the queue is the whole ledger. */
  lemma NewWithRoom<R(!new)>(t: Roster<R>, ledger: seq<R>, r: R)
    requires Sorted(ledger, ByRevision(t)) && IndexOf(t, ledger, t.revision(r)).None? && |ledger| < MAX_DEFERRED_ROSTERS
    ensures AfterHoldLowest(t, ledger, r).1 == Insert(ledger, r, ByRevision(t))
  {
    SortIsInsert(ledger, r, ByRevision(t));
  }

  /** A full queue: a lower revision takes the place of the highest, a higher one is refused. */
  lemma NewWhenFull<R(!new)>(t: Roster<R>, low: seq<R>, r: R)
    requires Sorted(low, ByRevision(t)) && IndexOf(t, low, t.revision(r)).None? && |low| == MAX_DEFERRED_ROSTERS
    ensures AfterHoldLowest(t, low, r).1 == if ByRevision(t)(low[3], r) then low else Insert(low[..3], r, ByRevision(t))
  {
    if !ByRevision(t)(low[3], r) {
      NotInFront(t, low, t.revision(r));
      FrontSorted(low, ByRevision(t));
      SortIsInsert(low[..3], r, ByRevision(t));
    }
  }

  /** A new revision: what the queue does is what inserting into the ledger does to its four lowest. */
  lemma NewRevision<R(!new)>(t: Roster<R>, ledger: seq<R>, r: R)
    requires Ascending(t, ledger) && IndexOf(t, ledger, t.revision(r)).None?
    ensures AfterHoldLowest(t, Lowest(ledger), r).1 == Lowest(Insert(ledger, r, ByRevision(t)))
  {
    var le := ByRevision(t);
    RevisionsAreOrdered(t);
    StrictIsSorted(ledger, le);
    InsertLength(ledger, r, le);
    if |ledger| < MAX_DEFERRED_ROSTERS {
      NewWithRoom(t, ledger, r);
    } else {
      var low := ledger[..4];
      assert Lowest(ledger) == low && low[..3] == ledger[..3] && low[3] == ledger[3];
      assert forall i | 0 <= i < |low| :: low[i] == ledger[i];
      InsertPrefix(ledger, r, le, 4);
      NewWhenFull(t, low, r);
    }
  }

  lemma OldRevision<R(!new)>(t: Roster<R>, ledger: seq<R>, r: R)
    requires Ascending(t, ledger) && IndexOf(t, ledger, t.revision(r)).Some?
    ensures AfterHoldLowest(t, Lowest(ledger), r).1 == Lowest(ledger)
  {
    if IndexOf(t, Lowest(ledger), t.revision(r)).None? { BeyondIsHigher(t, ledger, t.revision(r)); }
  }

  /**
    Whatever the order of arrival, the queue of a coordinator without a view is the four
    lowest revisions ever offered, each with the first control offered for it.
   */
  lemma {:induction false} KeepsTheFourLowest<R(!new)>(t: Roster<R>, offers: seq<R>)
    ensures Offered(t, offers) == Lowest(Ledger(t, offers)) && Ascending(t, Ledger(t, offers))
    decreases |offers|
  {
    LedgerAscends(t, offers);
    if offers != [] {
      var init, r := offers[..|offers| - 1], offers[|offers| - 1];
      KeepsTheFourLowest(t, init);
      if IndexOf(t, Ledger(t, init), t.revision(r)).Some? { OldRevision(t, Ledger(t, init), r); }
        else { NewRevision(t, Ledger(t, init), r); }
    }
  }

  // Every queue the operations can leave.

  datatype Step<!R> = HoldOne(roster: R) | HoldLowest(roster: R) | Prune(revision: u64) | Drop(revision: u64)

  function Apply<R(==, !new)>(t: Roster<R>, xs: seq<R>, step: Step<R>): seq<R> {
    match step
    case HoldOne(r) => AfterHold(t, xs, r).1
    case HoldLowest(r) => AfterHoldLowest(t, xs, r).1
    case Prune(revision) => Keep(xs, x => t.revision(x) > revision)
    case Drop(revision) => Keep(xs, x => t.revision(x) != revision)
  }

  function Run<R(==, !new)>(t: Roster<R>, steps: seq<Step<R>>): seq<R>
    decreases |steps|
  {
    if steps == [] then [] else Apply(t, Run(t, steps[..|steps| - 1]), steps[|steps| - 1])
  }

  /** At most four controls, one per revision, ascending, all admitted by `ok`. */
  ghost predicate Queue<R>(t: Roster<R>, xs: seq<R>, ok: R -> bool) {
    |xs| <= MAX_DEFERRED_ROSTERS && Ascending(t, xs) && forall x | x in xs :: ok(x)
  }

  lemma HoldKeeps<R(!new)>(t: Roster<R>, xs: seq<R>, r: R, ok: R -> bool)
    requires Queue(t, xs, ok) && ok(r)
    ensures Queue(t, AfterHold(t, xs, r).1, ok)
  {
    if IndexOf(t, xs, t.revision(r)).None? && |xs| < MAX_DEFERRED_ROSTERS {
      var le := ByRevision(t);
      RevisionsAreOrdered(t);
      StrictIsSorted(xs, le);
      SortIsInsert(xs, r, le);
      NotHeldIsApart(t, xs, r);
      InsertStrict(xs, r, le);
      InsertLength(xs, r, le);
      var ys := Insert(xs, r, le);
      forall y | y in ys ensures ok(y) { assert y in multiset(ys); assert y == r || y in multiset(xs); }
    }
  }

  lemma {:induction false} KeepAscends<R(!new)>(t: Roster<R>, xs: seq<R>, p: R -> bool)
    requires Ascending(t, xs)
    ensures Ascending(t, Keep(xs, p))
    decreases |xs|
  {
    if xs != [] {
      var front, last := xs[..|xs| - 1], xs[|xs| - 1];
      KeepAscends(t, front, p);
      var r := Keep(front, p);
      forall i | 0 <= i < |r| ensures !ByRevision(t)(last, r[i]) { assert r[i] in front; }
    }
  }

  lemma StepKeeps<R(!new)>(t: Roster<R>, xs: seq<R>, step: Step<R>, ok: R -> bool)
    requires Queue(t, xs, ok) && (step.HoldOne? || step.HoldLowest? ==> ok(step.roster))
    ensures Queue(t, Apply(t, xs, step), ok)
  {
    match step
    case HoldOne(r) => HoldKeeps(t, xs, r, ok);
    case HoldLowest(r) =>
      var room := if MakesRoom(t, xs, r) then xs[..|xs| - 1] else xs;
      assert forall x | x in room :: x in xs;
      HoldKeeps(t, room, r, ok);
    case Prune(revision) => KeepAscends(t, xs, x => t.revision(x) > revision);
    case Drop(revision) => KeepAscends(t, xs, x => t.revision(x) != revision);
  }

  lemma {:induction false} RunKeeps<R(!new)>(t: Roster<R>, steps: seq<Step<R>>, ok: R -> bool)
    requires forall step | step in steps && (step.HoldOne? || step.HoldLowest?) :: ok(step.roster)
    ensures Queue(t, Run(t, steps), ok)
    decreases |steps|
  {
    if steps != [] {
      RunKeeps(t, steps[..|steps| - 1], ok);
      StepKeeps(t, Run(t, steps[..|steps| - 1]), steps[|steps| - 1], ok);
    }
  }

  // The checkpoint record.

  /** A control of this group and authority that encodes, and decodes back to itself. */
  predicate Recordable<R(==)>(t: Roster<R>, groupId: bytes, authority: Member, r: R) {
    && t.groupId(r) == groupId && t.authority(r) == authority
    && t.encode(r).Ok? && Fits32(t.encode(r).value) && t.decode(t.encode(r).value) == Outbox.Ok(r)
  }

  function PutRoster<R>(t: Roster<R>): (R, bytes) --> bytes {
    (r, tail) requires t.encode(r).Ok? && Fits32(t.encode(r).value) => PutLp32(t.encode(r).value, tail)
  }

  ghost predicate Encodes<R>(t: Roster<R>, xs: seq<R>) {
    forall x | x in xs :: t.encode(x).Ok? && Fits32(t.encode(x).value)
  }

  function Layout<R>(t: Roster<R>, groupId: bytes, xs: seq<R>): bytes
    requires |xs| < 0x100 && Encodes(t, xs)
  {
    TAG + (groupId + ([|xs|] + PutMany(xs, PutRoster(t), [])))
  }

  /** Why one control is not accepted after a revision. */
  function Refusal<R>(t: Roster<R>, groupId: bytes, authority: Member, previous: Option<u64>, r: R,
        preimage: bytes): Option<GroupError> {
    if t.groupId(r) != groupId || t.authority(r) != authority
      || (previous.Some? && previous.value >= t.revision(r)) then Some(Outbox.NonCanonical)
    else
      match t.encode(r)
      case Err(e) => Some(e)
      case Ok(b) => if b != preimage then Some(Outbox.NonCanonical) else None
  }

  function TakeRoster<R>(t: Roster<R>, groupId: bytes, authority: Member, previous: Option<u64>,
        b: bytes): Parse<R, GroupError> {
    var (preimage, rest) :- TakeLp32(b, Outbox.Malformed);
    match t.decode(preimage)
    case Err(e) => Stop(e)
    case Ok(r) =>
      var refusal := Refusal(t, groupId, authority, previous, r, preimage);
      if refusal.Some? then Stop(refusal.value) else Got(r, rest)
  }

  function TakeRosters<R>(t: Roster<R>, groupId: bytes, authority: Member, previous: Option<u64>, b: bytes,
        n: nat): Parse<seq<R>, GroupError>
    decreases n
  {
    if n == 0 then Got([], b)
    else
      var (r, rest) :- TakeRoster(t, groupId, authority, previous, b);
      var (rs, rest) :- TakeRosters(t, groupId, authority, Some(t.revision(r)), rest, n - 1);
      Got([r] + rs, rest)
  }

  function DecodeSpec<R>(t: Roster<R>, record: bytes, groupId: bytes, authority: Member): Result<seq<R>> {
    if !(TAG <= record) || |record| < 21 || record[4..20] != groupId || record[20] > MAX_DEFERRED_ROSTERS then
      Outbox.Err(Outbox.Malformed)
    else
      match TakeRosters(t, groupId, authority, None, record[21..], record[20])
      case Stop(e) => Outbox.Err(e)
      case Got(rs, rest) => if rest != [] then Outbox.Err(Outbox.Malformed) else Outbox.Ok(rs)
  }

  ghost predicate After<R>(t: Roster<R>, previous: Option<u64>, xs: seq<R>) {
    previous.None? || xs == [] || previous.value < t.revision(xs[0])
  }

  ghost predicate AllRecordable<R>(t: Roster<R>, groupId: bytes, authority: Member, xs: seq<R>) {
    forall x | x in xs :: Recordable(t, groupId, authority, x)
  }

  lemma AscendingTail<R(!new)>(t: Roster<R>, xs: seq<R>)
    requires xs != []
    ensures Ascending(t, xs) <==> Ascending(t, xs[1..]) && After(t, Some(t.revision(xs[0])), xs[1..])
  {
    var le, tail := ByRevision(t), xs[1..];
    if Ascending(t, tail) && After(t, Some(t.revision(xs[0])), tail) {
      forall i, j | 0 <= i < j < |xs| ensures !le(xs[j], xs[i]) {
        assert i > 0 ==> !le(tail[j - 1], tail[i - 1]);
        assert j > 1 ==> !le(tail[j - 1], tail[0]);
      }
    }
    if Ascending(t, xs) {
      assert tail != [] ==> !le(xs[1], xs[0]);
      forall i, j | 0 <= i < j < |tail| ensures !le(tail[j], tail[i]) { assert !le(xs[j + 1], xs[i + 1]); }
    }
  }

  lemma {:induction false} RostersReadBack<R(!new)>(t: Roster<R>, groupId: bytes, authority: Member,
        previous: Option<u64>, xs: seq<R>)
    requires AllRecordable(t, groupId, authority, xs) && Ascending(t, xs) && After(t, previous, xs)
    ensures Encodes(t, xs) && TakeRosters(t, groupId, authority, previous, PutMany(xs, PutRoster(t), []), |xs|)
            == Got(xs, [])
    decreases |xs|
  {
    if xs != [] {
      var r, tail := xs[0], xs[1..];
      AscendingTail(t, xs);
      RostersReadBack(t, groupId, authority, Some(t.revision(r)), tail);
      assert Recordable(t, groupId, authority, r);
      TakeLp32App(t.encode(r).value, PutMany(tail, PutRoster(t), []), Outbox.Malformed);
      assert [r] + tail == xs;
    }
  }

  lemma {:induction false} RostersOneSpelling<R(!new)>(t: Roster<R>, groupId: bytes, authority: Member,
        previous: Option<u64>, b: bytes, n: nat)
    ensures var p := TakeRosters(t, groupId, authority, previous, b, n);
            p.Got? ==>
              && |p.value| == n && AllRecordable(t, groupId, authority, p.value) && Ascending(t, p.value)
                && After(t, previous, p.value)
              && Encodes(t, p.value) && b == PutMany(p.value, PutRoster(t), p.rest)
    decreases n
  {
    var p := TakeRosters(t, groupId, authority, previous, b, n);
    if n != 0 && p.Got? {
      TakeLp32Canonical(b, Outbox.Malformed);
      var one := TakeRoster(t, groupId, authority, previous, b);
      RostersOneSpelling(t, groupId, authority, Some(t.revision(one.value)), one.rest, n - 1);
      AscendingTail(t, p.value);
      assert p.value[1..] == TakeRosters(t, groupId, authority, Some(t.revision(one.value)), one.rest, n - 1).value;
    }
  }

  lemma LayoutParts<R>(t: Roster<R>, groupId: bytes, xs: seq<R>)
    requires |xs| < 0x100 && Encodes(t, xs) && |groupId| == GROUP_ID_LEN
    ensures var record := Layout(t, groupId, xs);
            && TAG <= record && |record| >= 21 && record[4..20] == groupId && record[20] == |xs|
            && record[21..] == PutMany(xs, PutRoster(t), [])
  {
    var body := PutMany(xs, PutRoster(t), []);
    assert Layout(t, groupId, xs) == TAG + groupId + [|xs|] + body;
  }

  lemma SameParts(a: bytes, b: bytes)
    requires |a| >= 21 && |b| >= 21 && TAG <= a && TAG <= b && a[4..20] == b[4..20] && a[20] == b[20]
             && a[21..] == b[21..]
    ensures a == b
  {
    assert a == a[..4] + a[4..20] + [a[20]] + a[21..];
    assert b == b[..4] + b[4..20] + [b[20]] + b[21..];
  }

  /**
    A record is accepted exactly when it is the layout of at most four controls of the
    group and the authority, strictly ascending, each of which decodes to itself.
   */
  lemma AcceptedExactly<R(!new)>(t: Roster<R>, record: bytes, groupId: bytes, authority: Member, xs: seq<R>)
    requires |groupId| == GROUP_ID_LEN
    ensures DecodeSpec(t, record, groupId, authority) == Outbox.Ok(xs) <==>
            Queue(t, xs, r => Recordable(t, groupId, authority, r)) && Encodes(t, xs)
              && record == Layout(t, groupId, xs)
  {
    if DecodeSpec(t, record, groupId, authority) == Outbox.Ok(xs) {
      RostersOneSpelling(t, groupId, authority, None, record[21..], record[20]);
      LayoutParts(t, groupId, xs);
      SameParts(record, Layout(t, groupId, xs));
    }
    if Queue(t, xs, r => Recordable(t, groupId, authority, r)) {
      assert AllRecordable(t, groupId, authority, xs);
      RostersReadBack(t, groupId, authority, None, xs);
      LayoutParts(t, groupId, xs);
    }
  }

  /** Every queue that held only recordable controls survives its record. */
  lemma ReachableRoundTrips<R(!new)>(t: Roster<R>, groupId: bytes, authority: Member, steps: seq<Step<R>>)
    requires |groupId| == GROUP_ID_LEN
    requires forall step | step in steps && (step.HoldOne? || step.HoldLowest?) ::
             Recordable(t, groupId, authority, step.roster)
    ensures var xs := Run(t, steps);
            && |xs| <= MAX_DEFERRED_ROSTERS && Ascending(t, xs) && Encodes(t, xs)
            && DecodeSpec(t, Layout(t, groupId, xs), groupId, authority) == Outbox.Ok(xs)
  {
    var xs := Run(t, steps);
    RunKeeps(t, steps, r => Recordable(t, groupId, authority, r));
    AcceptedExactly(t, Layout(t, groupId, xs), groupId, authority, xs);
  }

  // The two routines of the source.

  /** The error of the first control that does not encode, if any. */
  function FirstError<R>(t: Roster<R>, xs: seq<R>): (e: Option<GroupError>)
    ensures e.None? <==> Encodes(t, xs)
  {
    if xs == [] then None
    else
      assert xs == [xs[0]] + xs[1..];
      match t.encode(xs[0])
      case Err(e) => Some(e)
      case Ok(b) => if !Fits32(b) then Some(Outbox.Malformed) else FirstError(t, xs[1..])
  }

  method EncodeRecord<R>(t: Roster<R>, groupId: bytes, rosters: seq<R>) returns (r: Result<bytes>)
    ensures |rosters| >= 0x100 ==> r == Outbox.Err(Outbox.Malformed)
    ensures |rosters| < 0x100 ==>
              r == (match FirstError(t, rosters)
                    case Some(e) => Outbox.Err(e)
                    case None => Outbox.Ok(Layout(t, groupId, rosters)))
  {
    if |rosters| >= 0x100 { return Outbox.Err(Outbox.Malformed); }
    var record: bytes := TAG + groupId + [|rosters|];
    ghost var head := record;
    assert rosters[0..] == rosters;
    for i := 0 to |rosters|
      invariant FirstError(t, rosters[i..]) == FirstError(t, rosters)
      invariant Encodes(t, rosters) ==>
                record + PutMany(rosters[i..], PutRoster(t), []) == head + PutMany(rosters, PutRoster(t), [])
    {
      assert rosters[i..][1..] == rosters[i + 1..];
      var preimage := t.encode(rosters[i]);
      if preimage.Err? { return Outbox.Err(preimage.error); }
      if |preimage.value| >= 0x1_0000_0000 { return Outbox.Err(Outbox.Malformed); }
      AppendRoster(t, record, rosters, i, preimage.value);
      record := record + U32(|preimage.value|) + preimage.value;
    }
    assert rosters[|rosters|..] == [] && record + [] == record;
    HeadAppends(groupId, |rosters|, PutMany(rosters, PutRoster(t), []));
    return Outbox.Ok(record);
  }

  lemma HeadAppends(groupId: bytes, n: byte, body: bytes)
    ensures TAG + groupId + [n] + body == TAG + (groupId + ([n] + body))
  {
    Assoc(TAG + groupId, [n], body);
    Assoc(TAG, groupId, [n] + body);
  }

  lemma AppendRoster<R>(t: Roster<R>, record: bytes, rosters: seq<R>, i: nat, preimage: bytes)
    requires i < |rosters| && t.encode(rosters[i]) == Outbox.Ok(preimage) && Fits32(preimage)
    ensures Encodes(t, rosters) ==>
              record + U32(|preimage|) + preimage + PutMany(rosters[i + 1..], PutRoster(t), [])
                == record + PutMany(rosters[i..], PutRoster(t), [])
  {
    if Encodes(t, rosters) {
      assert rosters[i..][1..] == rosters[i + 1..];
      var tail := PutMany(rosters[i + 1..], PutRoster(t), []);
      Assoc(record + U32(|preimage|), preimage, tail);
      Assoc(record, U32(|preimage|), preimage + tail);
    }
  }

  method TakeAll<R>(t: Roster<R>, groupId: bytes, authority: Member, body: bytes, count: nat)
        returns (r: Parse<seq<R>, GroupError>)
    ensures r == TakeRosters(t, groupId, authority, None, body, count)
  {
    var rosters: seq<R>, rest, left := [], body, count;
    ghost var whole := TakeRosters(t, groupId, authority, None, body, count);
    OntoNothing(whole);
    while left > 0
      invariant whole == Onto(rosters, TakeRosters(t, groupId, authority, Last(t, rosters), rest, left))
    {
      var one := TakeRoster(t, groupId, authority, Last(t, rosters), rest);
      if one.Stop? { return Stop(one.why); }
      OneMore(t, groupId, authority, rosters, rest, left);
      rosters, rest, left := rosters + [one.value], one.rest, left - 1;
    }
    assert rosters + [] == rosters;
    return Got(rosters, rest);
  }

  lemma OntoNothing<R>(p: Parse<seq<R>, GroupError>)
    ensures Onto([], p) == p
  {
    if p.Got? { assert [] + p.value == p.value; }
  }

  method DecodeRecord<R>(t: Roster<R>, record: bytes, groupId: bytes, authority: Member) returns (r: Result<seq<R>>)
    ensures r == DecodeSpec(t, record, groupId, authority)
  {
    if !(TAG <= record) || |record| < 21 || record[4..20] != groupId { return Outbox.Err(Outbox.Malformed); }
    if record[20] > MAX_DEFERRED_ROSTERS { return Outbox.Err(Outbox.Malformed); }
    var rosters := TakeAll(t, groupId, authority, record[21..], record[20]);
    if rosters.Stop? { return Outbox.Err(rosters.why); }
    if rosters.rest != [] { return Outbox.Err(Outbox.Malformed); }
    return Outbox.Ok(rosters.value);
  }

  function Last<R>(t: Roster<R>, xs: seq<R>): Option<u64> { if xs == [] then None else Some(t.revision(xs[|xs| - 1])) }

  ghost function Onto<R>(xs: seq<R>, p: Parse<seq<R>, GroupError>): Parse<seq<R>, GroupError> {
    if p.Stop? then p else Got(xs + p.value, p.rest)
  }

  lemma OneMore<R>(t: Roster<R>, groupId: bytes, authority: Member, xs: seq<R>, b: bytes, n: nat)
    requires n > 0 && TakeRoster(t, groupId, authority, Last(t, xs), b).Got?
    ensures var one := TakeRoster(t, groupId, authority, Last(t, xs), b);
            Onto(xs, TakeRosters(t, groupId, authority, Last(t, xs), b, n))
            == Onto(xs + [one.value], TakeRosters(t, groupId, authority, Some(t.revision(one.value)), one.rest, n - 1))
  {
    var one := TakeRoster(t, groupId, authority, Last(t, xs), b);
    var p := TakeRosters(t, groupId, authority, Some(t.revision(one.value)), one.rest, n - 1);
    if p.Got? { assert xs + ([one.value] + p.value) == (xs + [one.value]) + p.value; }
  }
}
