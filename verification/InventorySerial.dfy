/**
  What the account lock adds: transactions that take it run one at a time, so every
  interleaving leaves the database as some one-after-another run of the same mutations
  would, and a retry key takes effect at most once.
 */
module InventorySerial {
  import opened Bytes
  import opened InventoryTx
  import Inventory

  /** The committed rows of one account. */
  datatype Db = Db(state: Option<bytes>, mutations: map<bytes, (bytes, bytes)>)

  /** One mutation, run from beginning to end with no other at work. */
  function Mutate<S>(c: Config<S>, db: Db, key: bytes, request: bytes, rule: Rule<S>): (Answer<S>, Db) {
    if !c.known then (Failed(Refused(Inventory.UnknownUser)), db)
    else if key in db.mutations then (Replayed(c, db.mutations[key], request), db)
    else
      var pc := Computing(c, db.state, rule);
      if pc.Finished? then (pc.answer, db)
      else if pc.Ready? then
        var row := c.encode(pc.next);
        (Answered(pc.next), Db(Some(row), db.mutations[key := (request, row)]))
      else (Failed(Backend), db)
  }

  predicate Holding<S>(pc: Pc<S>) { pc.Locked? || pc.Unrecorded? || Computed(pc) }

  predicate IsFor<S(==)>(e: Entry<S>, key: bytes, request: bytes, value: S) {
    e.key == key && e.request == request && e.after == value
  }

  /** The answer is the result of a committed mutation with this key and request. */
  ghost predicate FromLog<S>(log: seq<Entry<S>>, key: bytes, request: bytes, value: S) {
    exists k | 0 <= k < |log| :: IsFor(log[k], key, request, value)
  }

  ghost predicate DistinctKeys<S>(log: seq<Entry<S>>) {
    forall i, j | 0 <= i < j < |log| :: log[i].key != log[j].key
  }

  ghost predicate TxSerial<S>(w: World<S>, t: nat)
    requires t in w.txs
  {
    var tx := w.txs[t];
    && (Holding(tx.pc) <==> w.accountLock == Some(t))
    && (tx.pc.Ready? ==> w.state == tx.pc.stored)
    && (tx.pc.Unrecorded? || Computed(tx.pc) ==> tx.key !in w.mutations)
    && (tx.pc.Finished? && tx.pc.answer.Answered? ==> FromLog(w.log, tx.key, tx.request, tx.pc.answer.value))
  }

  ghost predicate TxsSerial<S>(w: World<S>) {
    && (forall t | t in w.txs :: TxSerial(w, t))
    && (w.accountLock.Some? ==> w.accountLock.value in w.txs)
    && w.refusals == 0
  }

  ghost predicate Serial<S>(w: World<S>) { TxsSerial(w) && DistinctKeys(w.log) }

  lemma {:induction false} RecordedOnce<S>(c: Config<S>, log: seq<Entry<S>>, k: nat)
    requires DistinctKeys(log) && k < |log|
    ensures log[k].key in RecordsOf(c, log)
    ensures RecordsOf(c, log)[log[k].key] == (log[k].request, c.encode(log[k].after))
    decreases |log|
  {
    if k < |log| - 1 {
      RecordedOnce(c, log[..|log| - 1], k);
      assert log[k].key != log[|log| - 1].key;
    }
  }

  lemma {:induction false} RecordedBySomeone<S>(c: Config<S>, log: seq<Entry<S>>, key: bytes) returns (k: nat)
    requires key in RecordsOf(c, log)
    ensures k < |log| && log[k].key == key
    decreases |log|
  {
    if log[|log| - 1].key == key { k := |log| - 1; }
    else { k := RecordedBySomeone(c, log[..|log| - 1], key); }
  }

  /** A key with a recorded mutation is answered from it: its result, or a conflict. */
  lemma ReplayedFromLog<S(!new)>(c: Config<S>, w: World<S>, key: bytes, request: bytes) returns (k: nat)
    requires Lawful(c) && Explained(c, w) && DistinctKeys(w.log) && key in w.mutations
    ensures k < |w.log| && w.log[k].key == key
    ensures Replayed(c, w.mutations[key], request) ==
            if w.log[k].request == request then Answered(w.log[k].after)
              else Failed(Refused(Inventory.IdempotencyConflict))
  {
    k := RecordedBySomeone(c, w.log, key);
    RecordedOnce(c, w.log, k);
    assert Link(c, w.log, k);
  }

  /** A statement that commits nothing: only transaction `t` moved. */
  lemma QuietSerial<S>(w: World<S>, w': World<S>, t: nat)
    requires TxsSerial(w) && t in w.txs && t in w'.txs
    requires w'.state == w.state && w'.mutations == w.mutations && w'.log == w.log && w'.refusals == 0
    requires w'.txs == w.txs[t := w'.txs[t]]
    requires w'.accountLock == w.accountLock || (w.accountLock.None? && w'.accountLock == Some(t))
             || (w.accountLock == Some(t) && w'.accountLock.None?)
    requires TxSerial(w', t)
    ensures TxsSerial(w')
  {
    forall u | u in w'.txs ensures TxSerial(w', u) {
      if u != t { assert TxSerial(w, u); }
    }
  }

  lemma FinishSerial<S>(w: World<S>, t: nat, answer: Answer<S>)
    requires TxsSerial(w) && t in w.txs
    requires answer.Answered? ==> FromLog(w.log, w.txs[t].key, w.txs[t].request, answer.value)
    ensures TxsSerial(Finish(w, t, answer))
  {
    assert TxSerial(w, t);
    QuietSerial(w, Finish(w, t, answer), t);
  }

  lemma MoveSerial<S>(w: World<S>, t: nat, pc: Pc<S>)
    requires TxsSerial(w) && t in w.txs && Holding(w.txs[t].pc) && Holding(pc)
    requires pc.Ready? ==> w.state == pc.stored
    requires pc.Unrecorded? || Computed(pc) ==> w.txs[t].key !in w.mutations
    ensures TxsSerial(At(w, t, pc))
  {
    assert TxSerial(w, t);
    QuietSerial(w, At(w, t, pc), t);
  }

  lemma LockSerial<S>(c: Config<S>, w: World<S>, t: nat)
    requires c.serialize && TxsSerial(w)
    ensures TxsSerial(ApplyLock(c, w, t))
  {
    if t in w.txs && w.txs[t].pc.Begun? {
      assert TxSerial(w, t);
      if !c.known { FinishSerial(w, t, Failed(Refused(Inventory.UnknownUser))); }
      else if w.accountLock.None? { QuietSerial(w, ApplyLock(c, w, t), t); }
    }
  }

  lemma PriorSerial<S(!new)>(c: Config<S>, w: World<S>, t: nat)
    requires Lawful(c) && Explained(c, w) && Serial(w)
    ensures TxsSerial(ApplyPrior(c, w, t))
  {
    if t in w.txs && w.txs[t].pc.Locked? {
      var tx := w.txs[t];
      if tx.key in w.mutations {
        var k := ReplayedFromLog(c, w, tx.key, tx.request);
        var answer := Replayed(c, w.mutations[tx.key], tx.request);
        assert answer.Answered? ==> IsFor(w.log[k], tx.key, tx.request, answer.value);
        FinishSerial(w, t, answer);
      } else {
        MoveSerial(w, t, Unrecorded);
      }
    }
  }

  lemma ComputingReads<S>(c: Config<S>, stored: Option<bytes>, rule: Rule<S>)
    ensures var pc := Computing(c, stored, rule);
            (pc.Finished? && pc.answer.Failed?) || (pc.Ready? && pc.stored == stored)
  {
  }

  lemma StoredSerial<S>(c: Config<S>, w: World<S>, t: nat)
    requires TxsSerial(w)
    ensures TxsSerial(ApplyStored(c, w, t))
  {
    if t in w.txs && w.txs[t].pc.Unrecorded? {
      assert TxSerial(w, t);
      var pc := Computing(c, w.state, w.txs[t].rule);
      ComputingReads(c, w.state, w.txs[t].rule);
      if pc.Finished? { FinishSerial(w, t, pc.answer); } else { MoveSerial(w, t, pc); }
    }
  }

  /** The lock is held from before the read, so the row is still the one that was read. */
  lemma CasSerial<S>(w: World<S>, t: nat)
    requires TxsSerial(w)
    ensures TxsSerial(ApplyCas(w, t))
  {
    if t in w.txs && w.txs[t].pc.Ready? && w.rowLock.None? {
      assert TxSerial(w, t);
      QuietSerial(w, ApplyCas(w, t), t);
    }
  }

  lemma RecordSerial<S>(w: World<S>, t: nat)
    requires TxsSerial(w)
    ensures TxsSerial(ApplyRecord(w, t))
  {
    if t in w.txs && w.txs[t].pc.Staged? {
      assert TxSerial(w, t);
      QuietSerial(w, ApplyRecord(w, t), t);
    }
  }

  lemma FromLonger<S>(log: seq<Entry<S>>, e: Entry<S>, key: bytes, request: bytes, value: S)
    requires FromLog(log, key, request, value) || IsFor(e, key, request, value)
    ensures FromLog(log + [e], key, request, value)
  {
    var longer := log + [e];
    if IsFor(e, key, request, value) {
      assert IsFor(longer[|log|], key, request, value);
    } else {
      var k :| 0 <= k < |log| && IsFor(log[k], key, request, value);
      assert IsFor(longer[k], key, request, value);
    }
  }

  /** The key was unrecorded when the lock was taken, so no entry carries it yet. */
  lemma NewKey<S>(c: Config<S>, log: seq<Entry<S>>, e: Entry<S>)
    requires DistinctKeys(log) && e.key !in RecordsOf(c, log)
    ensures DistinctKeys(log + [e])
  {
    forall i | 0 <= i < |log| ensures log[i].key != e.key { RecordedOnce(c, log, i); }
  }

  lemma CommitSerial<S(!new)>(c: Config<S>, w: World<S>, t: nat)
    requires Explained(c, w) && Serial(w) && t in w.txs && w.txs[t].pc.Recorded?
    ensures Serial(ApplyCommit(c, w, t))
  {
    var tx, w' := w.txs[t], ApplyCommit(c, w, t);
    var e := Entry(tx.key, tx.request, tx.rule, tx.pc.stored, tx.pc.before, tx.pc.next);
    assert TxSerial(w, t);
    NewKey(c, w.log, e);
    forall u | u in w'.txs ensures TxSerial(w', u) {
      var v := w'.txs[u];
      assert TxSerial(w, u);
      if v.pc.Finished? && v.pc.answer.Answered? { FromLonger(w.log, e, v.key, v.request, v.pc.answer.value); }
    }
  }

  lemma BeginSerial<S>(w: World<S>, t: nat, key: bytes, request: bytes, rule: Rule<S>)
    requires TxsSerial(w)
    ensures TxsSerial(ApplyBegin(w, t, key, request, rule))
  {
    var w' := ApplyBegin(w, t, key, request, rule);
    forall u | u in w'.txs ensures TxSerial(w', u) {
      if u in w.txs { assert TxSerial(w, u); }
    }
  }

  lemma StepSerial<S(!new)>(c: Config<S>, w: World<S>, step: Step<S>)
    requires Lawful(c) && c.serialize && Explained(c, w) && Serial(w)
    ensures Serial(Apply(c, w, step))
  {
    if !step.Commit? { CommittedIsUntouched(c, w, step); }
    match step
    case Begin(t, key, request, rule) => BeginSerial(w, t, key, request, rule);
    case LockAccount(t) => LockSerial(c, w, t);
    case PriorMutation(t) => PriorSerial(c, w, t);
    case StoredState(t) => StoredSerial(c, w, t);
    case CompareAndSet(t) => CasSerial(w, t);
    case RecordMutation(t) => RecordSerial(w, t);
    case Commit(t) => if t in w.txs && w.txs[t].pc.Recorded? { CommitSerial(c, w, t); }
    case Fail(t) => if t in w.txs && !w.txs[t].pc.Finished? { FinishSerial(w, t, Failed(Backend)); }
  }

  lemma {:induction false} RunSerial<S(!new)>(c: Config<S>, steps: seq<Step<S>>)
    requires Lawful(c) && c.serialize && CheckedSteps(c, steps)
    ensures Serial(Run(c, steps))
    decreases |steps|
  {
    if steps != [] {
      RunSerial(c, steps[..|steps| - 1]);
      RunKeeps(c, steps[..|steps| - 1]);
      StepSerial(c, Run(c, steps[..|steps| - 1]), steps[|steps| - 1]);
    }
  }

  // The main results.

  /** With the lock, the compare-and-set is never the one to refuse. */
  lemma NoCompareAndSetIsRefused<S(!new)>(c: Config<S>, steps: seq<Step<S>>)
    requires Lawful(c) && c.serialize && CheckedSteps(c, steps)
    ensures Run(c, steps).refusals == 0
  {
    RunSerial(c, steps);
  }

  ghost predicate AnsweredWith<S>(w: World<S>, t: nat, value: S) {
    t in w.txs && w.txs[t].pc == Finished(Answered(value))
  }

  /** Under one retry key there is one request that succeeds, and one result every success reports. */
  lemma OneResultPerKey<S(!new)>(c: Config<S>, steps: seq<Step<S>>, t: nat, u: nat, v: S, v': S)
    requires Lawful(c) && c.serialize && CheckedSteps(c, steps)
    requires AnsweredWith(Run(c, steps), t, v) && AnsweredWith(Run(c, steps), u, v')
    requires Run(c, steps).txs[t].key == Run(c, steps).txs[u].key
    ensures Run(c, steps).txs[t].request == Run(c, steps).txs[u].request && v == v'
  {
    RunSerial(c, steps);
    SameEntry(Run(c, steps), t, u, v, v');
  }

  lemma SameEntry<S>(w: World<S>, t: nat, u: nat, v: S, v': S)
    requires Serial(w) && AnsweredWith(w, t, v) && AnsweredWith(w, u, v') && w.txs[t].key == w.txs[u].key
    ensures w.txs[t].request == w.txs[u].request && v == v'
  {
    assert TxSerial(w, t) && TxSerial(w, u);
    var i :| 0 <= i < |w.log| && IsFor(w.log[i], w.txs[t].key, w.txs[t].request, v);
    var j :| 0 <= j < |w.log| && IsFor(w.log[j], w.txs[u].key, w.txs[u].request, v');
    assert !(i < j) && !(j < i);
  }

  /** The committed mutations, one after another, each run to its end. */
  function Serially<S>(c: Config<S>, log: seq<Entry<S>>): Db
    decreases |log|
  {
    if log == [] then Db(None, map[])
    else
      var e := log[|log| - 1];
      Mutate(c, Serially(c, log[..|log| - 1]), e.key, e.request, e.rule).1
  }

  /** Running entry `e` on the rows its predecessors left does what committing it did. */
  lemma MutateCommits<S(!new)>(c: Config<S>, db: Db, e: Entry<S>)
    requires Lawful(c) && c.known && e.key !in db.mutations
    requires db.state == e.stored && Follows(c, e.rule, e.stored, e.before, e.after)
    ensures Mutate(c, db, e.key, e.request, e.rule) ==
            (Answered(e.after), Db(Some(c.encode(e.after)), db.mutations[e.key := (e.request, c.encode(e.after))]))
  {
  }

  lemma ChainShrinks<S>(c: Config<S>, log: seq<Entry<S>>)
    requires Chain(c, log) && DistinctKeys(log) && log != []
    ensures Chain(c, log[..|log| - 1]) && DistinctKeys(log[..|log| - 1])
  {
    var init := log[..|log| - 1];
    forall k | 0 <= k < |init| ensures Link(c, init, k) { assert Link(c, log, k); }
  }

  lemma LastIsNew<S>(c: Config<S>, log: seq<Entry<S>>)
    requires DistinctKeys(log) && log != []
    ensures log[|log| - 1].key !in RecordsOf(c, log[..|log| - 1])
  {
    var init, e := log[..|log| - 1], log[|log| - 1];
    if e.key in RecordsOf(c, init) {
      var k := RecordedBySomeone(c, init, e.key);
      assert false;
    }
  }

  lemma {:induction false} SeriallyIsTheDatabase<S(!new)>(c: Config<S>, log: seq<Entry<S>>)
    requires Lawful(c) && c.known && Chain(c, log) && DistinctKeys(log)
    ensures Serially(c, log) == Db(RowAfter(c, log, |log|), RecordsOf(c, log))
    decreases |log|
  {
    if log != [] {
      ChainShrinks(c, log);
      LastIsNew(c, log);
      assert Link(c, log, |log| - 1);
      SeriallyIsTheDatabase(c, log[..|log| - 1]);
      MutateCommits(c, Serially(c, log[..|log| - 1]), log[|log| - 1]);
    }
  }

  /** Run on the rows of the mutations before it, the last one answers with what it committed. */
  lemma LastCommits<S(!new)>(c: Config<S>, log: seq<Entry<S>>)
    requires Lawful(c) && c.known && Chain(c, log) && DistinctKeys(log) && log != []
    ensures var e := log[|log| - 1];
            Mutate(c, Serially(c, log[..|log| - 1]), e.key, e.request, e.rule).0 == Answered(e.after)
  {
    ChainShrinks(c, log);
    LastIsNew(c, log);
    assert Link(c, log, |log| - 1);
    SeriallyIsTheDatabase(c, log[..|log| - 1]);
    MutateCommits(c, Serially(c, log[..|log| - 1]), log[|log| - 1]);
  }

  lemma {:induction false} UnknownNeverCommits<S>(c: Config<S>, steps: seq<Step<S>>)
    requires !c.known
    ensures Run(c, steps).log == [] && forall t | t in Run(c, steps).txs ::
            var pc := Run(c, steps).txs[t].pc; pc.Begun? || pc.Finished?
    decreases |steps|
  {
    if steps != [] { UnknownNeverCommits(c, steps[..|steps| - 1]); }
  }

  /**
    Serializability: whatever the interleaving and the failures, the rows are what the
    committed mutations leave when run one after another in commit order.
   */
  lemma EveryRunIsSerial<S(!new)>(c: Config<S>, steps: seq<Step<S>>)
    requires Lawful(c) && c.serialize && CheckedSteps(c, steps)
    ensures var w := Run(c, steps); Db(w.state, w.mutations) == Serially(c, w.log)
  {
    RunKeeps(c, steps);
    RunSerial(c, steps);
    if c.known { SeriallyIsTheDatabase(c, Run(c, steps).log); } else { UnknownNeverCommits(c, steps); }
  }

  /** One transaction from beginning to commit, with no step of another between. */
  function Uninterrupted<S>(c: Config<S>, w: World<S>, t: nat, key: bytes, request: bytes, rule: Rule<S>): World<S> {
    var w := ApplyPrior(c, ApplyLock(c, ApplyBegin(w, t, key, request, rule), t), t);
    ApplyCommit(c, ApplyRecord(ApplyCas(ApplyStored(c, w, t), t), t), t)
  }

  ghost predicate EndsAs<S>(w: World<S>, t: nat, answer: Answer<S>, db: Db) {
    && t in w.txs && w.txs[t].pc == Finished(answer) && Db(w.state, w.mutations) == db
    && w.accountLock.None? && w.rowLock.None?
  }

  /** The second half: the key is not recorded, and the transaction reads, writes and commits. */
  lemma UnrecordedWrites<S>(c: Config<S>, w: World<S>, t: nat)
    requires t in w.txs && w.txs[t].pc.Unrecorded? && w.txs[t].key !in w.mutations && c.known
    requires w.rowLock.None? && (w.accountLock.None? || w.accountLock == Some(t))
    ensures var tx := w.txs[t];
            var (answer, db) := Mutate(c, Db(w.state, w.mutations), tx.key, tx.request, tx.rule);
            EndsAs(ApplyCommit(c, ApplyRecord(ApplyCas(ApplyStored(c, w, t), t), t), t), t, answer, db)
  {
    ComputingReads(c, w.state, w.txs[t].rule);
  }

  /** The statements of one transaction, uninterrupted, amount to `Mutate`. */
  lemma UninterruptedIsMutate<S>(c: Config<S>, w: World<S>, t: nat, key: bytes, request: bytes, rule: Rule<S>)
    requires t !in w.txs && w.accountLock.None? && w.rowLock.None?
    ensures var (answer, db) := Mutate(c, Db(w.state, w.mutations), key, request, rule);
            EndsAs(Uninterrupted(c, w, t, key, request, rule), t, answer, db)
  {
    var w' := ApplyPrior(c, ApplyLock(c, ApplyBegin(w, t, key, request, rule), t), t);
    if w'.txs[t].pc.Unrecorded? { UnrecordedWrites(c, w', t); }
  }

  /** Nobody holds the row who does not hold the account. */
  lemma FreeAccountFreeRow<S(!new)>(c: Config<S>, w: World<S>)
    requires TxsOk(c, w) && TxsSerial(w) && w.accountLock.None?
    ensures w.rowLock.None?
  {
    if w.rowLock.Some? {
      var t := w.rowLock.value;
      assert TxOk(c, w, t) && TxSerial(w, t);
    }
  }

  /** What a call under the key of a committed mutation is told, if it is told anything but a failure of the backend. */
  function RetryAnswer<S>(e: Entry<S>, request: bytes): Answer<S> {
    if request == e.request then Answered(e.after) else Failed(Refused(Inventory.IdempotencyConflict))
  }

  /** Where a transaction under the key of `e` can be: waiting, about to look, or ended as it must. */
  predicate Retrying<S(==)>(e: Entry<S>, tx: Tx<S>) {
    tx.pc.Begun? || tx.pc.Locked? || tx.pc == Finished(Failed(Backend)) || tx.pc == Finished(RetryAnswer(e, tx.request))
  }

  ghost predicate RetriesOf<S>(w: World<S>, e: Entry<S>, k: nat, t: nat) {
    && k < |w.log| && w.log[k] == e
    && (t in w.txs && w.txs[t].key == e.key ==> Retrying(e, w.txs[t]))
  }

  /** A transaction that looks for its key finds the one entry that carries it. */
  lemma LookFinds<S(!new)>(c: Config<S>, w: World<S>, k: nat, request: bytes)
    requires Lawful(c) && Explained(c, w) && DistinctKeys(w.log) && k < |w.log|
    ensures w.log[k].key in w.mutations
            && Replayed(c, w.mutations[w.log[k].key], request) == RetryAnswer(w.log[k], request)
  {
    RecordedOnce(c, w.log, k);
    var j := ReplayedFromLog(c, w, w.log[k].key, request);
    assert !(j < k) && !(k < j);
  }

  lemma RetryStep<S(!new)>(c: Config<S>, w: World<S>, e: Entry<S>, k: nat, t: nat, step: Step<S>)
    requires Lawful(c) && c.known && Explained(c, w) && DistinctKeys(w.log) && RetriesOf(w, e, k, t)
    ensures RetriesOf(Apply(c, w, step), e, k, t)
  {
    if step == PriorMutation(t) && t in w.txs && w.txs[t].key == e.key { LookFinds(c, w, k, w.txs[t].request); }
  }

  lemma RunIsExplained<S(!new)>(c: Config<S>, steps: seq<Step<S>>)
    requires Lawful(c) && c.serialize && CheckedSteps(c, steps)
    ensures Explained(c, Run(c, steps)) && DistinctKeys(Run(c, steps).log)
  {
    RunKeeps(c, steps);
    RunSerial(c, steps);
  }

  lemma {:induction false} RetriesKeep<S(!new)>(c: Config<S>, steps: seq<Step<S>>, more: seq<Step<S>>, e: Entry<S>,
        k: nat, t: nat)
    requires Lawful(c) && c.serialize && c.known && CheckedSteps(c, steps + more)
    requires RetriesOf(Run(c, steps), e, k, t)
    ensures RetriesOf(Run(c, steps + more), e, k, t)
    decreases |more|
  {
    if more == [] {
      assert steps + more == steps;
    } else {
      var front, last := steps + more[..|more| - 1], more[|more| - 1];
      assert (steps + more)[..|steps + more| - 1] == front;
      assert CheckedSteps(c, front) by { assert forall step | step in front :: step in steps + more; }
      RetriesKeep(c, steps, more[..|more| - 1], e, k, t);
      RunIsExplained(c, front);
      RetryStep(c, Run(c, front), e, k, t, last);
    }
  }

  /**
    A mutation once committed answers every later or racing call under its key, however the
    call waits and however other transactions interleave with it. A call that had not yet
    looked for its key ends with the committed result for the same request, with a conflict
    for any other, or with a failure of the backend; the mutation stays where it is in the
    log; and no statement of the call changes a row.
   */
  lemma RetryIsAnswered<S(!new)>(c: Config<S>, steps: seq<Step<S>>, more: seq<Step<S>>, k: nat, t: nat)
    requires Lawful(c) && c.serialize && CheckedSteps(c, steps + more)
    requires var w := Run(c, steps); k < |w.log| && (t in w.txs ==> w.txs[t].pc.Begun? || w.txs[t].pc.Locked?)
    ensures var e, w' := Run(c, steps).log[k], Run(c, steps + more);
            && k < |w'.log| && w'.log[k] == e
            && (t in w'.txs && w'.txs[t].key == e.key ==>
                  && Retrying(e, w'.txs[t])
                  && forall step: Step<S> | step.tx == t :: RowsKept(w', Apply(c, w', step)))
  {
    assert CheckedSteps(c, steps) by { assert forall step | step in steps :: step in steps + more; }
    if !c.known { UnknownNeverCommits(c, steps); }
    RetriesKeep(c, steps, more, Run(c, steps).log[k], k, t);
    var e, w' := Run(c, steps).log[k], Run(c, steps + more);
    if t in w'.txs && w'.txs[t].key == e.key {
      forall step: Step<S> | step.tx == t ensures RowsKept(w', Apply(c, w', step)) {
        if !step.Commit? { CommittedIsUntouched(c, w', step); }
      }
    }
  }

  ghost predicate RowsKept<S>(w: World<S>, w': World<S>) {
    w'.state == w.state && w'.mutations == w.mutations && w'.log == w.log
  }

  /** And it is answered at once when nobody is in its way. */
  lemma RetryAloneIsAnswered<S(!new)>(c: Config<S>, steps: seq<Step<S>>, k: nat, t: nat, request: bytes, rule: Rule<S>)
    requires Lawful(c) && c.serialize && CheckedSteps(c, steps)
    requires var w := Run(c, steps); k < |w.log| && t !in w.txs && w.accountLock.None?
    ensures var w := Run(c, steps); var w' := Uninterrupted(c, w, t, w.log[k].key, request, rule);
            t in w'.txs && w'.state == w.state && w'.mutations == w.mutations
              && w'.txs[t].pc == Finished(RetryAnswer(w.log[k], request))
  {
    RunKeeps(c, steps);
    RunSerial(c, steps);
    if !c.known { UnknownNeverCommits(c, steps); }
    RetryFrom(c, Run(c, steps), k, t, request, rule);
  }

  lemma RetryFrom<S(!new)>(c: Config<S>, w: World<S>, k: nat, t: nat, request: bytes, rule: Rule<S>)
    requires Lawful(c) && c.known && Inv(c, w) && Serial(w)
    requires k < |w.log| && t !in w.txs && w.accountLock.None?
    ensures var w' := Uninterrupted(c, w, t, w.log[k].key, request, rule);
            t in w'.txs && w'.state == w.state && w'.mutations == w.mutations
              && w'.txs[t].pc == Finished(RetryAnswer(w.log[k], request))
  {
    var key := w.log[k].key;
    FreeAccountFreeRow(c, w);
    UninterruptedIsMutate(c, w, t, key, request, rule);
    LookFinds(c, w, k, request);
  }

  // Without the lock none of this follows.

  function Bit(b: bool): bytes { if b then [1] else [0] }

  function UnBit(b: bytes): Option<bool> { if b == [0] then Some(false) else if b == [1] then Some(true) else None }

  const Unlocked: Config<bool> := Config(true, false, false, Bit, UnBit, _ => true)

  function Flip(b: bool): Result<bool> { Next(!b) }

  function Look(t: nat, request: bytes): seq<Step<bool>> {
    [Begin(t, [], request, Flip), LockAccount(t), PriorMutation(t)]
  }

  function Write(t: nat): seq<Step<bool>> { [StoredState(t), CompareAndSet(t), RecordMutation(t), Commit(t)] }

  /** Two requests under one key: both look for it, then each reads, writes and commits. */
  function Race(): seq<Step<bool>> { Look(0, [0]) + Look(1, [1]) + Write(0) + Write(1) }

  function Looked(w: World<bool>, t: nat, request: bytes): World<bool> {
    w.(txs := w.txs[t := Tx([], request, Flip, Unrecorded)])
  }

  lemma RunStep<S>(c: Config<S>, steps: seq<Step<S>>, n: nat)
    requires n < |steps|
    ensures Run(c, steps[..n + 1]) == Apply(c, Run(c, steps[..n]), steps[n])
  {
    assert steps[..n + 1][..n] == steps[..n];
  }

  lemma Looks(s: seq<Step<bool>>, t: nat, request: bytes)
    requires t !in Run(Unlocked, s).txs && Run(Unlocked, s).mutations == map[]
    ensures Run(Unlocked, s + Look(t, request)) == Looked(Run(Unlocked, s), t, request)
  {
    var w, l := Run(Unlocked, s), Look(t, request);
    var w' := ApplyPrior(Unlocked, ApplyLock(Unlocked, ApplyBegin(w, t, [], request, Flip), t), t);
    assert Run(Unlocked, s + l) == w' by {
      var r := s + l;
      assert r[..|s|] == s && r[..|r|] == r;
      RunStep(Unlocked, r, |s|); RunStep(Unlocked, r, |s| + 1); RunStep(Unlocked, r, |s| + 2);
    }
    assert w'.txs == Looked(w, t, request).txs;
  }

  /** What a transaction that found its key unrecorded does when nobody is in its way. */
  function Written(w: World<bool>, t: nat, before: bool): World<bool>
    requires t in w.txs
  {
    var tx := w.txs[t];
    w.(state := Some(Bit(!before)),
       mutations := w.mutations[tx.key := (tx.request, Bit(!before))],
       txs := w.txs[t := tx.(pc := Finished(Answered(!before)))],
       log := w.log + [Entry(tx.key, tx.request, tx.rule, w.state, before, !before)])
  }

  lemma WritesAlone(w: World<bool>, t: nat, before: bool)
    requires t in w.txs && w.txs[t].pc.Unrecorded? && w.txs[t].rule == Flip
    requires w.accountLock.None? && w.rowLock.None? && Current(Unlocked, w.state) == Some(before)
    ensures ApplyCommit(Unlocked, ApplyRecord(ApplyCas(ApplyStored(Unlocked, w, t), t), t), t) == Written(w, t, before)
  {
    var w' := ApplyCommit(Unlocked, ApplyRecord(ApplyCas(ApplyStored(Unlocked, w, t), t), t), t);
    assert w'.txs == Written(w, t, before).txs;
  }

  lemma WriteSteps(s: seq<Step<bool>>, t: nat)
    ensures Run(Unlocked, s + Write(t)) ==
            ApplyCommit(Unlocked, ApplyRecord(ApplyCas(ApplyStored(Unlocked, Run(Unlocked, s), t), t), t), t)
  {
    var r := s + Write(t);
    assert r[..|s|] == s && r[..|r|] == r;
    RunStep(Unlocked, r, |s|); RunStep(Unlocked, r, |s| + 1); RunStep(Unlocked, r, |s| + 2);
    RunStep(Unlocked, r, |s| + 3);
  }

  lemma Writes(s: seq<Step<bool>>, w: World<bool>, t: nat, before: bool)
    requires Run(Unlocked, s) == w && t in w.txs && w.txs[t].pc.Unrecorded? && w.txs[t].rule == Flip
    requires w.accountLock.None? && w.rowLock.None? && Current(Unlocked, w.state) == Some(before)
    ensures Run(Unlocked, s + Write(t)) == Written(w, t, before)
  {
    WriteSteps(s, t);
    WritesAlone(w, t, before);
  }

  lemma RaceIsLawful()
    ensures Lawful(Unlocked) && CheckedSteps(Unlocked, Race())
  {
  }

  lemma RaceOutcome()
    ensures Run(Unlocked, Race()) == Written(Written(Looked(Looked(Start(), 0, [0]), 1, [1]), 0, false), 1, true)
  {
    assert Run(Unlocked, Look(0, [0])) == Looked(Start(), 0, [0]) by {
      Looks([], 0, [0]);
      assert [] + Look(0, [0]) == Look(0, [0]);
    }
    Looks(Look(0, [0]), 1, [1]);
    var w := Looked(Looked(Start(), 0, [0]), 1, [1]);
    Writes(Look(0, [0]) + Look(1, [1]), w, 0, false);
    Writes(Look(0, [0]) + Look(1, [1]) + Write(0), Written(w, 0, false), 1, true);
  }

  /** The lock is needed: with the compare-and-set alone a key can take effect twice. */
  lemma WithoutTheLockAKeyAppliesTwice()
    ensures Lawful(Unlocked) && CheckedSteps(Unlocked, Race())
    ensures var w := Run(Unlocked, Race());
            AnsweredWith(w, 0, true) && AnsweredWith(w, 1, false) && !DistinctKeys(w.log)
  {
    RaceIsLawful();
    RaceOutcome();
    var log := Run(Unlocked, Race()).log;
    assert log[0].key == log[1].key;
  }
}
