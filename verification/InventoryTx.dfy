/**
  Mutations of one account's inventory as transactions that interleave statement by
  statement: every statement sees what is committed when it runs, writes are staged
  until commit, and a lock or a row write waits for its holder (section 13.2.1 of the
  PostgreSQL documentation, Read Committed).

  As in the source, the transaction body is given the request as bytes and the rule as
  a function; `InventoryStore` says which requests and rules those are.
 */
module InventoryTx {
  import opened Bytes
  import Inventory

  type Refusal = Inventory.InventoryError

  datatype Result<+S> = Next(value: S) | Refuse(error: Refusal)

  /**
    The account: whether it exists, whether the account lock is really taken, its
    first state, and how a state is stored and validated.
   */
  datatype Config<!S> = Config(known: bool, serialize: bool, first: S,
                               encode: S -> bytes, decode: bytes -> Option<S>, valid: S -> bool)

  /** A stored row decodes to exactly the valid state it was encoded from; the first state is valid. */
  ghost predicate Lawful<S(!new)>(c: Config<S>) {
    && c.valid(c.first)
    && (forall s | c.valid(s) :: c.decode(c.encode(s)) == Some(s))
    && (forall b: bytes | c.decode(b).Some? :: c.encode(c.decode(b).value) == b)
  }

  type Rule<!S> = S -> Result<S>

  /** Every rule checks its result before returning it. */
  ghost predicate Checked<S(!new)>(c: Config<S>, rule: Rule<S>) {
    forall s | rule(s).Next? :: c.valid(rule(s).value)
  }

  datatype Error = Refused(error: Refusal) | Backend

  datatype Answer<+S> = Answered(value: S) | Failed(why: Error)

  datatype Pc<+S> =
    | Begun
    | Locked                                          // the account lock is held
    | Unrecorded                                      // no mutation is recorded under the key
    | Ready(stored: Option<bytes>, before: S, next: S)
    | Staged(stored: Option<bytes>, before: S, next: S)
    | Recorded(stored: Option<bytes>, before: S, next: S)
    | Finished(answer: Answer<S>)

  datatype Tx<!S> = Tx(key: bytes, request: bytes, rule: Rule<S>, pc: Pc<S>)

  /** One committed mutation: the row it replaced and what that stood for, and what it put there. */
  datatype Entry<!S> = Entry(key: bytes, request: bytes, rule: Rule<S>, stored: Option<bytes>, before: S, after: S)

  datatype World<!S> = World(
    state: Option<bytes>,
    mutations: map<bytes, (bytes, bytes)>,
    accountLock: Option<nat>,
    rowLock: Option<nat>,
    refusals: nat,                      // compare-and-set writes that matched nothing
    txs: map<nat, Tx<S>>,
    log: seq<Entry<S>>)                 // what committed, in order

  function Start<S>(): World<S> { World(None, map[], None, None, 0, map[], []) }

  datatype Step<!S> =
    | Begin(tx: nat, key: bytes, request: bytes, rule: Rule<S>)
    | LockAccount(tx: nat)
    | PriorMutation(tx: nat)
    | StoredState(tx: nat)
    | CompareAndSet(tx: nat)
    | RecordMutation(tx: nat)
    | Commit(tx: nat)
    | Fail(tx: nat)                     // the backend fails at whatever statement comes next

  function At<S>(w: World<S>, t: nat, pc: Pc<S>): World<S>
    requires t in w.txs
  {
    w.(txs := w.txs[t := w.txs[t].(pc := pc)])
  }

  /** The transaction is over: its locks are released and nothing it staged remains. */
  function Finish<S>(w: World<S>, t: nat, answer: Answer<S>): World<S>
    requires t in w.txs
  {
    At(w, t, Finished(answer)).(
      accountLock := if w.accountLock == Some(t) then None else w.accountLock,
      rowLock := if w.rowLock == Some(t) then None else w.rowLock)
  }

  function ApplyBegin<S>(w: World<S>, t: nat, key: bytes, request: bytes, rule: Rule<S>): World<S> {
    if t in w.txs then w else w.(txs := w.txs[t := Tx(key, request, rule, Begun)])
  }

  function ApplyLock<S>(c: Config<S>, w: World<S>, t: nat): World<S> {
    if t !in w.txs || !w.txs[t].pc.Begun? then w
    else if !c.known then Finish(w, t, Failed(Refused(Inventory.UnknownUser)))
    else if !c.serialize then At(w, t, Locked)
    else if w.accountLock.Some? then w                                  // waits
    else At(w, t, Locked).(accountLock := Some(t))
  }

  /** The answer to a request whose key has a recorded mutation. */
  function Replayed<S>(c: Config<S>, prior: (bytes, bytes), request: bytes): Answer<S> {
    if prior.0 != request then Failed(Refused(Inventory.IdempotencyConflict))
    else
      var result := c.decode(prior.1);
      if result.None? || !c.valid(result.value) then Failed(Refused(Inventory.Invalid))
      else Answered(result.value)
  }

  function ApplyPrior<S>(c: Config<S>, w: World<S>, t: nat): World<S> {
    if t !in w.txs || !w.txs[t].pc.Locked? then w
    else if w.txs[t].key in w.mutations then
      Finish(w, t, Replayed(c, w.mutations[w.txs[t].key], w.txs[t].request))
    else At(w, t, Unrecorded)
  }

  /** What a row stands for; a missing row is the first state. */
  function Current<S>(c: Config<S>, stored: Option<bytes>): Option<S> {
    if stored.None? then Some(c.first) else c.decode(stored.value)
  }

  /** The read and the pure computation on it. */
  function Computing<S>(c: Config<S>, stored: Option<bytes>, rule: Rule<S>): Pc<S> {
    var current := Current(c, stored);
    if current.None? || !c.valid(current.value) then Finished(Failed(Refused(Inventory.Invalid)))
    else
      match rule(current.value)
      case Refuse(e) => Finished(Failed(Refused(e)))
      case Next(next) => Ready(stored, current.value, next)
  }

  function ApplyStored<S>(c: Config<S>, w: World<S>, t: nat): World<S> {
    if t !in w.txs || !w.txs[t].pc.Unrecorded? then w
    else
      var pc := Computing(c, w.state, w.txs[t].rule);
      if pc.Finished? then Finish(w, t, pc.answer) else At(w, t, pc)
  }

  function ApplyCas<S>(w: World<S>, t: nat): World<S> {
    if t !in w.txs || !w.txs[t].pc.Ready? || w.rowLock.Some? then w     // waits for the row
    else
      var pc := w.txs[t].pc;
      if w.state != pc.stored then
        Finish(w.(refusals := w.refusals + 1), t, Failed(Refused(Inventory.PredecessorMismatch)))
      else At(w, t, Staged(pc.stored, pc.before, pc.next)).(rowLock := Some(t))
  }

  function ApplyRecord<S>(w: World<S>, t: nat): World<S> {
    if t !in w.txs || !w.txs[t].pc.Staged? then w
    else At(w, t, Recorded(w.txs[t].pc.stored, w.txs[t].pc.before, w.txs[t].pc.next))
  }

  function ApplyCommit<S>(c: Config<S>, w: World<S>, t: nat): World<S> {
    if t !in w.txs || !w.txs[t].pc.Recorded? then w
    else
      var tx := w.txs[t];
      var row := c.encode(tx.pc.next);
      Finish(w, t, Answered(tx.pc.next)).(
        state := Some(row),
        mutations := w.mutations[tx.key := (tx.request, row)],
        log := w.log + [Entry(tx.key, tx.request, tx.rule, tx.pc.stored, tx.pc.before, tx.pc.next)])
  }

  function ApplyFail<S>(w: World<S>, t: nat): World<S> {
    if t !in w.txs || w.txs[t].pc.Finished? then w else Finish(w, t, Failed(Backend))
  }

  function Apply<S>(c: Config<S>, w: World<S>, step: Step<S>): World<S> {
    match step
    case Begin(t, key, request, rule) => ApplyBegin(w, t, key, request, rule)
    case LockAccount(t) => ApplyLock(c, w, t)
    case PriorMutation(t) => ApplyPrior(c, w, t)
    case StoredState(t) => ApplyStored(c, w, t)
    case CompareAndSet(t) => ApplyCas(w, t)
    case RecordMutation(t) => ApplyRecord(w, t)
    case Commit(t) => ApplyCommit(c, w, t)
    case Fail(t) => ApplyFail(w, t)
  }

  function Run<S>(c: Config<S>, steps: seq<Step<S>>): World<S>
    decreases |steps|
  {
    if steps == [] then Start() else Apply(c, Run(c, steps[..|steps| - 1]), steps[|steps| - 1])
  }

  ghost predicate CheckedSteps<S(!new)>(c: Config<S>, steps: seq<Step<S>>) {
    forall step | step in steps && step.Begin? :: Checked(c, step.rule)
  }

  // What holds with or without the account lock.

  /** The row holds `s`, and `s` is valid. */
  ghost predicate StandsFor<S>(c: Config<S>, stored: Option<bytes>, s: S) {
    && c.valid(s)
    && (stored.None? ==> s == c.first)
    && (stored.Some? ==> stored.value == c.encode(s))
  }

  /** `next` is what the rule makes of what the row held. */
  ghost predicate Follows<S>(c: Config<S>, rule: Rule<S>, stored: Option<bytes>, before: S, next: S) {
    StandsFor(c, stored, before) && rule(before) == Next(next) && c.valid(next)
  }

  predicate Writing<S>(pc: Pc<S>) { pc.Staged? || pc.Recorded? }

  predicate Computed<S>(pc: Pc<S>) { pc.Ready? || Writing(pc) }

  ghost predicate TxOk<S(!new)>(c: Config<S>, w: World<S>, t: nat)
    requires t in w.txs
  {
    var tx := w.txs[t];
    && Checked(c, tx.rule)
    && (Computed(tx.pc) ==> Follows(c, tx.rule, tx.pc.stored, tx.pc.before, tx.pc.next))
    && (Writing(tx.pc) <==> w.rowLock == Some(t))
    && (Writing(tx.pc) ==> w.state == tx.pc.stored)
  }

  /** The row after the first `n` committed mutations. */
  function RowAfter<S>(c: Config<S>, log: seq<Entry<S>>, n: nat): Option<bytes>
    requires n <= |log|
  {
    if n == 0 then None else Some(c.encode(log[n - 1].after))
  }

  /** Entry `k` replaced the row entry `k - 1` left, and wrote what its rule made of it. */
  ghost predicate Link<S>(c: Config<S>, log: seq<Entry<S>>, k: nat)
    requires k < |log|
  {
    var e := log[k];
    e.stored == RowAfter(c, log, k) && Follows(c, e.rule, e.stored, e.before, e.after)
  }

  ghost predicate Chain<S>(c: Config<S>, log: seq<Entry<S>>) {
    forall k | 0 <= k < |log| :: Link(c, log, k)
  }

  function RecordsOf<S>(c: Config<S>, log: seq<Entry<S>>): map<bytes, (bytes, bytes)> {
    if log == [] then map[]
    else
      var e := log[|log| - 1];
      RecordsOf(c, log[..|log| - 1])[e.key := (e.request, c.encode(e.after))]
  }

  ghost predicate TxsOk<S(!new)>(c: Config<S>, w: World<S>) {
    && (forall t | t in w.txs :: TxOk(c, w, t))
    && (w.rowLock.Some? ==> w.rowLock.value in w.txs)
  }

  /** Everything in the database is accounted for by what committed. */
  ghost predicate Explained<S>(c: Config<S>, w: World<S>) {
    && Chain(c, w.log)
    && w.state == RowAfter(c, w.log, |w.log|)
    && w.mutations == RecordsOf(c, w.log)
  }

  ghost predicate Inv<S(!new)>(c: Config<S>, w: World<S>) {
    Explained(c, w) && TxsOk(c, w)
  }

  /** A statement that commits nothing: only transaction `t` moved. */
  lemma QuietKeeps<S(!new)>(c: Config<S>, w: World<S>, w': World<S>, t: nat)
    requires TxsOk(c, w) && t in w.txs && t in w'.txs
    requires w'.state == w.state && w'.txs == w.txs[t := w'.txs[t]]
    requires w'.rowLock == w.rowLock || (w.rowLock.None? && w'.rowLock == Some(t))
             || (w.rowLock == Some(t) && w'.rowLock.None?)
    requires TxOk(c, w', t)
    ensures TxsOk(c, w')
  {
    forall u | u in w'.txs ensures TxOk(c, w', u) {
      if u != t { assert TxOk(c, w, u); }
    }
  }

  lemma ComputingFollows<S(!new)>(c: Config<S>, stored: Option<bytes>, rule: Rule<S>)
    requires Lawful(c) && Checked(c, rule)
    ensures var pc := Computing(c, stored, rule);
            pc.Finished? || (pc.Ready? && pc.stored == stored && Follows(c, rule, pc.stored, pc.before, pc.next))
  {
  }

  lemma LinkStays<S>(c: Config<S>, log: seq<Entry<S>>, e: Entry<S>, k: nat)
    requires k < |log| && Link(c, log, k)
    ensures Link(c, log + [e], k)
  {
    assert (log + [e])[k] == log[k];
    assert k > 0 ==> (log + [e])[k - 1] == log[k - 1];
  }

  lemma ChainGrows<S>(c: Config<S>, log: seq<Entry<S>>, e: Entry<S>)
    requires Chain(c, log) && e.stored == RowAfter(c, log, |log|)
    requires Follows(c, e.rule, e.stored, e.before, e.after)
    ensures Chain(c, log + [e])
    ensures RecordsOf(c, log + [e]) == RecordsOf(c, log)[e.key := (e.request, c.encode(e.after))]
  {
    var longer := log + [e];
    assert longer[..|log|] == log;
    forall k | 0 <= k < |longer| ensures Link(c, longer, k) {
      if k < |log| { LinkStays(c, log, e, k); }
    }
  }

  lemma CommitKeeps<S(!new)>(c: Config<S>, w: World<S>, t: nat)
    requires Inv(c, w) && t in w.txs && w.txs[t].pc.Recorded?
    ensures Inv(c, ApplyCommit(c, w, t))
  {
    var tx, w' := w.txs[t], ApplyCommit(c, w, t);
    assert TxOk(c, w, t);
    ChainGrows(c, w.log, Entry(tx.key, tx.request, tx.rule, tx.pc.stored, tx.pc.before, tx.pc.next));
    forall u | u in w'.txs ensures TxOk(c, w', u) {
      if u != t { assert TxOk(c, w, u); }
    }
  }

  lemma BeginKeeps<S(!new)>(c: Config<S>, w: World<S>, t: nat, key: bytes, request: bytes, rule: Rule<S>)
    requires Inv(c, w) && Checked(c, rule)
    ensures Inv(c, ApplyBegin(w, t, key, request, rule))
  {
    var w' := ApplyBegin(w, t, key, request, rule);
    forall u | u in w'.txs ensures TxOk(c, w', u) {
      if u in w.txs { assert TxOk(c, w, u); }
    }
  }

  /** A transaction that ends without committing leaves everything explained. */
  lemma FinishKeeps<S(!new)>(c: Config<S>, w: World<S>, t: nat, answer: Answer<S>)
    requires TxsOk(c, w) && t in w.txs
    ensures TxsOk(c, Finish(w, t, answer))
  {
    assert TxOk(c, w, t);
    QuietKeeps(c, w, Finish(w, t, answer), t);
  }

  lemma MoveKeeps<S(!new)>(c: Config<S>, w: World<S>, t: nat, pc: Pc<S>, lock: Option<nat>)
    requires TxsOk(c, w) && t in w.txs && !Writing(w.txs[t].pc) && !Writing(pc)
    requires pc.Ready? ==> Follows(c, w.txs[t].rule, pc.stored, pc.before, pc.next)
    ensures TxsOk(c, At(w, t, pc).(accountLock := lock))
  {
    assert TxOk(c, w, t);
    QuietKeeps(c, w, At(w, t, pc).(accountLock := lock), t);
  }

  lemma StoredKeeps<S(!new)>(c: Config<S>, w: World<S>, t: nat)
    requires Lawful(c) && TxsOk(c, w)
    ensures TxsOk(c, ApplyStored(c, w, t))
  {
    if t in w.txs && w.txs[t].pc.Unrecorded? {
      assert TxOk(c, w, t);
      var pc := Computing(c, w.state, w.txs[t].rule);
      ComputingFollows(c, w.state, w.txs[t].rule);
      if pc.Finished? { FinishKeeps(c, w, t, pc.answer); } else { MoveKeeps(c, w, t, pc, w.accountLock); }
    }
  }

  lemma CasKeeps<S(!new)>(c: Config<S>, w: World<S>, t: nat)
    requires TxsOk(c, w)
    ensures TxsOk(c, ApplyCas(w, t))
  {
    if t in w.txs && w.txs[t].pc.Ready? && w.rowLock.None? {
      assert TxOk(c, w, t);
      if w.state != w.txs[t].pc.stored {
        var w1 := w.(refusals := w.refusals + 1);
        assert TxsOk(c, w1) by { forall u | u in w1.txs ensures TxOk(c, w1, u) { assert TxOk(c, w, u); } }
        FinishKeeps(c, w1, t, Failed(Refused(Inventory.PredecessorMismatch)));
      } else {
        QuietKeeps(c, w, ApplyCas(w, t), t);
      }
    }
  }

  lemma RecordKeeps<S(!new)>(c: Config<S>, w: World<S>, t: nat)
    requires TxsOk(c, w)
    ensures TxsOk(c, ApplyRecord(w, t))
  {
    if t in w.txs && w.txs[t].pc.Staged? {
      assert TxOk(c, w, t);
      QuietKeeps(c, w, ApplyRecord(w, t), t);
    }
  }

  lemma LockKeeps<S(!new)>(c: Config<S>, w: World<S>, t: nat)
    requires TxsOk(c, w)
    ensures TxsOk(c, ApplyLock(c, w, t))
  {
    if t in w.txs && w.txs[t].pc.Begun? {
      if !c.known { FinishKeeps(c, w, t, Failed(Refused(Inventory.UnknownUser))); }
      else if !c.serialize { MoveKeeps(c, w, t, Locked, w.accountLock); }
      else if w.accountLock.None? { MoveKeeps(c, w, t, Locked, Some(t)); }
    }
  }

  lemma PriorKeeps<S(!new)>(c: Config<S>, w: World<S>, t: nat)
    requires TxsOk(c, w)
    ensures TxsOk(c, ApplyPrior(c, w, t))
  {
    if t in w.txs && w.txs[t].pc.Locked? {
      var tx := w.txs[t];
      if tx.key in w.mutations { FinishKeeps(c, w, t, Replayed(c, w.mutations[tx.key], tx.request)); }
      else { MoveKeeps(c, w, t, Unrecorded, w.accountLock); }
    }
  }

  /** A statement other than the commit leaves what is committed as it was. */
  lemma CommittedIsUntouched<S>(c: Config<S>, w: World<S>, step: Step<S>)
    requires !step.Commit?
    ensures var w' := Apply(c, w, step); w'.log == w.log && w'.state == w.state && w'.mutations == w.mutations
  {
  }

  lemma StepKeeps<S(!new)>(c: Config<S>, w: World<S>, step: Step<S>)
    requires Lawful(c) && Inv(c, w) && (step.Begin? ==> Checked(c, step.rule))
    ensures Inv(c, Apply(c, w, step))
  {
    if !step.Commit? { CommittedIsUntouched(c, w, step); }
    match step
    case Begin(t, key, request, rule) => BeginKeeps(c, w, t, key, request, rule);
    case LockAccount(t) => LockKeeps(c, w, t);
    case PriorMutation(t) => PriorKeeps(c, w, t);
    case StoredState(t) => StoredKeeps(c, w, t);
    case CompareAndSet(t) => CasKeeps(c, w, t);
    case RecordMutation(t) => RecordKeeps(c, w, t);
    case Commit(t) => if t in w.txs && w.txs[t].pc.Recorded? { CommitKeeps(c, w, t); }
    case Fail(t) => if t in w.txs && !w.txs[t].pc.Finished? { FinishKeeps(c, w, t, Failed(Backend)); }
  }

  lemma {:induction false} RunKeeps<S(!new)>(c: Config<S>, steps: seq<Step<S>>)
    requires Lawful(c) && CheckedSteps(c, steps)
    ensures Inv(c, Run(c, steps))
    decreases |steps|
  {
    if steps != [] {
      RunKeeps(c, steps[..|steps| - 1]);
      StepKeeps(c, Run(c, steps[..|steps| - 1]), steps[|steps| - 1]);
    }
  }

  /**
    With the compare-and-set alone, whatever the interleaving and whatever fails: the
    committed states are one chain in which each is the rule applied to the one before,
    and the database holds nothing else, so no update is lost and an aborted
    transaction leaves no trace.
   */
  lemma CommittedStatesAreAChain<S(!new)>(c: Config<S>, steps: seq<Step<S>>)
    requires Lawful(c) && CheckedSteps(c, steps)
    ensures Explained(c, Run(c, steps))
  {
    RunKeeps(c, steps);
  }

  /** Every transaction and every committed mutation was asked for in a way `ok` admits. */
  ghost predicate OnlyOf<S>(w: World<S>, ok: (bytes, bytes, Rule<S>) -> bool) {
    && (forall t | t in w.txs :: ok(w.txs[t].key, w.txs[t].request, w.txs[t].rule))
    && (forall k | 0 <= k < |w.log| :: ok(w.log[k].key, w.log[k].request, w.log[k].rule))
  }

  /** No statement changes what a transaction was asked for, and a commit logs just that. */
  lemma StepOnlyOf<S>(c: Config<S>, w: World<S>, step: Step<S>, ok: (bytes, bytes, Rule<S>) -> bool)
    requires OnlyOf(w, ok) && (step.Begin? ==> ok(step.key, step.request, step.rule))
    ensures OnlyOf(Apply(c, w, step), ok)
  {
  }

  lemma {:induction false} RunOnlyOf<S>(c: Config<S>, steps: seq<Step<S>>, ok: (bytes, bytes, Rule<S>) -> bool)
    requires forall step | step in steps && step.Begin? :: ok(step.key, step.request, step.rule)
    ensures OnlyOf(Run(c, steps), ok)
    decreases |steps|
  {
    if steps != [] {
      RunOnlyOf(c, steps[..|steps| - 1], ok);
      StepOnlyOf(c, Run(c, steps[..|steps| - 1]), steps[|steps| - 1], ok);
    }
  }
}
