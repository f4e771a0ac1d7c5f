/**
  The two stores of device inventories: the in-memory one, which keeps values in three
  maps, and the database one, which keeps encoded rows and compares requests byte for
  byte. They answer every call alike.
 */
module InventoryStore {
  import opened Bytes
  import opened Inventory
  import opened InventoryCodec
  import Tx = InventoryTx
  import Serial = InventorySerial

  /** A tenant and a normalised username. */
  type Account = (bytes, bytes)

  type RetryKey = (Account, key32)

  datatype InventoryMutation = InventoryMutation(predecessor: u64, binding: Binding, result: DeviceInventory)

  datatype LifecycleMutation = LifecycleMutation(request: Request, result: DeviceInventory)

  /** The users, and the handle of each whose tenant exists. */
  datatype Directory = Directory(users: set<Account>, handles: map<Account, bytes>)

  datatype Mem = Mem(
    inventories: map<Account, DeviceInventory>,
    links: map<RetryKey, InventoryMutation>,
    lifecycle: map<RetryKey, LifecycleMutation>)

  /** A retry key is recorded once, under the operation it was used for. */
  ghost predicate OneRecordPerKey(mem: Mem) {
    && mem.links.Keys !! mem.lifecycle.Keys
    && forall k | k in mem.lifecycle :: !mem.lifecycle[k].request.Link?
  }

  function CurrentOf(mem: Mem, who: Account): DeviceInventory {
    if who in mem.inventories then mem.inventories[who] else Empty
  }

  /** What is recorded under a retry key, of whichever operation. */
  function RecordedUnder(mem: Mem, k: RetryKey): Option<LifecycleMutation> {
    if k in mem.links then
      Some(LifecycleMutation(Link(mem.links[k].predecessor, mem.links[k].binding), mem.links[k].result))
    else if k in mem.lifecycle then Some(mem.lifecycle[k])
    else None
  }

  function Record(mem: Mem, who: Account, key: key32, request: Request, next: DeviceInventory): Mem {
    var mem := mem.(inventories := mem.inventories[who := next]);
    match request
    case Link(p, b) => mem.(links := mem.links[(who, key) := InventoryMutation(p, b, next)])
    case _ => mem.(lifecycle := mem.lifecycle[(who, key) := LifecycleMutation(request, next)])
  }

  /** What a call means: a recorded retry is answered from the record, anything else runs the rule. */
  function Called(core: Core, dir: Directory, mem: Mem, who: Account, key: key32, request: Request): (Outcome, Mem) {
    if who !in dir.users then (Err(UnknownUser), mem)
    else
      match RecordedUnder(mem, (who, key))
      case Some(prior) => (if prior.request == request then Ok(prior.result) else Err(IdempotencyConflict), mem)
      case None =>
        if who !in dir.handles then (Err(UnknownUser), mem)
        else
          match Transition(core, dir.handles[who], CurrentOf(mem, who), request)
          case Err(e) => (Err(e), mem)
          case Ok(next) => (Ok(next), Record(mem, who, key, request, next))
  }

  class Accounts {
    const core: Core
    var directory: Directory
    var deviceInventories: map<Account, DeviceInventory>
    var inventoryMutations: map<RetryKey, InventoryMutation>
    var lifecycleMutations: map<RetryKey, LifecycleMutation>

    constructor (core: Core, directory: Directory)
      ensures this.core == core && this.directory == directory
      ensures View() == Mem(map[], map[], map[]) && OneRecordPerKey(View())
    {
      this.core := core;
      this.directory := directory;
      deviceInventories := map[];
      inventoryMutations := map[];
      lifecycleMutations := map[];
    }

    ghost function View(): Mem
      reads this
    {
      Mem(deviceInventories, inventoryMutations, lifecycleMutations)
    }

    method LinkDeviceBinding(who: Account, predecessor: u64, key: key32, binding: Binding) returns (r: Outcome)
      requires OneRecordPerKey(View())
      modifies `deviceInventories, `inventoryMutations
      ensures (r, View()) == Called(core, directory, old(View()), who, key, Link(predecessor, binding))
      ensures OneRecordPerKey(View())
    {
      if who !in directory.users { return Err(UnknownUser); }
      if (who, key) in lifecycleMutations { return Err(IdempotencyConflict); }
      if (who, key) in inventoryMutations {
        var prior := inventoryMutations[(who, key)];
        if prior.predecessor == predecessor && prior.binding == binding { return Ok(prior.result); }
        return Err(IdempotencyConflict);
      }
      var current := if who in deviceInventories then deviceInventories[who] else Empty;
      if who !in directory.handles { return Err(UnknownUser); }
      var next := LinkInventory(core, directory.handles[who], current, predecessor, binding);
      if next.Err? { return next; }
      deviceInventories := deviceInventories[who := next.inventory];
      inventoryMutations := inventoryMutations[(who, key) := InventoryMutation(predecessor, binding, next.inventory)];
      return next;
    }

    method ApplyLifecycleMutation(who: Account, key: key32, request: Request) returns (r: Outcome)
      requires OneRecordPerKey(View()) && !request.Link?
      modifies `deviceInventories, `lifecycleMutations
      ensures (r, View()) == Called(core, directory, old(View()), who, key, request)
      ensures OneRecordPerKey(View())
    {
      if who !in directory.users { return Err(UnknownUser); }
      if (who, key) in inventoryMutations { return Err(IdempotencyConflict); }
      if (who, key) in lifecycleMutations {
        var prior := lifecycleMutations[(who, key)];
        if prior.request == request { return Ok(prior.result); }
        return Err(IdempotencyConflict);
      }
      var current := if who in deviceInventories then deviceInventories[who] else Empty;
      if who !in directory.handles { return Err(UnknownUser); }
      var next;
      match request {
        case Revoke(predecessor, retired) =>
          next := RevokeInventory(core, directory.handles[who], current, predecessor, retired);
        case Replace(predecessor, retired, replacement) =>
          next := ReplaceInventory(core, directory.handles[who], current, predecessor, retired, replacement);
      }
      if next.Err? { return next; }
      deviceInventories := deviceInventories[who := next.inventory];
      lifecycleMutations := lifecycleMutations[(who, key) := LifecycleMutation(request, next.inventory)];
      return next;
    }
  }

  // The database store, as a configuration of the transaction body.

  function EncodeRow(inv: DeviceInventory): bytes { if Bounded(inv) then PutInventory(inv, []) else [] }

  function AccountConfig(core: Core, dir: Directory, who: Account): Tx.Config<DeviceInventory> {
    var known := who in dir.users && who in dir.handles;
    var handle := if known then dir.handles[who] else [];
    Tx.Config(known, true, Empty, EncodeRow, DecodeInventory, inv => core.valid(handle, inv))
  }

  function AsResult(o: Outcome): Tx.Result<DeviceInventory> {
    match o
    case Ok(inv) => Tx.Next(inv)
    case Err(e) => Tx.Refuse(e)
  }

  function RuleFor(core: Core, dir: Directory, who: Account, request: Request): Tx.Rule<DeviceInventory> {
    var handle := if who in dir.users && who in dir.handles then dir.handles[who] else [];
    inv => AsResult(Transition(core, handle, inv, request))
  }

  /** No rule returns an inventory the core would refuse to encode. */
  lemma TransitionChecks(core: Core, handle: bytes, current: DeviceInventory, request: Request)
    ensures Transition(core, handle, current, request).Ok? ==>
              core.valid(handle, Transition(core, handle, current, request).inventory)
  {
  }

  /** The stored rows are what the transaction body needs them to be. */
  lemma AccountConfigIsLawful(core: Core, dir: Directory, who: Account)
    requires Lawful(core)
    ensures Tx.Lawful(AccountConfig(core, dir, who))
  {
    var c := AccountConfig(core, dir, who);
    forall inv | c.valid(inv) ensures c.decode(c.encode(inv)) == Some(inv) {
      StoredStateExactly(PutInventory(inv, []), inv);
    }
    forall b: bytes | c.decode(b).Some? ensures c.encode(c.decode(b).value) == b {
      StoredStateExactly(b, c.decode(b).value);
    }
  }

  lemma RuleIsChecked(core: Core, dir: Directory, who: Account, request: Request)
    ensures Tx.Checked(AccountConfig(core, dir, who), RuleFor(core, dir, who, request))
  {
    var c, rule := AccountConfig(core, dir, who), RuleFor(core, dir, who, request);
    forall inv | rule(inv).Next? ensures c.valid(rule(inv).value) {
      TransitionChecks(core, if c.known then dir.handles[who] else [], inv, request);
    }
  }

  /** Every account's rows; an account never written has none. */
  type Rows = map<Account, Serial.Db>

  const NoRows := Serial.Db(None, map[])

  function RowsOf(rows: Rows, who: Account): Serial.Db { if who in rows then rows[who] else NoRows }

  /** The same call on the database store. */
  function StoredCall(core: Core, dir: Directory, rows: Rows, who: Account, key: key32,
        request: Request): (Tx.Answer<DeviceInventory>, Rows) {
    var (answer, db) := Serial.Mutate(AccountConfig(core, dir, who), RowsOf(rows, who), key, EncodeRequest(request),
      RuleFor(core, dir, who, request));
    (answer, rows[who := db])
  }

  // Refinement.

  /** A row stands for a recorded mutation: the bytes of its request and of its result. */
  ghost predicate RowFor(c: Tx.Config<DeviceInventory>, row: (bytes, bytes), m: LifecycleMutation) {
    row == (EncodeRequest(m.request), c.encode(m.result)) && c.valid(m.result)
  }

  ghost predicate KeyAgrees(c: Tx.Config<DeviceInventory>, prior: Option<LifecycleMutation>,
        mutations: map<bytes, (bytes, bytes)>, key: key32) {
    && (prior.Some? <==> key in mutations)
    && (prior.Some? ==> RowFor(c, mutations[key], prior.value))
  }

  ghost predicate StateAgrees(c: Tx.Config<DeviceInventory>, mem: Mem, who: Account, state: Option<bytes>) {
    && (state.Some? <==> who in mem.inventories)
    && (state.Some? ==> state.value == c.encode(mem.inventories[who]) && c.valid(mem.inventories[who]))
  }

  /** One account's rows hold what the maps hold for it; an account without a handle has nothing. */
  ghost predicate AccountAgrees(c: Tx.Config<DeviceInventory>, mem: Mem, who: Account, db: Serial.Db) {
    && StateAgrees(c, mem, who, db.state)
    && (forall key: key32 :: KeyAgrees(c, RecordedUnder(mem, (who, key)), db.mutations, key))
    && (!c.known ==> db == NoRows)
  }

  ghost predicate Agrees(core: Core, dir: Directory, mem: Mem, rows: Rows) {
    OneRecordPerKey(mem) && forall who: Account ::
      AccountAgrees(AccountConfig(core, dir, who), mem, who, RowsOf(rows, who))
  }

  /** A recorded key: equal bytes are an equal request, and the row decodes to the result. */
  lemma PriorAgrees(c: Tx.Config<DeviceInventory>, row: (bytes, bytes), m: LifecycleMutation, request: Request)
    requires Tx.Lawful(c) && RowFor(c, row, m)
    ensures Tx.Replayed(c, row, EncodeRequest(request)) ==
            if m.request == request then Tx.Answered(m.result) else Tx.Failed(Tx.Refused(IdempotencyConflict))
  {
    if EncodeRequest(m.request) == EncodeRequest(request) { RequestsTell(m.request, request); }
  }

  /** A new key: the rule runs on what the maps hold. */
  lemma CurrentAgrees(c: Tx.Config<DeviceInventory>, mem: Mem, who: Account, state: Option<bytes>)
    requires Tx.Lawful(c) && StateAgrees(c, mem, who, state) && c.first == Empty
    ensures Tx.Current(c, state) == Some(CurrentOf(mem, who)) && c.valid(CurrentOf(mem, who))
  {
  }

  lemma RecordIsFound(mem: Mem, who: Account, key: key32, request: Request, next: DeviceInventory, k: RetryKey)
    requires OneRecordPerKey(mem) && RecordedUnder(mem, (who, key)).None?
    ensures var mem' := Record(mem, who, key, request, next);
            && OneRecordPerKey(mem')
            && RecordedUnder(mem', k) == if k == (who, key) then Some(LifecycleMutation(request, next))
              else RecordedUnder(mem, k)
  {
  }

  /** Recording on both sides keeps the account in agreement. */
  lemma RecordAgrees(c: Tx.Config<DeviceInventory>, mem: Mem, who: Account, db: Serial.Db, key: key32,
        request: Request, next: DeviceInventory)
    requires OneRecordPerKey(mem) && AccountAgrees(c, mem, who, db) && c.known && c.valid(next)
    requires RecordedUnder(mem, (who, key)).None?
    ensures AccountAgrees(c, Record(mem, who, key, request, next), who,
                          Serial.Db(Some(c.encode(next)),
                            db.mutations[key := (EncodeRequest(request), c.encode(next))]))
  {
    var mem', mutations := Record(mem, who, key, request, next),
      db.mutations[key := (EncodeRequest(request), c.encode(next))];
    forall k: key32 ensures KeyAgrees(c, RecordedUnder(mem', (who, k)), mutations, k) {
      RecordIsFound(mem, who, key, request, next, (who, k));
      assert KeyAgrees(c, RecordedUnder(mem, (who, k)), db.mutations, k);
    }
  }

  /** Recording for one account leaves every other as it was. */
  lemma OthersAgree(c: Tx.Config<DeviceInventory>, mem: Mem, who: Account, key: key32, request: Request,
        next: DeviceInventory, other: Account, db: Serial.Db)
    requires OneRecordPerKey(mem) && RecordedUnder(mem, (who, key)).None?
    requires other != who && AccountAgrees(c, mem, other, db)
    ensures AccountAgrees(c, Record(mem, who, key, request, next), other, db)
  {
    var mem' := Record(mem, who, key, request, next);
    forall k: key32 ensures KeyAgrees(c, RecordedUnder(mem', (other, k)), db.mutations, k) {
      RecordIsFound(mem, who, key, request, next, (other, k));
      assert KeyAgrees(c, RecordedUnder(mem, (other, k)), db.mutations, k);
    }
  }

  /** What both stores do with a call on one account, given the configuration and the rule. */
  function OnAccount(c: Tx.Config<DeviceInventory>, rule: Tx.Rule<DeviceInventory>, mem: Mem, who: Account, key: key32,
        request: Request): (Tx.Answer<DeviceInventory>, Mem) {
    if !c.known then (Tx.Failed(Tx.Refused(UnknownUser)), mem)
    else
      match RecordedUnder(mem, (who, key))
      case Some(prior) => (if prior.request == request then Tx.Answered(prior.result)
        else Tx.Failed(Tx.Refused(IdempotencyConflict)), mem)
      case None =>
        match rule(CurrentOf(mem, who))
        case Refuse(e) => (Tx.Failed(Tx.Refused(e)), mem)
        case Next(next) => (Tx.Answered(next), Record(mem, who, key, request, next))
  }

  lemma MutateOnAccount(c: Tx.Config<DeviceInventory>, rule: Tx.Rule<DeviceInventory>, mem: Mem, who: Account,
        db: Serial.Db, key: key32, request: Request)
    requires Tx.Lawful(c) && Tx.Checked(c, rule) && c.first == Empty && OneRecordPerKey(mem)
             && AccountAgrees(c, mem, who, db)
    ensures var (answer, db') := Serial.Mutate(c, db, key, EncodeRequest(request), rule);
            var (answer', mem') := OnAccount(c, rule, mem, who, key, request);
            answer == answer' && OneRecordPerKey(mem') && AccountAgrees(c, mem', who, db')
  {
    if c.known {
      assert KeyAgrees(c, RecordedUnder(mem, (who, key)), db.mutations, key);
      if key in db.mutations {
        PriorAgrees(c, db.mutations[key], RecordedUnder(mem, (who, key)).value, request);
      } else {
        CurrentAgrees(c, mem, who, db.state);
        var next := rule(CurrentOf(mem, who));
        if next.Next? {
          RecordIsFound(mem, who, key, request, next.value, (who, key));
          RecordAgrees(c, mem, who, db, key, request, next.value);
        }
      }
    }
  }

  lemma CalledOnAccount(core: Core, dir: Directory, mem: Mem, who: Account, db: Serial.Db, key: key32, request: Request)
    requires AccountAgrees(AccountConfig(core, dir, who), mem, who, db)
    ensures var (outcome, mem') := Called(core, dir, mem, who, key, request);
            OnAccount(AccountConfig(core, dir, who), RuleFor(core, dir, who, request), mem, who, key, request)
              == (AsAnswer(outcome), mem')
  {
    var c := AccountConfig(core, dir, who);
    assert KeyAgrees(c, RecordedUnder(mem, (who, key)), db.mutations, key);
  }

  function AsAnswer(o: Outcome): Tx.Answer<DeviceInventory> {
    match o
    case Ok(inv) => Tx.Answered(inv)
    case Err(e) => Tx.Failed(Tx.Refused(e))
  }

  /** One call: both stores give the same answer, and still agree. */
  lemma CallAgrees(core: Core, dir: Directory, mem: Mem, rows: Rows, who: Account, key: key32, request: Request)
    requires Lawful(core) && Agrees(core, dir, mem, rows)
    ensures var (outcome, mem') := Called(core, dir, mem, who, key, request);
            var (answer, rows') := StoredCall(core, dir, rows, who, key, request);
            answer == AsAnswer(outcome) && Agrees(core, dir, mem', rows')
  {
    var c, rule, db := AccountConfig(core, dir, who), RuleFor(core, dir, who, request), RowsOf(rows, who);
    AccountConfigIsLawful(core, dir, who);
    RuleIsChecked(core, dir, who, request);
    assert AccountAgrees(c, mem, who, db);
    MutateOnAccount(c, rule, mem, who, db, key, request);
    CalledOnAccount(core, dir, mem, who, db, key, request);
    var (outcome, mem') := Called(core, dir, mem, who, key, request);
    var (answer, rows') := StoredCall(core, dir, rows, who, key, request);
    forall other: Account ensures AccountAgrees(AccountConfig(core, dir, other), mem', other, RowsOf(rows', other)) {
      assert AccountAgrees(AccountConfig(core, dir, other), mem, other, RowsOf(rows, other));
      OthersUntouched(core, dir, mem, who, key, request, other, RowsOf(rows, other));
    }
  }

  lemma OthersUntouched(core: Core, dir: Directory, mem: Mem, who: Account, key: key32, request: Request,
        other: Account, db: Serial.Db)
    requires OneRecordPerKey(mem) && AccountAgrees(AccountConfig(core, dir, other), mem, other, db)
    ensures other != who ==> AccountAgrees(AccountConfig(core, dir, other),
            Called(core, dir, mem, who, key, request).1, other, db)
  {
    var (outcome, mem') := Called(core, dir, mem, who, key, request);
    if other != who && mem' != mem {
      OthersAgree(AccountConfig(core, dir, other), mem, who, key, request, outcome.inventory, other, db);
    }
  }

  // Whole runs.

  datatype Call = Call(who: Account, key: key32, request: Request)

  function MemRun(core: Core, dir: Directory, calls: seq<Call>): (seq<Tx.Answer<DeviceInventory>>, Mem)
    decreases |calls|
  {
    if calls == [] then ([], Mem(map[], map[], map[]))
    else
      var (answers, mem) := MemRun(core, dir, calls[..|calls| - 1]);
      var call := calls[|calls| - 1];
      var (outcome, mem') := Called(core, dir, mem, call.who, call.key, call.request);
      (answers + [AsAnswer(outcome)], mem')
  }

  function StoredRun(core: Core, dir: Directory, calls: seq<Call>): (seq<Tx.Answer<DeviceInventory>>, Rows)
    decreases |calls|
  {
    if calls == [] then ([], map[])
    else
      var (answers, rows) := StoredRun(core, dir, calls[..|calls| - 1]);
      var call := calls[|calls| - 1];
      var (answer, rows') := StoredCall(core, dir, rows, call.who, call.key, call.request);
      (answers + [answer], rows')
  }

  ghost predicate RunsAgree(core: Core, dir: Directory, mem: (seq<Tx.Answer<DeviceInventory>>, Mem),
        stored: (seq<Tx.Answer<DeviceInventory>>, Rows)) {
    mem.0 == stored.0 && Agrees(core, dir, mem.1, stored.1)
  }

  /** Every sequence of calls, retries and conflicts included, is answered alike by both stores. */
  lemma {:induction false} TheStoresAgree(core: Core, dir: Directory, calls: seq<Call>)
    requires Lawful(core)
    ensures RunsAgree(core, dir, MemRun(core, dir, calls), StoredRun(core, dir, calls))
    decreases |calls|
  {
    if calls == [] {
    } else {
      var init, call := calls[..|calls| - 1], calls[|calls| - 1];
      TheStoresAgree(core, dir, init);
      CallAgrees(core, dir, MemRun(core, dir, init).1, StoredRun(core, dir, init).1, call.who, call.key, call.request);
    }
  }

  // Interleaved transactions on one account, against the in-memory store.

  ghost predicate IsCall(core: Core, dir: Directory, who: Account, key: bytes, request: bytes,
        rule: Tx.Rule<DeviceInventory>) {
    |key| == 32 && exists r :: request == EncodeRequest(r) && rule == RuleFor(core, dir, who, r)
  }

  /** Every transaction that begins is a call of one of the three operations. */
  ghost predicate AllCalls(core: Core, dir: Directory, who: Account, steps: seq<Tx.Step<DeviceInventory>>) {
    forall step | step in steps && step.Begin? :: IsCall(core, dir, who, step.key, step.request, step.rule)
  }

  lemma CallsAreChecked(core: Core, dir: Directory, who: Account, steps: seq<Tx.Step<DeviceInventory>>)
    requires AllCalls(core, dir, who, steps)
    ensures Tx.CheckedSteps(AccountConfig(core, dir, who), steps)
  {
    forall step | step in steps && step.Begin? ensures Tx.Checked(AccountConfig(core, dir, who), step.rule) {
      var r :| step.request == EncodeRequest(r) && step.rule == RuleFor(core, dir, who, r);
      RuleIsChecked(core, dir, who, r);
    }
  }

  ghost predicate Results(answers: seq<Tx.Answer<DeviceInventory>>, log: seq<Tx.Entry<DeviceInventory>>) {
    |answers| == |log| && forall k | 0 <= k < |log| :: answers[k] == Tx.Answered(log[k].after)
  }

  /** The calls are those the log committed: the account, the keys and the requests, in order. */
  ghost predicate AreCalls(calls: seq<Call>, who: Account, log: seq<Tx.Entry<DeviceInventory>>) {
    && |calls| == |log|
    && forall k | 0 <= k < |log| ::
         calls[k].who == who && calls[k].key == log[k].key && EncodeRequest(calls[k].request) == log[k].request
  }

  /** The calls of a log, one after another on the database store, give its results and its rows. */
  ghost predicate SameAsCalls(c: Tx.Config<DeviceInventory>, who: Account, log: seq<Tx.Entry<DeviceInventory>>,
        calls: seq<Call>, run: (seq<Tx.Answer<DeviceInventory>>, Rows)) {
    && AreCalls(calls, who, log)
    && Results(run.0, log)
    && RowsOf(run.1, who) == Serial.Serially(c, log)
  }

  lemma StoredRunGrows(core: Core, dir: Directory, calls: seq<Call>, call: Call)
    ensures var (answers, rows) := StoredRun(core, dir, calls);
            var (answer, rows') := StoredCall(core, dir, rows, call.who, call.key, call.request);
            StoredRun(core, dir, calls + [call]) == (answers + [answer], rows')
  {
    assert (calls + [call])[..|calls|] == calls;
  }

  lemma SeriallyGrows(c: Tx.Config<DeviceInventory>, init: seq<Tx.Entry<DeviceInventory>>, e: Tx.Entry<DeviceInventory>)
    ensures Serial.Serially(c, init + [e]) == Serial.Mutate(c, Serial.Serially(c, init), e.key, e.request, e.rule).1
  {
    assert (init + [e])[..|init|] == init;
  }

  lemma SameAsOneMore(c: Tx.Config<DeviceInventory>, who: Account, init: seq<Tx.Entry<DeviceInventory>>,
        e: Tx.Entry<DeviceInventory>, calls: seq<Call>, call: Call, run: (seq<Tx.Answer<DeviceInventory>>, Rows),
        m: (Tx.Answer<DeviceInventory>, Serial.Db))
    requires SameAsCalls(c, who, init, calls, run)
    requires call.who == who && call.key == e.key && EncodeRequest(call.request) == e.request
    requires m == Serial.Mutate(c, Serial.Serially(c, init), e.key, e.request, e.rule) && m.0 == Tx.Answered(e.after)
    ensures SameAsCalls(c, who, init + [e], calls + [call], (run.0 + [m.0], run.1[who := m.1]))
  {
    CallsGrow(calls, call, who, init, e);
    assert Results(run.0 + [m.0], init + [e]);
    SeriallyGrows(c, init, e);
  }

  lemma CallsGrow(calls: seq<Call>, call: Call, who: Account, init: seq<Tx.Entry<DeviceInventory>>,
        e: Tx.Entry<DeviceInventory>)
    requires AreCalls(calls, who, init) && call.who == who && call.key == e.key
    requires EncodeRequest(call.request) == e.request
    ensures AreCalls(calls + [call], who, init + [e])
  {
  }

  lemma OneMoreCall(core: Core, dir: Directory, who: Account, c: Tx.Config<DeviceInventory>,
        init: seq<Tx.Entry<DeviceInventory>>, e: Tx.Entry<DeviceInventory>, earlier: seq<Call>)
        returns (calls: seq<Call>)
    requires c == AccountConfig(core, dir, who) && IsCall(core, dir, who, e.key, e.request, e.rule)
    requires SameAsCalls(c, who, init, earlier, StoredRun(core, dir, earlier))
    requires Serial.Mutate(c, Serial.Serially(c, init), e.key, e.request, e.rule).0 == Tx.Answered(e.after)
    ensures SameAsCalls(c, who, init + [e], calls, StoredRun(core, dir, calls))
  {
    var r :| e.request == EncodeRequest(r) && e.rule == RuleFor(core, dir, who, r);
    assert EncodeRequest(r) == e.request;
    var run, call := StoredRun(core, dir, earlier), Call(who, e.key, r);
    calls := earlier + [call];
    StoredRunGrows(core, dir, earlier, call);
    SameAsOneMore(c, who, init, e, earlier, call, run, Serial.Mutate(c, RowsOf(run.1, who), e.key, e.request, e.rule));
  }

  lemma FrontAndLast<T>(xs: seq<T>)
    requires xs != []
    ensures xs[..|xs| - 1] + [xs[|xs| - 1]] == xs
  {
  }

  lemma NoCalls(core: Core, dir: Directory, who: Account, c: Tx.Config<DeviceInventory>)
    ensures SameAsCalls(c, who, [], [], StoredRun(core, dir, []))
  {
  }

  lemma {:induction false} CallsOf(core: Core, dir: Directory, who: Account, c: Tx.Config<DeviceInventory>,
        log: seq<Tx.Entry<DeviceInventory>>) returns (calls: seq<Call>)
    requires c == AccountConfig(core, dir, who) && Tx.Lawful(c) && c.known
    requires Tx.Chain(c, log) && Serial.DistinctKeys(log)
    requires forall k | 0 <= k < |log| :: IsCall(core, dir, who, log[k].key, log[k].request, log[k].rule)
    ensures SameAsCalls(c, who, log, calls, StoredRun(core, dir, calls))
    decreases |log|
  {
    if log == [] {
      calls := [];
      NoCalls(core, dir, who, c);
    } else {
      var init, e := log[..|log| - 1], log[|log| - 1];
      FrontAndLast(log);
      Serial.ChainShrinks(c, log);
      var earlier := CallsOf(core, dir, who, c, init);
      Serial.LastCommits(c, log);
      calls := OneMoreCall(core, dir, who, c, init, e, earlier);
    }
  }

  lemma LogIsCalls(core: Core, dir: Directory, who: Account, c: Tx.Config<DeviceInventory>,
        steps: seq<Tx.Step<DeviceInventory>>)
    requires AllCalls(core, dir, who, steps)
    ensures var log := Tx.Run(c, steps).log;
            forall k | 0 <= k < |log| :: IsCall(core, dir, who, log[k].key, log[k].request, log[k].rule)
  {
    Tx.RunOnlyOf(c, steps, (key: bytes, request: bytes, rule: Tx.Rule<DeviceInventory>) =>
      IsCall(core, dir, who, key, request, rule));
  }

  /** The in-memory store, given the calls, answers with the log's results and then holds what the rows hold. */
  ghost predicate MatchesMemory(core: Core, dir: Directory, who: Account, w: Tx.World<DeviceInventory>,
        calls: seq<Call>) {
    && AreCalls(calls, who, w.log)
    && Results(MemRun(core, dir, calls).0, w.log)
    && AccountAgrees(AccountConfig(core, dir, who), MemRun(core, dir, calls).1, who, Serial.Db(w.state, w.mutations))
  }

  lemma SameIsMatching(core: Core, dir: Directory, who: Account, w: Tx.World<DeviceInventory>, calls: seq<Call>)
    requires Lawful(core) && SameAsCalls(AccountConfig(core, dir, who), who, w.log, calls, StoredRun(core, dir, calls))
    requires Serial.Db(w.state, w.mutations) == Serial.Serially(AccountConfig(core, dir, who), w.log)
    ensures MatchesMemory(core, dir, who, w, calls)
  {
    TheStoresAgree(core, dir, calls);
    assert AccountAgrees(AccountConfig(core, dir, who), MemRun(core, dir, calls).1, who,
      RowsOf(StoredRun(core, dir, calls).1, who));
  }

  /**
    However the transactions of an account interleave and fail, there is a sequence of
    calls, one for each mutation that committed and in that order, which the in-memory
    store answers with the same results and after which it holds the same inventory and
    the same retry records.
   */
  lemma InterleavingsMatchMemory(core: Core, dir: Directory, who: Account, steps: seq<Tx.Step<DeviceInventory>>)
        returns (calls: seq<Call>)
    requires Lawful(core) && AllCalls(core, dir, who, steps)
    ensures MatchesMemory(core, dir, who, Tx.Run(AccountConfig(core, dir, who), steps), calls)
  {
    var c := AccountConfig(core, dir, who);
    var w := Tx.Run(c, steps);
    AccountConfigIsLawful(core, dir, who);
    CallsAreChecked(core, dir, who, steps);
    Tx.RunKeeps(c, steps);
    Serial.RunSerial(c, steps);
    Serial.EveryRunIsSerial(c, steps);
    if c.known {
      LogIsCalls(core, dir, who, c, steps);
      calls := CallsOf(core, dir, who, c, w.log);
    } else {
      Serial.UnknownNeverCommits(c, steps);
      calls := [];
    }
    SameIsMatching(core, dir, who, w, calls);
  }
}
