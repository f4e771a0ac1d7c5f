/**
  What an account store is, said of the operations that made it: who can hold a name, which
  sessions and API keys are in force, and what no operation ever takes back.
 */
module AccountRules {
  import opened Bytes
  import opened Inventory
  import opened InventoryStore
  import opened Persist
  import opened AccountLife

  // Names.

  ghost predicate NamesAreUnique(s: Store) {
    forall a, b | a in s.tenants && b in s.tenants && a != b ::
      s.tenants[a].username != s.tenants[b].username && s.tenants[a].email != s.tenants[b].email
  }

  lemma {:induction false} TenantNamesAreUnique(env: Env, steps: seq<Step>)
    ensures NamesAreUnique(Run(env, steps))
    decreases |steps|
  {
    if steps != [] {
      TenantNamesAreUnique(env, steps[..|steps| - 1]);
      StepKeepsNames(env, Run(env, steps[..|steps| - 1]), steps[|steps| - 1]);
    }
  }

  lemma StepKeepsNames(env: Env, s: Store, step: Step)
    requires NamesAreUnique(s)
    ensures NamesAreUnique(Apply(env, s, step))
  {
    if step.SignUpTenant? {
      TenantSignsUpExactly(env, s, step.id, step.tenant, step.hash, step.prefix, step.created);
    } else {
      assert Apply(env, s, step).tenants == s.tenants;
    }
  }

  /** A tenant is taken in, with its first key, exactly when its id, username and e-mail are all new. */
  lemma TenantSignsUpExactly(env: Env, s: Store, id: bytes, tenant: Tenant, hash: key32, prefix: bytes, created: u64)
    ensures var s' := Apply(env, s, SignUpTenant(id, tenant, hash, prefix, created));
            if id !in s.tenants
              && (forall x | x in s.tenants ::
                    s.tenants[x].username != tenant.username && s.tenants[x].email != tenant.email)
            then s' == s.(tenants := s.tenants[id := tenant],
                          apiKeys := s.apiKeys[hash := ApiKey(id, prefix, None, created)])
            else s' == s
  {
  }

  /** A user is taken in exactly when the tenant exists and the name is new there. */
  lemma UserSignsUpExactly(env: Env, s: Store, tenant: bytes, name: bytes, password: bytes)
    ensures var s' := Apply(env, s, SignUpUser((tenant, name), password));
            && (forall who :: who in s'.users <==> who in s.users || (who == (tenant, name) && tenant in s.tenants))
            && (forall who | who in s'.users ::
                  s'.users[who] == if who in s.users then s.users[who] else password)
            && s' == s.(users := s'.users)
  {
  }

  // Nothing takes back a tenant, a user or a recorded device call.

  ghost predicate Holds(s: Store, s': Store) {
    && (forall id | id in s.tenants :: id in s'.tenants && s'.tenants[id] == s.tenants[id])
    && (forall who | who in s.users :: who in s'.users && s'.users[who] == s.users[who])
    && (forall k | k in s.links :: k in s'.links && s'.links[k] == s.links[k])
    && (forall k | k in s.lifecycle :: k in s'.lifecycle && s'.lifecycle[k] == s.lifecycle[k])
  }

  lemma StepTakesNothingBack(env: Env, s: Store, step: Step)
    ensures Holds(s, Apply(env, s, step))
  {
    match step
    case Mutate(who, key, request) => CallTakesNothingBack(env, s, who, key, request);
    case SignUpTenant(id, tenant, hash, prefix, created) =>
      TenantSignsUpExactly(env, s, id, tenant, hash, prefix, created);
    case SignUpUser(who, password) => UserTakesNothingBack(env, s, who, password);
    case _ =>
      SameHolds(s, Apply(env, s, step));
  }

  lemma SameHolds(s: Store, s': Store)
    requires s' == s.(apiKeys := s'.apiKeys, sessions := s'.sessions)
    ensures Holds(s, s')
  {
  }

  lemma UserTakesNothingBack(env: Env, s: Store, who: Account, password: bytes)
    ensures Holds(s, Apply(env, s, SignUpUser(who, password)))
  {
    UserSignsUpExactly(env, s, who.0, who.1, password);
  }

  lemma CallTakesNothingBack(env: Env, s: Store, who: Account, key: key32, request: Request)
    ensures Holds(s, WithMem(s, CallOn(env, s, who, key, request)))
  {
    var next := CallRecords(env, s, who, key, request);
  }

  lemma HoldsOneMore(env: Env, a: Store, b: Store, step: Step, c: Store)
    requires Holds(a, b) && c == Apply(env, b, step)
    ensures Holds(a, c)
  {
    StepTakesNothingBack(env, b, step);
  }

  /** Over every run, the tenants, users and recorded results it held after `n` steps it holds to the end. */
  lemma {:induction false} AccountsAreForGood(env: Env, steps: seq<Step>, n: nat)
    requires n <= |steps|
    ensures Holds(Run(env, steps[..n]), Run(env, steps))
    decreases |steps|
  {
    if n == |steps| {
      assert steps[..n] == steps;
    } else {
      var front, last := steps[..|steps| - 1], steps[|steps| - 1];
      assert front[..n] == steps[..n];
      AccountsAreForGood(env, front, n);
      HoldsOneMore(env, Run(env, steps[..n]), Run(env, front), last, Run(env, steps));
    }
  }

  // Sessions.

  /** What a step did to one token. */
  datatype Mark = Issued(session: Session) | Ended | Neither

  /** A sign-in of an existing user issues its token; ending sessions ends the ones it names. */
  function MarkOf(s: Store, step: Step, token: key32): Mark {
    if step.SignIn? && step.token == token && step.who in s.users && step.who.0 in s.tenants then
      Issued(Session(step.who, step.expires))
    else if step.EndSessions? && token in step.gone then Ended
    else Neither
  }

  function Marks(env: Env, steps: seq<Step>, token: key32): seq<Mark>
    decreases |steps|
  {
    if steps == [] then []
    else
      var front := steps[..|steps| - 1];
      Marks(env, front, token) + [MarkOf(Run(env, front), steps[|steps| - 1], token)]
  }

  /** Mark `k` issued the session, and nothing since issued its token again or ended it. */
  ghost predicate InForce(marks: seq<Mark>, k: nat, x: Session) {
    k < |marks| && marks[k] == Issued(x) && forall j | k < j < |marks| :: marks[j] == Neither
  }

  lemma SessionAfter(env: Env, s: Store, step: Step, token: key32, x: Session)
    ensures var s', mark := Apply(env, s, step), MarkOf(s, step, token);
            (token in s'.sessions && s'.sessions[token] == x) <==>
            mark == Issued(x) || (mark == Neither && token in s.sessions && s.sessions[token] == x)
  {
  }

  lemma LastMark(marks: seq<Mark>, mark: Mark, x: Session)
    ensures (exists k: nat :: InForce(marks + [mark], k, x)) <==>
            mark == Issued(x) || (mark == Neither && exists k: nat :: InForce(marks, k, x))
  {
    var all := marks + [mark];
    assert all[|marks|] == mark && forall j | 0 <= j < |marks| :: all[j] == marks[j];
    if k: nat :| InForce(all, k, x) {
      if k < |marks| { assert InForce(marks, k, x); }
    }
    if mark == Issued(x) { assert InForce(all, |marks|, x); }
    if mark == Neither {
      if k: nat :| InForce(marks, k, x) { assert InForce(all, k, x); }
    }
  }

  /**
    Over every run: a token is a session if and only if a sign-in of an existing user issued
    it, and since then it was neither issued again nor ended; it is then the session it was
    issued as.
   */
  lemma {:induction false} SessionsExactly(env: Env, steps: seq<Step>, token: key32, x: Session)
    ensures var s := Run(env, steps);
            (token in s.sessions && s.sessions[token] == x) <==>
            exists k: nat :: InForce(Marks(env, steps, token), k, x)
    decreases |steps|
  {
    if steps == [] {
      assert forall k: nat :: !InForce([], k, x);
    } else {
      var front, last := steps[..|steps| - 1], steps[|steps| - 1];
      SessionsExactly(env, front, token, x);
      SessionAfter(env, Run(env, front), last, token, x);
      LastMark(Marks(env, front, token), MarkOf(Run(env, front), last, token), x);
      assert Marks(env, steps, token) == Marks(env, front, token) + [MarkOf(Run(env, front), last, token)];
    }
  }

  // API keys.

  /** Revoking takes exactly the tenant's keys with that prefix, and no other tenant's. */
  lemma RevocationExactly(env: Env, s: Store, of: bytes, prefix: bytes)
    ensures var s' := Apply(env, s, RevokeApiKey(of, prefix));
            && (forall k :: k in s'.apiKeys <==>
                  k in s.apiKeys && (s.apiKeys[k].tenant != of || s.apiKeys[k].prefix != prefix))
            && (forall k | k in s'.apiKeys :: s'.apiKeys[k] == s.apiKeys[k])
            && s' == s.(apiKeys := s'.apiKeys)
  {
  }

  /** A key is created exactly when its tenant exists, for that tenant and with its label. */
  lemma CreationExactly(env: Env, s: Store, of: bytes, hash: key32, prefix: bytes, alias: Option<bytes>, created: u64)
    ensures var s' := Apply(env, s, CreateApiKey(of, hash, prefix, alias, created));
            && (of in s.tenants ==> hash in s'.apiKeys && s'.apiKeys[hash] == ApiKey(of, prefix, alias, created))
            && (forall k :: k in s'.apiKeys <==> k in s.apiKeys || (k == hash && of in s.tenants))
            && (forall k | k in s'.apiKeys && !(k == hash && of in s.tenants) :: s'.apiKeys[k] == s.apiKeys[k])
            && s' == s.(apiKeys := s'.apiKeys)
  {
  }

  // Device calls.

  /** Under a retry key already recorded, of either kind, a device call changes nothing. */
  lemma RetryChangesNothing(env: Env, s: Store, who: Account, key: key32, request: Request)
    requires (who, key) in s.links || (who, key) in s.lifecycle
    ensures Apply(env, s, Mutate(who, key, request)) == s
  {
    assert CallOn(env, s, who, key, request) == MemOf(s);
  }

  /**
    Under a new key of a user there is, a call its rule admits leaves the account with the
    result and records it under that key, with what was asked; one its rule refuses changes nothing.
   */
  lemma CallIsRecorded(env: Env, s: Store, who: Account, key: key32, request: Request)
    requires who in s.users && who.0 in s.tenants && (who, key) !in s.links && (who, key) !in s.lifecycle
    ensures var current := if who in s.inventories then s.inventories[who] else Empty;
            var r := Transition(env.core, env.handle(s.tenants[who.0].username, who.1), current, request);
            var s' := Apply(env, s, Mutate(who, key, request));
            && (r.Err? ==> s' == s)
            && (r.Ok? && request.Link? ==>
                  s' == s.(inventories := s.inventories[who := r.inventory],
                           links := s.links[(who, key) :=
                             InventoryMutation(request.predecessor, request.binding, r.inventory)]))
            && (r.Ok? && !request.Link? ==>
                  s' == s.(inventories := s.inventories[who := r.inventory],
                           lifecycle := s.lifecycle[(who, key) := LifecycleMutation(request, r.inventory)]))
  {
  }
}
