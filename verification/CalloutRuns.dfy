/**
 The running service as a transition system: any number of authorization calls, each a sequence
 of steps, interleave with one another and with the reload loop. The counters are incremented
 one at a time, so other steps can come in between.
 */
module CalloutRuns {
  import opened Wrappers
  import opened Runs
  import opened Identity
  import opened Authz
  import opened Verifier
  import opened Callout
  import opened Reload
  import opened Config
  import M = Metrics

  type Ruleset = (Verifier, PolicyState)

  function RulesetOf(service: Service): Ruleset {
    (service.verifier, service.policy)
  }

  /** How far a call has come. `Denying` and `Allowing` count the counter increments already made. */
  datatype Phase =
    | Arrived
    | Loaded(ruleset: Ruleset)
    | Identified(ruleset: Ruleset, id: Identity)
    | Permitted(id: Identity, decision: Decision)
    | Denying(reason: M.Reason, counted: nat)
    | Allowing(user: UserClaims, jwt: string, counted: nat)
    | Done(outcome: Outcome)

  datatype Call = Call(req: Request, env: Env, phase: Phase)

  /** The reload loop: waiting, having loaded a configuration, having built its verifier, having installed the pair. */
  datatype Watcher =
    | Waiting(current: Service)
    | HasConfig(current: Service, attempt: Attempt)
    | HasVerifier(current: Service, attempt: Attempt, next: Service)
    | Swapped(attempt: Attempt, next: Service)

  datatype State = State(
    installed: Ruleset, calls: map<nat, Call>, counters: M.Counters, metricsOn: bool, watcher: Watcher)

  // ---------- Steps ----------

  /** One step of one call; only its first step looks at the installed ruleset. */
  ghost predicate CallMoves(installed: Ruleset, on: bool, call: Call, call': Call, n: M.Counters, n': M.Counters) {
    && call' == call.(phase := call'.phase)
    && match call.phase
       case Arrived => n' == n && call'.phase == Loaded(installed)
       case Loaded(ruleset) =>
         n' == n &&
         if call.req.token == "" then call'.phase == Denying(M.NoToken, 0)
         else exists r ::
                Verifies(ruleset.0, call.req.token, call.env.oracle, r) && call'.phase == AfterVerify(ruleset, r)
       case Identified(ruleset, id) =>
         n' == n && call'.phase == AfterEvaluate(id, Decide(ruleset.1, id, call.env.verdicts))
       case Permitted(id, d) =>
         n' == n && call'.phase == AfterSign(UserFor(call.req, id, d, call.env.now), call.env)
       case Denying(reason, counted) =>
         if !on || counted == 2 then call'.phase == Done(Rejected(reason)) && n' == if on then M.Observe(n) else n
         else call'.phase == Denying(reason, counted + 1)
              && n' == if counted == 0 then M.IncDenied(n) else M.IncReason(n, reason)
       case Allowing(user, jwt, counted) =>
         if !on || counted == 1 then call'.phase == Done(Issued(user, jwt)) && n' == if on then M.Observe(n) else n
         else call'.phase == Allowing(user, jwt, counted + 1) && n' == M.IncAllowed(n)
       case Done(_) => false
  }

  function AfterVerify(ruleset: Ruleset, r: Result<Identity, VerifyError>): Phase {
    if r.Failure? then Denying(M.VerificationFailed, 0) else Identified(ruleset, r.value)
  }

  function AfterEvaluate(id: Identity, d: Result<Decision, EvaluateError>): Phase {
    if d.Failure? then Denying(M.PolicyNoMatch, 0) else Permitted(id, d.value)
  }

  function AfterSign(user: UserClaims, env: Env): Phase {
    match env.signs(user)
    case None => Done(Rejected(M.SigningFailed))
    case Some(jwt) => Allowing(user, jwt, 0)
  }

  ghost predicate CallStep(s: State, s': State, c: nat) {
    && c in s.calls && c in s'.calls
    && s' == s.(calls := s.calls[c := s'.calls[c]], counters := s'.counters)
    && CallMoves(s.installed, s.metricsOn, s.calls[c], s'.calls[c], s.counters, s'.counters)
  }

  ghost predicate ArriveStep(s: State, s': State, c: nat) {
    && c !in s.calls && c in s'.calls && s'.calls[c].phase.Arrived?
    && s' == s.(calls := s.calls[c := s'.calls[c]])
  }

  ghost predicate WatchStep(s: State, s': State) {
    match s.watcher
    case Waiting(current) =>
      exists attempt: Attempt ::
        s' == s.(watcher := if LoadConfig(attempt.files).Success? then HasConfig(current, attempt)
                            else Waiting(current))
    case HasConfig(current, attempt) =>
      s' == s.(watcher := if ServiceOf(attempt).Some? then HasVerifier(current, attempt, ServiceOf(attempt).value)
                          else Waiting(current))
    case HasVerifier(_, attempt, next) => s' == s.(installed := RulesetOf(next), watcher := Swapped(attempt, next))
    case Swapped(_, next) => s' == s.(watcher := Waiting(next))
  }

  ghost predicate Step(s: State, s': State) {
    || (exists c :: CallStep(s, s', c))
    || (exists c :: ArriveStep(s, s', c))
    || WatchStep(s, s')
  }

  /** The service has just started with the configuration of `attempt`. */
  ghost predicate Starts(s: State, attempt: Attempt) {
    && ServiceOf(attempt).Some?
    && s.watcher == Waiting(ServiceOf(attempt).value) && s.installed == RulesetOf(ServiceOf(attempt).value)
    && s.calls == map[] && s.counters == M.ZERO
  }

  ghost function Steps(): (State, State) -> bool {
    (s, s') => Step(s, s')
  }

  ghost predicate Run(trace: seq<State>) {
    Chain(Steps(), trace) && exists attempt :: Starts(trace[0], attempt)
  }

  lemma RunStep(trace: seq<State>, i: nat)
    requires Chain(Steps(), trace) && 0 < i < |trace|
    ensures Step(trace[i - 1], trace[i])
  {
    assert StepAt(Steps(), trace, i);
  }

  /** A step leaves a call alone, lets it arrive, or is a step of that call. */
  lemma StepOfCall(s: State, s': State, c: nat)
    requires Step(s, s') && c in s'.calls
    ensures || (c in s.calls && s.calls[c] == s'.calls[c])
            || CallStep(s, s', c)
            || s'.calls[c].phase.Arrived?
  {
    if d :| CallStep(s, s', d) {
    } else if d :| ArriveStep(s, s', d) {
    }
  }

  // ---------- Snapshot consistency ----------

  /** What a call in this phase has established, relative to the ruleset it loaded. */
  ghost predicate Consistent(ruleset: Ruleset, call: Call) {
    match call.phase
    case Arrived => false
    case Loaded(rs) => rs == ruleset
    case Identified(rs, id) =>
      rs == ruleset && call.req.token != "" && Verifies(ruleset.0, call.req.token, call.env.oracle, Success(id))
    case Permitted(id, d) =>
      call.req.token != "" && Verifies(ruleset.0, call.req.token, call.env.oracle, Success(id))
      && Decide(ruleset.1, id, call.env.verdicts) == Success(d)
    case Denying(reason, _) => Yields(ruleset.0, ruleset.1, call.req, call.env, Rejected(reason))
    case Allowing(user, jwt, _) => Yields(ruleset.0, ruleset.1, call.req, call.env, Issued(user, jwt))
    case Done(outcome) => Yields(ruleset.0, ruleset.1, call.req, call.env, outcome)
  }

  lemma {:induction false} MovesKeepConsistent(
    ruleset: Ruleset, installed: Ruleset, on: bool, call: Call, call': Call, n: M.Counters, n': M.Counters)
    requires CallMoves(installed, on, call, call', n, n') && Consistent(ruleset, call)
    ensures Consistent(ruleset, call')
  {
    match call.phase
    case Loaded(rs) =>
      if call.req.token != "" {
        var r :| Verifies(rs.0, call.req.token, call.env.oracle, r) && call'.phase == AfterVerify(rs, r);
        if r.Failure? {
          assert Concluded(ruleset.1, call.req, call.env, r) == Rejected(M.VerificationFailed);
        }
      }
    case Identified(rs, id) =>
      var r: Result<Identity, VerifyError> := Success(id);
      if Decide(rs.1, id, call.env.verdicts).Failure? {
        assert Concluded(ruleset.1, call.req, call.env, r) == Rejected(M.PolicyNoMatch);
      }
    case Permitted(id, d) =>
      var r: Result<Identity, VerifyError> := Success(id);
      assert Concluded(ruleset.1, call.req, call.env, r) == Sealed(UserFor(call.req, id, d, call.env.now), call.env);
    case _ =>
  }

  /** At step `k` of the run, call `c` loaded the ruleset installed then. */
  ghost predicate LoadsAt(trace: seq<State>, c: nat, k: nat) {
    && k + 1 < |trace| && c in trace[k].calls && c in trace[k + 1].calls
    && trace[k].calls[c].phase.Arrived? && trace[k + 1].calls[c].phase == Loaded(trace[k].installed)
  }

  lemma {:induction false} LoadedOnce(trace: seq<State>, i: nat, c: nat) returns (k: nat)
    requires Chain(Steps(), trace) && trace[0].calls == map[]
    requires i < |trace| && c in trace[i].calls && !trace[i].calls[c].phase.Arrived?
    ensures k < i && LoadsAt(trace, c, k)
    ensures ConsistentWith(trace[k], trace[i], c)
    decreases i
  {
    CallBeforeAt(trace, i, c);
    if trace[i - 1].calls[c].phase.Arrived? {
      k := i - 1;
    } else {
      k := LoadedOnce(trace, i - 1, c);
      StaysConsistentAt(trace, k, i, c);
    }
  }

  lemma CallBeforeAt(trace: seq<State>, i: nat, c: nat)
    requires Chain(Steps(), trace) && 0 < i < |trace| && c in trace[i].calls && !trace[i].calls[c].phase.Arrived?
    ensures c in trace[i - 1].calls
    ensures trace[i - 1].calls[c].phase.Arrived? ==>
            LoadsAt(trace, c, i - 1) && ConsistentWith(trace[i - 1], trace[i], c)
  {
    RunStep(trace, i);
    CallBefore(trace[i - 1], trace[i], c);
  }

  lemma StaysConsistentAt(trace: seq<State>, k: nat, i: nat, c: nat)
    requires Chain(Steps(), trace) && 0 < i < |trace| && k < |trace|
    requires c in trace[i].calls && !trace[i].calls[c].phase.Arrived? && ConsistentWith(trace[k], trace[i - 1], c)
    ensures ConsistentWith(trace[k], trace[i], c)
  {
    RunStep(trace, i);
    StaysConsistent(trace[k], trace[i - 1], trace[i], c);
  }

  lemma RunStart(trace: seq<State>)
    requires Run(trace)
    ensures trace[0].calls == map[] && trace[0].counters == M.ZERO
  {
    var attempt :| Starts(trace[0], attempt);
  }

  /** The same request, consistent in `s` with the ruleset installed in `origin`. */
  ghost predicate ConsistentWith(origin: State, s: State, c: nat) {
    && c in origin.calls && c in s.calls
    && s.calls[c].req == origin.calls[c].req && s.calls[c].env == origin.calls[c].env
    && Consistent(origin.installed, s.calls[c])
  }

  /** A call past its arrival was there before the step, and if it had only arrived, the step was its load. */
  lemma CallBefore(s: State, s': State, c: nat)
    requires Step(s, s') && c in s'.calls && !s'.calls[c].phase.Arrived?
    ensures c in s.calls
    ensures s.calls[c].phase.Arrived? ==>
              s'.calls[c].phase == Loaded(s.installed) && ConsistentWith(s, s', c)
  {
    StepOfCall(s, s', c);
  }

  lemma StaysConsistent(origin: State, s: State, s': State, c: nat)
    requires Step(s, s') && c in s'.calls && !s'.calls[c].phase.Arrived? && ConsistentWith(origin, s, c)
    ensures ConsistentWith(origin, s', c)
  {
    StepOfCall(s, s', c);
    if CallStep(s, s', c) {
      MovesKeepConsistent(origin.installed, s.installed, s.metricsOn, s.calls[c], s'.calls[c], s.counters, s'.counters);
    }
  }

  /**
   Snapshot consistency: in every run, the outcome of a finished call is one that a call running
   alone can have against the verifier and policy that were installed together when it loaded them.
   */
  lemma {:induction false} SnapshotConsistency(trace: seq<State>, i: nat, c: nat)
    requires Run(trace) && i < |trace| && c in trace[i].calls && trace[i].calls[c].phase.Done?
    ensures exists k :: 0 <= k < i && LoadsAt(trace, c, k) &&
              Yields(trace[k].installed.0, trace[k].installed.1, trace[i].calls[c].req, trace[i].calls[c].env,
                     trace[i].calls[c].phase.outcome)
  {
    RunStart(trace);
    var k := LoadedOnce(trace, i, c);
  }

  // ---------- Reload atomicity ----------

  /** The installed pair, and what the reload loop holds, come from configurations that passed every stage. */
  ghost predicate WellInstalled(s: State) {
    && (exists attempt :: ServiceOf(attempt).Some? && RulesetOf(ServiceOf(attempt).value) == s.installed)
    && match s.watcher
       case Waiting(current) => RulesetOf(current) == s.installed
       case HasConfig(current, _) => RulesetOf(current) == s.installed
       case HasVerifier(current, attempt, next) => RulesetOf(current) == s.installed && ServiceOf(attempt) == Some(next)
       case Swapped(attempt, next) => ServiceOf(attempt) == Some(next) && RulesetOf(next) == s.installed
  }

  lemma {:induction false} AlwaysWellInstalled(trace: seq<State>, i: nat)
    requires Run(trace) && i < |trace|
    ensures WellInstalled(trace[i])
  {
    var attempt :| Starts(trace[0], attempt);
    StartWellInstalled(trace[0], attempt);
    forall s, s' | WellInstalled(s) && Steps()(s, s') ensures WellInstalled(s') {
      StepWellInstalled(s, s');
    }
    Invariance(Steps(), trace, s => WellInstalled(s), i);
  }

  lemma StartWellInstalled(s: State, attempt: Attempt)
    requires Starts(s, attempt)
    ensures WellInstalled(s)
  {}

  lemma StepWellInstalled(s: State, s': State)
    requires Step(s, s') && WellInstalled(s)
    ensures WellInstalled(s')
  {
    if WatchStep(s, s') && s.watcher.HasVerifier? {
      assert ServiceOf(s.watcher.attempt) == Some(s.watcher.next);
    }
  }

  /** The attempt is that of the start, or the one whose reload was swapped in at step `k` of the run. */
  ghost predicate MadeAt(trace: seq<State>, attempt: Attempt, k: int) {
    trace != [] && if k < 0 then Starts(trace[0], attempt) else SwapsAt(trace, attempt, k)
  }

  ghost predicate SwapsAt(trace: seq<State>, attempt: Attempt, k: nat) {
    SwapStep(trace, k) && attempt == trace[k].watcher.attempt
  }

  ghost predicate SwapStep(trace: seq<State>, k: int) {
    0 <= k && k + 1 < |trace| && Swapping(trace[k].watcher, trace[k + 1].watcher)
  }

  predicate Swapping(before: Watcher, after: Watcher) {
    before.HasVerifier? && after.Swapped?
  }

  /**
   Reload atomicity: in every run, the installed verifier and policy are built from one and the
   same configuration that passed loading, validation and construction, that of the latest reload
   swapped in before, or of the start if there was none, and whenever the reload loop waits its
   current configuration is the installed one.
   */
  lemma {:induction false} InstalledFromOneConfig(trace: seq<State>, i: nat)
    requires Run(trace) && i < |trace|
    ensures exists attempt, k :: k < i && MadeAt(trace, attempt, k) && InForce(attempt, trace[i].installed)
                                 && forall m | k < m < i :: !SwapStep(trace, m)
    ensures trace[i].watcher.Waiting? ==> RulesetOf(trace[i].watcher.current) == trace[i].installed
  {
    AlwaysWellInstalled(trace, i);
    var attempt, k := InstalledBy(trace, i);
    ServiceIsBuilt(attempt);
    assert InForce(attempt, trace[i].installed);
  }

  /** The attempt got through every stage, and the ruleset is what it built. */
  ghost predicate InForce(attempt: Attempt, installed: Ruleset) {
    Built(attempt, installed) && BuiltFrom(ServiceOf(attempt).value, attempt)
  }

  ghost predicate Built(attempt: Attempt, installed: Ruleset) {
    ServiceOf(attempt).Some? && installed == RulesetOf(ServiceOf(attempt).value)
  }

  lemma LatestSwap(trace: seq<State>, i: nat) returns (k: int)
    ensures -1 <= k < i && (k >= 0 ==> SwapStep(trace, k)) && forall m | k < m < i :: !SwapStep(trace, m)
  {
    k := i - 1;
    while k >= 0 && !SwapStep(trace, k)
      invariant -1 <= k < i && forall m | k < m < i :: !SwapStep(trace, m)
    {
      k := k - 1;
    }
  }

  lemma InstalledBy(trace: seq<State>, i: nat) returns (attempt: Attempt, k: int)
    requires Run(trace) && i < |trace|
    ensures k < i && MadeAt(trace, attempt, k) && Built(attempt, trace[i].installed)
    ensures forall m | k < m < i :: !SwapStep(trace, m)
  {
    k := LatestSwap(trace, i);
    if k < 0 {
      attempt := StartAttempt(trace);
      KeptBetween(trace, 0, i);
    } else {
      attempt := trace[k].watcher.attempt;
      BuiltBySwap(trace, k);
      KeptBetween(trace, k + 1, i);
    }
  }

  ghost predicate KeptAt(trace: seq<State>, k: nat) {
    k + 1 < |trace| && trace[k + 1].installed == trace[k].installed
  }

  lemma InstalledStays(trace: seq<State>, from: nat, i: nat)
    requires from <= i < |trace| && forall k | from <= k < i :: KeptAt(trace, k)
    ensures trace[i].installed == trace[from].installed
  {
    for j := from to i
      invariant trace[j].installed == trace[from].installed
    {
      assert KeptAt(trace, j);
    }
  }

  lemma KeptBetween(trace: seq<State>, from: nat, i: nat)
    requires Run(trace) && from <= i < |trace| && forall m | from <= m < i :: !SwapStep(trace, m)
    ensures trace[i].installed == trace[from].installed
  {
    forall k | from <= k < i ensures KeptAt(trace, k) {
      assert !SwapStep(trace, k);
      InstalledKept(trace, k);
    }
    InstalledStays(trace, from, i);
  }

  lemma BuiltBySwap(trace: seq<State>, k: nat)
    requires Run(trace) && k + 1 < |trace| && Swapping(trace[k].watcher, trace[k + 1].watcher)
    ensures SwapsAt(trace, trace[k].watcher.attempt, k)
    ensures Built(trace[k].watcher.attempt, trace[k + 1].installed)
  {
    AlwaysWellInstalled(trace, k);
    RunStep(trace, k + 1);
    SwapBuilt(trace[k], trace[k + 1]);
  }

  lemma InstalledKept(trace: seq<State>, k: nat)
    requires Run(trace) && k + 1 < |trace| && !Swapping(trace[k].watcher, trace[k + 1].watcher)
    ensures trace[k + 1].installed == trace[k].installed
  {
    RunStep(trace, k + 1);
    SwapOnly(trace[k], trace[k + 1]);
  }

  lemma StartAttempt(trace: seq<State>) returns (attempt: Attempt)
    requires Run(trace)
    ensures Starts(trace[0], attempt) && Built(attempt, trace[0].installed)
  {
    attempt :| Starts(trace[0], attempt);
  }

  lemma SwapOnly(s: State, s': State)
    requires Step(s, s') && !Swapping(s.watcher, s'.watcher)
    ensures s'.installed == s.installed
  {}

  lemma SwapBuilt(s: State, s': State)
    requires Step(s, s') && WellInstalled(s) && Swapping(s.watcher, s'.watcher)
    ensures Built(s.watcher.attempt, s'.installed)
  {}

  /** The ruleset changes only by a swap to a service that was built completely. */
  lemma {:induction false} OnlySwapsChangeRuleset(trace: seq<State>, i: nat)
    requires Run(trace) && i + 1 < |trace| && trace[i + 1].installed != trace[i].installed
    ensures trace[i].watcher.HasVerifier? && ServiceOf(trace[i].watcher.attempt) == Some(trace[i].watcher.next)
    ensures trace[i + 1] == trace[i].(installed := RulesetOf(trace[i].watcher.next),
                                      watcher := Swapped(trace[i].watcher.attempt, trace[i].watcher.next))
  {
    AlwaysWellInstalled(trace, i);
    RunStep(trace, i + 1);
  }

  /** No call ever meets a policy that was not validated. */
  lemma {:induction false} NeverUnvalidated(trace: seq<State>, i: nat, c: nat)
    requires Run(trace) && i < |trace| && c in trace[i].calls && trace[i].calls[c].phase.Identified?
    ensures var call := trace[i].calls[c];
            Decide(call.phase.ruleset.1, call.phase.id, call.env.verdicts) != Failure(NotValidated)
  {
    RunStart(trace);
    var k := LoadedOnce(trace, i, c);
    InstalledFromOneConfig(trace, k);
  }

  // ---------- Signals take effect ----------

  /** The state after one signal: the watcher waits again, with the new service if the attempt got through. */
  ghost function AfterHup(s: State, attempt: Attempt): State
    requires s.watcher.Waiting?
  {
    if ServiceOf(attempt).Some?
    then s.(installed := RulesetOf(ServiceOf(attempt).value), watcher := Waiting(ServiceOf(attempt).value))
    else s
  }

  /**
   Every signal can be carried out, whatever calls are in flight: from a waiting watcher the loop's
   own steps lead to the state with what the attempt built in force, or back if it fails.
   */
  lemma {:induction false} HupCompletes(s: State, attempt: Attempt)
    requires s.watcher.Waiting?
    ensures Leads(Steps(), s, AfterHup(s, attempt))
  {
    LeadsNowhere(Steps(), s);
    if LoadConfig(attempt.files).Success? {
      var loaded := s.(watcher := HasConfig(s.watcher.current, attempt));
      assert WatchStep(s, loaded);
      LeadsOneMore(Steps(), s, s, loaded);
      if ServiceOf(attempt).Some? {
        BuiltCompletes(s, loaded, attempt, ServiceOf(attempt).value);
      } else {
        assert WatchStep(loaded, s);
        LeadsOneMore(Steps(), s, loaded, s);
      }
    }
  }

  lemma BuiltCompletes(s: State, loaded: State, attempt: Attempt, next: Service)
    requires s.watcher.Waiting? && loaded == s.(watcher := HasConfig(s.watcher.current, attempt))
    requires ServiceOf(attempt) == Some(next) && Leads(Steps(), s, loaded)
    ensures Leads(Steps(), s, s.(installed := RulesetOf(next), watcher := Waiting(next)))
  {
    var built := loaded.(watcher := HasVerifier(s.watcher.current, attempt, next));
    var swapped := built.(installed := RulesetOf(next), watcher := Swapped(attempt, next));
    var done := swapped.(watcher := Waiting(next));
    assert WatchStep(loaded, built) && WatchStep(built, swapped) && WatchStep(swapped, done);
    LeadsOneMore(Steps(), s, loaded, built);
    LeadsOneMore(Steps(), s, built, swapped);
    LeadsOneMore(Steps(), s, swapped, done);
  }

  /** The loop's steps over any signals lead to what `AfterHups` says: the machine does what the loop does. */
  lemma {:induction false} HupsComplete(s: State, attempts: seq<Attempt>) returns (s': State)
    requires s.watcher.Waiting? && s.installed == RulesetOf(s.watcher.current)
    ensures Leads(Steps(), s, s') && s'.calls == s.calls && s'.counters == s.counters
    ensures s'.watcher == Waiting(AfterHups(s.watcher.current, attempts))
    ensures s'.installed == RulesetOf(AfterHups(s.watcher.current, attempts))
    decreases |attempts|
  {
    if attempts == [] {
      s' := s;
      LeadsNowhere(Steps(), s);
    } else {
      var n := |attempts| - 1;
      var mid := HupsComplete(s, attempts[..n]);
      s' := AfterHup(mid, attempts[n]);
      HupCompletes(mid, attempts[n]);
      LeadsOn(Steps(), s, mid, s');
    }
  }

  // ---------- Calls come to an end ----------

  /** How many more steps a call takes at most. */
  function StepsLeft(call: Call): nat {
    match call.phase
    case Arrived => 8
    case Loaded(_) => 7
    case Identified(_, _) => 6
    case Permitted(_, _) => 5
    case Denying(_, counted) => if counted <= 2 then 3 - counted else 1
    case Allowing(_, _, counted) => if counted <= 1 then 2 - counted else 1
    case Done(_) => 0
  }

  ghost predicate CallsInRange(s: State) {
    forall c | c in s.calls :: InRange(s.calls[c])
  }

  lemma {:induction false} StepInRange(s: State, s': State)
    requires CallsInRange(s) && Step(s, s')
    ensures CallsInRange(s')
  {
    forall c | c in s'.calls ensures InRange(s'.calls[c]) {
      StepOfCall(s, s', c);
      if CallStep(s, s', c) {
        MovesInRange(s.installed, s.metricsOn, s.calls[c], s'.calls[c], s.counters, s'.counters);
      }
    }
  }

  lemma MovesInRange(installed: Ruleset, on: bool, call: Call, call': Call, n: M.Counters, n': M.Counters)
    requires CallMoves(installed, on, call, call', n, n') && InRange(call)
    ensures InRange(call') && StepsLeft(call') < StepsLeft(call)
  {}

  /** A call that has not ended has a next step. */
  lemma {:induction false} NextCallStep(installed: Ruleset, on: bool, call: Call, n: M.Counters)
    returns (call': Call, n': M.Counters)
    requires !call.phase.Done?
    ensures CallMoves(installed, on, call, call', n, n')
  {
    n' := n;
    match call.phase
    case Arrived => call' := call.(phase := Loaded(installed));
    case Loaded(ruleset) =>
      if call.req.token == "" {
        call' := call.(phase := Denying(M.NoToken, 0));
      } else {
        var r := VerifiesSomehow(ruleset.0, call.req.token, call.env.oracle);
        call' := call.(phase := AfterVerify(ruleset, r));
      }
    case Identified(ruleset, id) =>
      call' := call.(phase := AfterEvaluate(id, Decide(ruleset.1, id, call.env.verdicts)));
    case Permitted(id, d) => call' := call.(phase := AfterSign(UserFor(call.req, id, d, call.env.now), call.env));
    case Denying(reason, counted) =>
      if !on || counted == 2 {
        call' := call.(phase := Done(Rejected(reason)));
        n' := if on then M.Observe(n) else n;
      } else {
        call' := call.(phase := Denying(reason, counted + 1));
        n' := if counted == 0 then M.IncDenied(n) else M.IncReason(n, reason);
      }
    case Allowing(user, jwt, counted) =>
      if !on || counted == 1 {
        call' := call.(phase := Done(Issued(user, jwt)));
        n' := if on then M.Observe(n) else n;
      } else {
        call' := call.(phase := Allowing(user, jwt, counted + 1));
        n' := M.IncAllowed(n);
      }
  }

  /**
   Calls come to an end, in every reachable state: a call that has not ended can take a step, each
   step it takes brings it nearer its end, and no step of anything else changes it.
   */
  lemma {:induction false} CallsEnd(trace: seq<State>, i: nat, c: nat)
    requires Run(trace) && i < |trace| && c in trace[i].calls && !trace[i].calls[c].phase.Done?
    ensures exists s' :: CallStep(trace[i], s', c)
    ensures forall s' | CallStep(trace[i], s', c) :: StepsLeft(s'.calls[c]) < StepsLeft(trace[i].calls[c])
    ensures forall s' | Step(trace[i], s') && !CallStep(trace[i], s', c) ::
              c in s'.calls && s'.calls[c] == trace[i].calls[c]
  {
    RunStart(trace);
    forall s, s' | CallsInRange(s) && Steps()(s, s') ensures CallsInRange(s') {
      StepInRange(s, s');
    }
    Invariance(Steps(), trace, s => CallsInRange(s), i);
    var s := trace[i];
    var call', n' := NextCallStep(s.installed, s.metricsOn, s.calls[c], s.counters);
    assert CallStep(s, s.(calls := s.calls[c := call'], counters := n'), c);
    forall s' | CallStep(s, s', c) ensures StepsLeft(s'.calls[c]) < StepsLeft(s.calls[c]) {
      MovesInRange(s.installed, s.metricsOn, s.calls[c], s'.calls[c], s.counters, s'.counters);
    }
    forall s' | Step(s, s') && !CallStep(s, s', c) ensures c in s'.calls && s'.calls[c] == s.calls[c] {
      OthersLeaveCall(s, s', c);
    }
  }

  lemma OthersLeaveCall(s: State, s': State, c: nat)
    requires Step(s, s') && c in s.calls && !CallStep(s, s', c)
    ensures c in s'.calls && s'.calls[c] == s.calls[c]
  {
    if d :| CallStep(s, s', d) {
    } else if d :| ArriveStep(s, s', d) {
    }
  }

  /** With metrics off nothing is ever counted. */
  lemma {:induction false} NothingCountedWhenOff(trace: seq<State>, i: nat)
    requires Run(trace) && i < |trace| && !trace[0].metricsOn
    ensures trace[i].counters == M.ZERO
  {
    RunStart(trace);
    forall s: State, s': State | !s.metricsOn && s.counters == M.ZERO && Steps()(s, s')
      ensures !s'.metricsOn && s'.counters == M.ZERO
    {
      OffStep(s, s');
    }
    Invariance(Steps(), trace, (s: State) => !s.metricsOn && s.counters == M.ZERO, i);
  }

  lemma OffStep(s: State, s': State)
    requires !s.metricsOn && s.counters == M.ZERO && Step(s, s')
    ensures !s'.metricsOn && s'.counters == M.ZERO
  {
    if c :| CallStep(s, s', c) {
    } else if c :| ArriveStep(s, s', c) {
    }
  }

  // ---------- Conservation of the counters ----------

  /** The sets of calls the counters stand for. */
  datatype Tally = CountedAllowed | CountedDenied | CountedFor(reason: M.Reason) | Observed
                 | BetweenIncrements | AwaitingObservation | SigningFailures | Finished

  predicate In(t: Tally, call: Call) {
    match t
    case CountedAllowed =>
      || (call.phase.Allowing? && call.phase.counted >= 1)
      || (call.phase.Done? && call.phase.outcome.Issued?)
    case CountedDenied =>
      || (call.phase.Denying? && call.phase.counted >= 1)
      || (call.phase.Done? && call.phase.outcome.Rejected? && call.phase.outcome.reason != M.SigningFailed)
    case CountedFor(reason) =>
      || (call.phase == Denying(reason, 2))
      || (call.phase == Done(Rejected(reason)) && reason != M.SigningFailed)
    case Observed => call.phase.Done? && call.phase.outcome != Rejected(M.SigningFailed)
    case BetweenIncrements => call.phase.Denying? && call.phase.counted == 1
    case AwaitingObservation => (call.phase.Denying? || call.phase.Allowing?) && call.phase.counted >= 1
    case SigningFailures => call.phase == Done(Rejected(M.SigningFailed))
    case Finished => call.phase.Done?
  }

  function Members(calls: map<nat, Call>, t: Tally): set<nat> {
    set c | c in calls && In(t, calls[c])
  }

  function Count(calls: map<nat, Call>, t: Tally): nat {
    |Members(calls, t)|
  }

  lemma {:induction false} CountUpdate(calls: map<nat, Call>, c: nat, call: Call, t: Tally)
    ensures Count(calls[c := call], t) ==
              Count(calls, t) - (if c in calls && In(t, calls[c]) then 1 else 0) + (if In(t, call) then 1 else 0)
  {
    var before, after := Members(calls, t), Members(calls[c := call], t);
    MembersOf(calls, t);
    MembersOf(calls[c := call], t);
    SizeUpdate(before, after, c);
  }

  lemma MembersOf(calls: map<nat, Call>, t: Tally)
    ensures forall c :: c in Members(calls, t) <==> c in calls && In(t, calls[c])
  {}

  lemma SizeUpdate(before: set<nat>, after: set<nat>, c: nat)
    requires forall d | d != c :: d in before <==> d in after
    ensures |after| == |before| - (if c in before then 1 else 0) + (if c in after then 1 else 0)
  {
    var others := before - {c};
    assert others == after - {c};
    assert c in before ==> before == others + {c};
    assert c !in before ==> before == others;
    assert c in after ==> after == others + {c};
    assert c !in after ==> after == others;
  }

  /** No step has gone beyond the increments there are, and a failed signature is never being counted. */
  ghost predicate InRange(call: Call) {
    && (call.phase.Denying? ==> call.phase.counted <= 2 && call.phase.reason != M.SigningFailed)
    && (call.phase.Allowing? ==> call.phase.counted <= 1)
  }

  /** Each counter equals the number of calls that have incremented it. */
  ghost predicate Tallied(s: State) {
    && s.counters.allowed == Count(s.calls, CountedAllowed)
    && s.counters.denied == Count(s.calls, CountedDenied)
    && s.counters.observed == Count(s.calls, Observed)
    && (forall reason :: M.DenialsFor(s.counters, reason) == Count(s.calls, CountedFor(reason)))
    && (forall c | c in s.calls :: InRange(s.calls[c]))
  }

  lemma {:induction false} CallStepDenials(s: State, s': State, c: nat, reason: M.Reason)
    requires s.metricsOn && Tallied(s) && CallStep(s, s', c)
    ensures M.DenialsFor(s'.counters, reason) == Count(s'.calls, CountedFor(reason))
  {
    CountUpdate(s.calls, c, s'.calls[c], CountedFor(reason));
  }

  lemma {:induction false} CallStepTallied(s: State, s': State, c: nat)
    requires s.metricsOn && Tallied(s) && CallStep(s, s', c)
    ensures Tallied(s')
  {
    CountUpdate(s.calls, c, s'.calls[c], CountedAllowed);
    CountUpdate(s.calls, c, s'.calls[c], CountedDenied);
    CountUpdate(s.calls, c, s'.calls[c], Observed);
    forall reason ensures M.DenialsFor(s'.counters, reason) == Count(s'.calls, CountedFor(reason)) {
      CallStepDenials(s, s', c, reason);
    }
  }

  lemma {:induction false} ArriveStepTallied(s: State, s': State, c: nat)
    requires Tallied(s) && ArriveStep(s, s', c)
    ensures Tallied(s')
  {
    var call' := s'.calls[c];
    CountUpdate(s.calls, c, call', CountedAllowed);
    CountUpdate(s.calls, c, call', CountedDenied);
    CountUpdate(s.calls, c, call', Observed);
    forall reason ensures M.DenialsFor(s'.counters, reason) == Count(s'.calls, CountedFor(reason)) {
      CountUpdate(s.calls, c, call', CountedFor(reason));
    }
  }

  lemma {:induction false} AlwaysTallied(trace: seq<State>, i: nat)
    requires Run(trace) && i < |trace| && trace[0].metricsOn
    ensures Tallied(trace[i]) && trace[i].metricsOn
  {
    RunStart(trace);
    StartTallied(trace[0]);
    forall s: State, s': State | s.metricsOn && Tallied(s) && Steps()(s, s') ensures s'.metricsOn && Tallied(s') {
      StepTallied(s, s');
    }
    Invariance(Steps(), trace, (s: State) => s.metricsOn && Tallied(s), i);
  }

  lemma StartTallied(s: State)
    requires s.calls == map[] && s.counters == M.ZERO
    ensures Tallied(s)
  {
    forall t ensures Members(s.calls, t) == {} {}
  }

  lemma StepTallied(s: State, s': State)
    requires s.metricsOn && Tallied(s) && Step(s, s')
    ensures Tallied(s') && s'.metricsOn
  {
    if c :| CallStep(s, s', c) {
      CallStepTallied(s, s', c);
    } else if c :| ArriveStep(s, s', c) {
      ArriveStepTallied(s, s', c);
    }
  }

  /**
   Conservation, in every reachable state: denied requests are the denials by reason plus the
   calls between those two increments, and all counted requests are observed or about to be.
   */
  lemma {:induction false} CountersConserved(trace: seq<State>, i: nat)
    requires Run(trace) && i < |trace| && trace[0].metricsOn
    ensures var s := trace[i];
            s.counters.denied == M.TotalDenials(s.counters) + Count(s.calls, BetweenIncrements)
    ensures var s := trace[i];
            s.counters.allowed + s.counters.denied == s.counters.observed + Count(s.calls, AwaitingObservation)
  {
    AlwaysTallied(trace, i);
    var s := trace[i];
    DeniedByReason(s.calls);
    CountedObserved(s.calls);
    assert Members(s.calls, CountedFor(M.SigningFailed)) == {};
  }

  lemma {:induction false} DeniedByReason(calls: map<nat, Call>)
    requires forall c | c in calls :: InRange(calls[c])
    ensures Count(calls, CountedDenied) ==
              Count(calls, CountedFor(M.NoToken)) + Count(calls, CountedFor(M.VerificationFailed))
              + Count(calls, CountedFor(M.PolicyNoMatch)) + Count(calls, BetweenIncrements)
  {
    var a, b := Members(calls, CountedFor(M.NoToken)), Members(calls, CountedFor(M.VerificationFailed));
    var c, d := Members(calls, CountedFor(M.PolicyNoMatch)), Members(calls, BetweenIncrements);
    var all := Members(calls, CountedDenied);
    MembersOf(calls, CountedFor(M.NoToken));
    MembersOf(calls, CountedFor(M.VerificationFailed));
    MembersOf(calls, CountedFor(M.PolicyNoMatch));
    MembersOf(calls, BetweenIncrements);
    MembersOf(calls, CountedDenied);
    forall x ensures x in all <==> x in a || x in b || x in c || x in d {
      if x in calls {
        OneReason(calls[x]);
      }
    }
    FourParts(all, a, b, c, d);
  }

  /** A counted denial is counted for one reason, or still between its two increments. */
  lemma OneReason(call: Call)
    requires InRange(call)
    ensures In(CountedDenied, call) <==>
              || In(CountedFor(M.NoToken), call) || In(CountedFor(M.VerificationFailed), call)
              || In(CountedFor(M.PolicyNoMatch), call) || In(BetweenIncrements, call)
  {}

  lemma FourParts(all: set<nat>, a: set<nat>, b: set<nat>, c: set<nat>, d: set<nat>)
    requires forall x :: x in all <==> x in a || x in b || x in c || x in d
    requires a !! b && (a + b) !! c && (a + b + c) !! d
    ensures |all| == |a| + |b| + |c| + |d|
  {
    assert all == a + b + c + d;
  }

  lemma {:induction false} CountedObserved(calls: map<nat, Call>)
    ensures Count(calls, CountedAllowed) + Count(calls, CountedDenied) ==
              Count(calls, Observed) + Count(calls, AwaitingObservation)
  {
    var a, d := Members(calls, CountedAllowed), Members(calls, CountedDenied);
    var o, w := Members(calls, Observed), Members(calls, AwaitingObservation);
    MembersOf(calls, CountedAllowed);
    MembersOf(calls, CountedDenied);
    MembersOf(calls, Observed);
    MembersOf(calls, AwaitingObservation);
    forall c | c in calls {
      CountedOnce(calls[c]);
    }
    TwoHalves(a, d, o, w);
  }

  /** A counted call is counted once, and is observed or about to be. */
  lemma CountedOnce(call: Call)
    ensures !(In(CountedAllowed, call) && In(CountedDenied, call))
    ensures !(In(Observed, call) && In(AwaitingObservation, call))
    ensures In(CountedAllowed, call) || In(CountedDenied, call) <==> In(Observed, call) || In(AwaitingObservation, call)
  {}

  lemma TwoHalves(a: set<nat>, d: set<nat>, o: set<nat>, w: set<nat>)
    requires a !! d && o !! w && forall x :: x in a || x in d <==> x in o || x in w
    ensures |a| + |d| == |o| + |w|
  {
    assert a + d == o + w;
    assert |a + d| == |a| + |d| && |o + w| == |o| + |w|;
  }

  predicate IssuedIn(call: Call) {
    call.phase.Done? && call.phase.outcome.Issued?
  }

  predicate RejectedIn(call: Call, reason: M.Reason) {
    call.phase == Done(Rejected(reason))
  }

  /** Once no call is in flight, the calls are the allowed, the denied and the failed signatures. */
  lemma {:induction false} QuiescentCounters(trace: seq<State>, i: nat)
    requires Run(trace) && i < |trace| && trace[0].metricsOn
    requires forall c | c in trace[i].calls :: trace[i].calls[c].phase.Done?
    ensures var s := trace[i];
            && |s.calls| == s.counters.allowed + s.counters.denied + Count(s.calls, SigningFailures)
            && s.counters.observed == s.counters.allowed + s.counters.denied
            && s.counters.denied == M.TotalDenials(s.counters)
    ensures var s := trace[i];
            && s.counters.allowed == |set c | c in s.calls && IssuedIn(s.calls[c])|
            && forall reason | reason != M.SigningFailed ::
                 M.DenialsFor(s.counters, reason) == |set c | c in s.calls && RejectedIn(s.calls[c], reason)|
  {
    var s := trace[i];
    AlwaysTallied(trace, i);
    CountersConserved(trace, i);
    QuiescentCalls(trace[i].calls);
    assert Members(s.calls, CountedAllowed) == set c | c in s.calls && IssuedIn(s.calls[c]);
    forall reason | reason != M.SigningFailed
      ensures Members(s.calls, CountedFor(reason)) == set c | c in s.calls && RejectedIn(s.calls[c], reason)
    {}
  }

  lemma {:induction false} QuiescentCalls(calls: map<nat, Call>)
    requires forall c | c in calls :: calls[c].phase.Done?
    ensures Count(calls, AwaitingObservation) == 0 && Count(calls, BetweenIncrements) == 0
    ensures |calls| == Count(calls, Observed) + Count(calls, SigningFailures)
  {
    assert Members(calls, AwaitingObservation) == {} && Members(calls, BetweenIncrements) == {};
    var o, f := Members(calls, Observed), Members(calls, SigningFailures);
    assert o !! f;
    assert calls.Keys == o + f;
    assert |calls.Keys| == |o| + |f|;
  }
}
