/**
 The authorizer: one call verifies the token, evaluates the policy and signs a user JWT, all
 against the ruleset it loaded first; a reload swaps the ruleset as a whole.
 */
module Callout {
  import opened Wrappers
  import opened Identity
  import opened Authz
  import opened Verifier
  import M = Metrics

  /** A connection attempt: the user's key and the token it presents. */
  datatype Request = Request(userNkey: string, token: string)

  /** `expires` is in whole seconds. */
  datatype UserClaims = UserClaims(
    subject: string, name: string, audience: string, permissions: PermissionLimits, expires: int)

  /** What the libraries and the clock answer during one call; `now` is in nanoseconds. */
  datatype Env = Env(oracle: TokenOracle, verdicts: CelVerdicts, now: int, signs: UserClaims -> Option<string>)

  /** The outcome of a call, with the detail that only the log and the counters see. */
  datatype Outcome = Issued(user: UserClaims, jwt: string) | Rejected(reason: M.Reason)

  /** The one error callers see. */
  datatype Denial = AuthorizationDenied

  const SECOND := 1_000_000_000

  // ---------- Expiry ----------

  function CappedExpiry(tokenExpiry: int, maxExpiry: int, now: int): int {
    if maxExpiry > 0 && now + maxExpiry < tokenExpiry then now + maxExpiry else tokenExpiry
  }

  method ComputeCappedExpiry(tokenExpiry: int, maxExpiry: int, now: int) returns (exp: int)
    ensures exp == CappedExpiry(tokenExpiry, maxExpiry, now)
  {
    exp := tokenExpiry;
    if maxExpiry > 0 {
      var cap := now + maxExpiry;
      if cap < exp {
        exp := cap;
      }
    }
  }

  /** `time.Time.Unix`: whole seconds, rounded down. */
  function UnixSeconds(t: int): int {
    t / SECOND
  }

  /** The latest whole second that lies within the token's life and, when there is a cap, within the cap. */
  ghost predicate LatestSecond(e: int, tokenExpiry: int, maxExpiry: int, now: int) {
    && e * SECOND <= tokenExpiry
    && (maxExpiry > 0 ==> e * SECOND <= now + maxExpiry)
    && !((e + 1) * SECOND <= tokenExpiry && (maxExpiry > 0 ==> (e + 1) * SECOND <= now + maxExpiry))
  }

  lemma ExpiryIsLatestSecond(e: int, tokenExpiry: int, maxExpiry: int, now: int)
    ensures LatestSecond(e, tokenExpiry, maxExpiry, now) <==>
            e == UnixSeconds(CappedExpiry(tokenExpiry, maxExpiry, now))
  {
    var t := CappedExpiry(tokenExpiry, maxExpiry, now);
    assert t == UnixSeconds(t) * SECOND + t % SECOND;
  }

  // ---------- One call ----------

  function UserFor(req: Request, id: Identity, d: Decision, now: int): UserClaims {
    var exp := CappedExpiry(id.expiry, d.maxExpiry, now);
    UserClaims(req.userNkey, id.subject, d.account, d.permissions, UnixSeconds(exp))
  }

  function Sealed(user: UserClaims, env: Env): Outcome {
    match env.signs(user)
    case Some(jwt) => Issued(user, jwt)
    case None => Rejected(M.SigningFailed)
  }

  /** `outcome` is what a call may come to when it runs alone against this verifier and policy. */
  ghost predicate Yields(v: Verifier, p: PolicyState, req: Request, env: Env, outcome: Outcome) {
    if req.token == "" then outcome == Rejected(M.NoToken)
    else exists r :: Verifies(v, req.token, env.oracle, r) && outcome == Concluded(p, req, env, r)
  }

  /** What follows from the result of verification. */
  function Concluded(p: PolicyState, req: Request, env: Env, r: Result<Identity, VerifyError>): Outcome {
    match r
    case Failure(_) => Rejected(M.VerificationFailed)
    case Success(id) =>
      match Decide(p, id, env.verdicts)
      case Failure(_) => Rejected(M.PolicyNoMatch)
      case Success(d) => Sealed(UserFor(req, id, d, env.now), env)
  }

  /** The counters after the call, when nothing else runs: a failed signature is not counted. */
  function Counted(c: M.Counters, outcome: Outcome): M.Counters {
    match outcome
    case Issued(_, _) => M.Observe(M.IncAllowed(c))
    case Rejected(SigningFailed) => c
    case Rejected(reason) => M.Observe(M.IncReason(M.IncDenied(c), reason))
  }

  /**
   What each outcome leaves in the counters: one allowed or one denied request with one observation,
   one denial for the reason, and nothing at all for a failed signature.
   */
  lemma CountedMeans(c: M.Counters, outcome: Outcome)
    ensures var after := Counted(c, outcome);
            var silent := outcome == Rejected(M.SigningFailed);
            && after.allowed == c.allowed + (if outcome.Issued? then 1 else 0)
            && after.denied == c.denied + (if outcome.Rejected? && !silent then 1 else 0)
            && after.observed == c.observed + (if silent then 0 else 1)
            && (forall reason :: M.DenialsFor(after, reason) ==
                  M.DenialsFor(c, reason) + if outcome == Rejected(reason) && !silent then 1 else 0)
  {}

  class Authorizer {
    /** The two halves of the ruleset, always replaced together. */
    var ruleset: (Verifier, Policy)
    const metrics: M.Metrics?

    constructor (v: Verifier, policy: Policy, metrics: M.Metrics?)
      ensures ruleset == (v, policy) && this.metrics == metrics
    {
      ruleset := (v, policy);
      this.metrics := metrics;
    }

    method Reload(v: Verifier, policy: Policy)
      modifies this
      ensures ruleset == (v, policy)
    {
      ruleset := (v, policy);
    }

    method Authorize(req: Request, env: Env) returns (r: Result<string, Denial>, ghost outcome: Outcome)
      modifies metrics
      ensures ruleset == old(ruleset)
      ensures Yields(ruleset.0, old(ruleset.1.State()), req, env, outcome)
      ensures r == if outcome.Issued? then Success(outcome.jwt) else Failure(AuthorizationDenied)
      ensures metrics != null ==> metrics.State() == Counted(old(metrics.State()), outcome)
    {
      var (v, policy) := ruleset;
      if req.token == "" {
        if metrics != null {
          metrics.RecordDenied(M.NoToken);
        }
        return Failure(AuthorizationDenied), Rejected(M.NoToken);
      }
      var verified := Verify(v, req.token, env.oracle);
      if verified.Failure? {
        if metrics != null {
          metrics.RecordDenied(M.VerificationFailed);
        }
        return Failure(AuthorizationDenied), Rejected(M.VerificationFailed);
      }
      var id := verified.value;
      var decided := policy.Evaluate(id, env.verdicts);
      if decided.Failure? {
        if metrics != null {
          metrics.RecordDenied(M.PolicyNoMatch);
        }
        return Failure(AuthorizationDenied), Rejected(M.PolicyNoMatch);
      }
      var decision := decided.value;
      var exp := ComputeCappedExpiry(id.expiry, decision.maxExpiry, env.now);
      var user := UserClaims(req.userNkey, id.subject, decision.account, decision.permissions, UnixSeconds(exp));
      var signed := env.signs(user);
      if signed.None? {
        return Failure(AuthorizationDenied), Rejected(M.SigningFailed);
      }
      if metrics != null {
        metrics.RecordAllowed();
      }
      return Success(signed.value), Issued(user, signed.value);
    }
  }

  // ---------- When a user JWT is issued ----------

  /** What rule `i` of the configuration states holds of the identity, and no earlier rule's does. */
  ghost predicate LeastAdmitting(rules: seq<Rule>, i: nat, id: Identity, verdicts: CelVerdicts) {
    && i < |rules| && FieldsHold(rules[i], id, verdicts)
    && forall j | 0 <= j < i :: !FieldsHold(rules[j], id, verdicts)
  }

  /**
   The end-to-end condition, in terms of the configuration: the token is present and accepted
   as some identity, and some rule admits it; the least such rule supplies account, permissions
   and cap, and the expiry is the latest whole second within the token's life and the cap.
   */
  ghost predicate Grants(opts: Options, rules: seq<Rule>, req: Request, env: Env, user: UserClaims) {
    exists id, i: nat ::
      && req.token != ""
      && Accepted(opts, req.token, env.oracle, id)
      && LeastAdmitting(rules, i, id, env.verdicts)
      && user.subject == req.userNkey && user.name == id.subject
      && user.audience == rules[i].grant.account
      && user.permissions.pub == rules[i].grant.publish && user.permissions.sub == rules[i].grant.subscribe
      && user.permissions.resp == rules[i].grant.response
      && LatestSecond(user.expires, id.expiry, rules[i].grant.maxExpiry, env.now)
  }

  lemma {:induction false} DecidesAsConfigured(
    p: PolicyState, cel: CelCompiler, id: Identity, verdicts: CelVerdicts, i: nat)
    requires Validated(p, cel).1.None? && LeastAdmitting(p.rules, i, id, verdicts)
    ensures var g := p.rules[i].grant;
            Decide(Validated(p, cel).0, id, verdicts) == Success(
              Decision(RuleName(p.rules[i], i), g.account,
                       PermissionLimits(g.publish, g.subscribe, g.response), g.maxExpiry))
  {
    EvaluationMeans(p, cel, id, verdicts);
  }

  lemma {:induction false} DecisionHasRule(p: PolicyState, cel: CelCompiler, id: Identity, verdicts: CelVerdicts)
    returns (i: nat)
    requires Validated(p, cel).1.None? && Decide(Validated(p, cel).0, id, verdicts).Success?
    ensures LeastAdmitting(p.rules, i, id, verdicts)
    ensures FirstMatch(Validated(p, cel).0.rules, id, verdicts) == Some(i)
  {
    ValidatedMatches(p, cel, id, verdicts);
    var checked := Validated(p, cel).0;
    FirstMatchMeans(checked.rules, id, verdicts);
    i := FirstMatch(checked.rules, id, verdicts).value;
  }

  /** The user claims a call gets to sign are exactly those the configuration grants. */
  lemma {:induction false} SignsExactly(
    v: Verifier, opts: Options, p: PolicyState, cel: CelCompiler, req: Request, env: Env, user: UserClaims)
    requires Trusts(v, opts) && Validated(p, cel).1.None?
    ensures (exists id :: ToSign(v, Validated(p, cel).0, req, env, id, user)) <==>
            Grants(opts, p.rules, req, env, user)
  {
    var checked := Validated(p, cel).0;
    if id :| ToSign(v, checked, req, env, id, user) {
      VerifiesAsConfigured(v, opts, req.token, env.oracle, id);
      var i := DecisionHasRule(p, cel, id, env.verdicts);
      DecidesAsConfigured(p, cel, id, env.verdicts, i);
      ExpiryIsLatestSecond(user.expires, id.expiry, p.rules[i].grant.maxExpiry, env.now);
    }
    if Grants(opts, p.rules, req, env, user) {
      var id, i: nat :| req.token != "" && Accepted(opts, req.token, env.oracle, id)
                   && LeastAdmitting(p.rules, i, id, env.verdicts)
                   && user.subject == req.userNkey && user.name == id.subject
                   && user.audience == p.rules[i].grant.account
                   && user.permissions.pub == p.rules[i].grant.publish
                   && user.permissions.sub == p.rules[i].grant.subscribe
                   && user.permissions.resp == p.rules[i].grant.response
                   && LatestSecond(user.expires, id.expiry, p.rules[i].grant.maxExpiry, env.now);
      VerifiesAsConfigured(v, opts, req.token, env.oracle, id);
      DecidesAsConfigured(p, cel, id, env.verdicts, i);
      ExpiryIsLatestSecond(user.expires, id.expiry, p.rules[i].grant.maxExpiry, env.now);
      assert ToSign(v, checked, req, env, id, user);
    }
  }

  /** The call verified `id`, the policy granted, and these are the claims put before the signing key. */
  ghost predicate ToSign(v: Verifier, p: PolicyState, req: Request, env: Env, id: Identity, user: UserClaims) {
    && req.token != "" && Verifies(v, req.token, env.oracle, Success(id))
    && Decide(p, id, env.verdicts).Success? && user == UserFor(req, id, Decide(p, id, env.verdicts).value, env.now)
  }

  lemma {:induction false} YieldsBySigning(v: Verifier, p: PolicyState, req: Request, env: Env, outcome: Outcome)
    requires outcome.Issued? || outcome.reason == M.SigningFailed
    ensures Yields(v, p, req, env, outcome) <==>
              exists id, user :: ToSign(v, p, req, env, id, user) && outcome == Sealed(user, env)
  {
    if Yields(v, p, req, env, outcome) {
      var r :| Verifies(v, req.token, env.oracle, r) && outcome == Concluded(p, req, env, r);
      var user := UserFor(req, r.value, Decide(p, r.value, env.verdicts).value, env.now);
      assert ToSign(v, p, req, env, r.value, user) && outcome == Sealed(user, env);
    }
    if id, user :| ToSign(v, p, req, env, id, user) && outcome == Sealed(user, env) {
      assert outcome == Concluded(p, req, env, Success(id));
    }
  }

  /**
   A verifier and policy built from a configuration issue exactly the JWTs the configuration grants
   and the key signs.
   */
  lemma {:induction false} IssuedExactly(
    v: Verifier, opts: Options, p: PolicyState, cel: CelCompiler, req: Request, env: Env, user: UserClaims, jwt: string)
    requires Trusts(v, opts) && Validated(p, cel).1.None?
    ensures Yields(v, Validated(p, cel).0, req, env, Issued(user, jwt)) <==>
              Grants(opts, p.rules, req, env, user) && env.signs(user) == Some(jwt)
  {
    SignsExactly(v, opts, p, cel, req, env, user);
    YieldsBySigning(v, Validated(p, cel).0, req, env, Issued(user, jwt));
  }

  /**
   The other outcomes, by reason: no token, a token turned away, no admitting rule, or a grant that
   could not be signed.
   */
  lemma {:induction false} RejectedExactly(
    v: Verifier, opts: Options, p: PolicyState, cel: CelCompiler, req: Request, env: Env)
    requires Trusts(v, opts) && Validated(p, cel).1.None?
    ensures var checked := Validated(p, cel).0;
            Yields(v, checked, req, env, Rejected(M.NoToken)) <==> req.token == ""
    ensures var checked := Validated(p, cel).0;
            Yields(v, checked, req, env, Rejected(M.VerificationFailed)) <==>
              req.token != "" && TurnedAway(opts, req.token, env.oracle)
    ensures var checked := Validated(p, cel).0;
            Yields(v, checked, req, env, Rejected(M.PolicyNoMatch)) <==>
              exists id :: req.token != "" && Accepted(opts, req.token, env.oracle, id)
                           && forall r | r in p.rules :: !FieldsHold(r, id, env.verdicts)
    ensures var checked := Validated(p, cel).0;
            Yields(v, checked, req, env, Rejected(M.SigningFailed)) <==>
              exists user :: Grants(opts, p.rules, req, env, user) && env.signs(user) == None
  {
    var checked := Validated(p, cel).0;
    YieldsBySigning(v, checked, req, env, Rejected(M.SigningFailed));
    forall user
      ensures (exists id :: ToSign(v, checked, req, env, id, user)) <==> Grants(opts, p.rules, req, env, user)
    {
      SignsExactly(v, opts, p, cel, req, env, user);
    }
    TurnedAwayExactly(v, opts, checked, req, env);
    UnmatchedExactly(v, opts, p, cel, req, env);
  }

  lemma {:induction false} TurnedAwayExactly(v: Verifier, opts: Options, p: PolicyState, req: Request, env: Env)
    requires Trusts(v, opts)
    ensures Yields(v, p, req, env, Rejected(M.VerificationFailed)) <==>
              req.token != "" && TurnedAway(opts, req.token, env.oracle)
  {
    FailsAsConfigured(v, opts, req.token, env.oracle);
    if e :| Verifies(v, req.token, env.oracle, Failure(e)) {
      assert Concluded(p, req, env, Failure(e)) == Rejected(M.VerificationFailed);
    }
  }

  lemma {:induction false} UnmatchedExactly(
    v: Verifier, opts: Options, p: PolicyState, cel: CelCompiler, req: Request, env: Env)
    requires Trusts(v, opts) && Validated(p, cel).1.None?
    ensures Yields(v, Validated(p, cel).0, req, env, Rejected(M.PolicyNoMatch)) <==>
              exists id :: req.token != "" && Accepted(opts, req.token, env.oracle, id)
                           && forall r | r in p.rules :: !FieldsHold(r, id, env.verdicts)
  {
    var checked := Validated(p, cel).0;
    if Yields(v, checked, req, env, Rejected(M.PolicyNoMatch)) {
      var r :| Verifies(v, req.token, env.oracle, r) && Rejected(M.PolicyNoMatch) == Concluded(checked, req, env, r);
      VerifiesAsConfigured(v, opts, req.token, env.oracle, r.value);
      EvaluationMeans(p, cel, r.value, env.verdicts);
    }
    if id :| req.token != "" && Accepted(opts, req.token, env.oracle, id)
             && forall r | r in p.rules :: !FieldsHold(r, id, env.verdicts) {
      VerifiesAsConfigured(v, opts, req.token, env.oracle, id);
      EvaluationMeans(p, cel, id, env.verdicts);
      assert Rejected(M.PolicyNoMatch) == Concluded(checked, req, env, Success(id));
    }
  }

  /**
   Nobody slips past the guardrail end to end: an issued JWT is for a verified identity that the
   granting rule pins, unless that rule is marked broad.
   */
  lemma {:induction false} IssuedIdentityPinned(
    v: Verifier, opts: Options, p: PolicyState, cel: CelCompiler, req: Request, env: Env, user: UserClaims, jwt: string)
    requires Trusts(v, opts) && FreshlyLoaded(p) && Validated(p, cel).1.None?
    requires Yields(v, Validated(p, cel).0, req, env, Issued(user, jwt))
    ensures exists id, i: nat ::
              && Accepted(opts, req.token, env.oracle, id) && user.name == id.subject
              && LeastAdmitting(p.rules, i, id, env.verdicts) && user.audience == p.rules[i].grant.account
              && (p.rules[i].match_.allowBroad || PinnedTo(p.rules[i].match_, id))
              && user.expires * SECOND <= id.expiry
  {
    var checked := Validated(p, cel).0;
    var r :| Verifies(v, req.token, env.oracle, r) && Issued(user, jwt) == Concluded(checked, req, env, r);
    var id := r.value;
    VerifiesAsConfigured(v, opts, req.token, env.oracle, id);
    GuardrailSound(p, cel, id, env.verdicts);
    var i := DecisionHasRule(p, cel, id, env.verdicts);
    DecidesAsConfigured(p, cel, id, env.verdicts, i);
    ExpiryIsLatestSecond(user.expires, id.expiry, p.rules[i].grant.maxExpiry, env.now);
  }

  // ---------- Independence of the map order ----------

  /** If the token gets as far as having its claims flattened, no two leaves share a name with different texts. */
  ghost predicate Unambiguous(v: Verifier, token: string, oracle: TokenOracle) {
    UnverifiedIssuer(token, oracle).Success? && UnverifiedIssuer(token, oracle).value in v.issuers ==>
      var entry := v.issuers[UnverifiedIssuer(token, oracle).value];
      var checked := oracle.check(entry.url, entry.algs, token);
      checked.Some? && checked.value.payload.Some? ==> !Ambiguous(checked.value.payload.value)
  }

  /** For a token with unambiguous claims the outcome of a call does not depend on Go's map order. */
  lemma {:induction false} OutcomeDetermined(
    v: Verifier, p: PolicyState, req: Request, env: Env, a: Outcome, b: Outcome)
    requires Unambiguous(v, req.token, env.oracle)
    requires Yields(v, p, req, env, a) && Yields(v, p, req, env, b)
    ensures a == b
  {
    if req.token != "" {
      var r :| Verifies(v, req.token, env.oracle, r) && a == Concluded(p, req, env, r);
      var r' :| Verifies(v, req.token, env.oracle, r') && b == Concluded(p, req, env, r');
      VerificationDetermined(v, req.token, env.oracle, r, r');
    }
  }

  lemma {:induction false} VerificationDetermined(
    v: Verifier, token: string, oracle: TokenOracle, a: Result<Identity, VerifyError>, b: Result<Identity, VerifyError>)
    requires Unambiguous(v, token, oracle) && Verifies(v, token, oracle, a) && Verifies(v, token, oracle, b)
    ensures a == b
  {
    if token != "" && UnverifiedIssuer(token, oracle).Success? && UnverifiedIssuer(token, oracle).value in v.issuers {
      var entry := v.issuers[UnverifiedIssuer(token, oracle).value];
      var checked := oracle.check(entry.url, entry.algs, token);
      if checked.Some? && AudienceOk(v, checked.value) && checked.value.payload.Some? {
        var raw := checked.value.payload.value;
        OrderIndependence(raw);
        var c :| Parses(raw, c) && a == Bound(entry, checked.value, c);
        var d :| Parses(raw, d) && b == Bound(entry, checked.value, d);
        assert c == d;
      }
    }
  }
}
