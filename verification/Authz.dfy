/**
 The authorization policy: validating it compiles every rule and refuses rules that pin no
 identity; evaluating it grants what the first matching rule grants.

 The CEL library is an oracle: `CelCompiler` says which expressions compile, `CelVerdicts`
 what a compiled expression yields for an identity at the moment it is evaluated.
 */
module Authz {
  import opened Wrappers
  import opened Text
  import opened Identity
  import opened Regex
  import RegexSyntax
  import opened SubPattern
  import opened AccountPin
  import opened RegexPin

  datatype Permission = Permission(allow: seq<string>, deny: seq<string>)

  datatype Response = Response(max: int, ttl: int)

  /** `maxExpiry` is in nanoseconds; zero or less means no cap. */
  datatype Grant = Grant(
    account: string, publish: Permission, subscribe: Permission, response: Option<Response>, maxExpiry: int)

  datatype Match = Match(
    issuer: string, sub: string, claims: map<string, string>, expr: string, allowBroad: bool)

  /** `matcher` and `program` are filled in by validation. */
  datatype Rule = Rule(name: string, match_: Match, grant: Grant, matcher: Option<Regex>, program: Option<string>)

  datatype PermissionLimits = PermissionLimits(pub: Permission, sub: Permission, resp: Option<Response>)

  datatype Decision = Decision(ruleName: string, account: string, permissions: PermissionLimits, maxExpiry: int)

  datatype CelCompiler = CelCompiler(environmentOk: bool, compiles: string -> bool)

  datatype CelOutcome = Verdict(value: bool) | NotBool | EvalError

  type CelVerdicts = (string, Identity) -> CelOutcome

  datatype PolicyError =
    | NoRules
    | MissingAccount(rule: string)
    | BadSub(rule: string, reason: PatternError)
    | ExprNotBroad(rule: string)
    | CelEnvironment
    | BadExpr(rule: string)
    | BroadRule(rule: string)

  datatype EvaluateError = NotValidated | NoRuleMatched

  datatype PolicyState = PolicyState(rules: seq<Rule>, validated: bool)

  const AWS_ACCOUNT := "aws.aws_account"
  const GITHUB_PINS := {"repository", "repository_id", "job_workflow_ref"}

  // ---------- Rules ----------

  function Decimal(n: nat): string {
    if n < 10 then ['0' + n as char] else Decimal(n / 10) + ['0' + (n % 10) as char]
  }

  function RuleName(r: Rule, i: nat): string {
    if r.name != "" then r.name else "#" + Decimal(i)
  }

  /** The number a text of decimal digits stands for. */
  function DecimalValue(s: string): int {
    if s == "" then 0 else DecimalValue(s[..|s| - 1]) * 10 + (s[|s| - 1] as int - '0' as int)
  }

  /** Unnamed rules are told apart by their position. */
  lemma {:induction false} DecimalReadsBack(n: nat)
    ensures DecimalValue(Decimal(n)) == n
  {
    var s := Decimal(n);
    if n >= 10 {
      DecimalReadsBack(n / 10);
      assert s[..|s| - 1] == Decimal(n / 10);
    } else {
      assert s[..0] == "";
    }
  }

  predicate HasStrongPin(m: Match) {
    || SubIsExact(m.sub)
    || AccountPinnedInARN(m.sub)
    || (AWS_ACCOUNT in m.claims && IsAccountId(m.claims[AWS_ACCOUNT]))
    || exists k | k in m.claims :: k in GITHUB_PINS
  }

  predicate ClaimsHold(wanted: map<string, string>, id: Identity) {
    forall k | k in wanted :: k in id.claims && id.claims[k] == wanted[k]
  }

  predicate CelAccepts(program: Option<string>, id: Identity, verdicts: CelVerdicts) {
    program.None? || verdicts(program.value, id) == Verdict(true)
  }

  predicate RuleMatches(r: Rule, id: Identity, verdicts: CelVerdicts) {
    && (r.match_.issuer == "" || r.match_.issuer == id.issuer)
    && SubMatches(r.matcher, id.subject)
    && ClaimsHold(r.match_.claims, id)
    && CelAccepts(r.program, id, verdicts)
  }

  function Limits(g: Grant): PermissionLimits {
    PermissionLimits(g.publish, g.subscribe, g.response)
  }

  // ---------- Validation, as a function of the policy ----------

  /** The first objection to a rule, in the order the checks are made. */
  function RuleProblem(r: Rule, i: nat, cel: CelCompiler): Option<PolicyError> {
    var name := RuleName(r, i);
    if r.grant.account == "" then Some(MissingAccount(name))
    else if Compile(r.match_.sub).Failure? then Some(BadSub(name, Compile(r.match_.sub).error))
    else if r.match_.expr != "" && !r.match_.allowBroad then Some(ExprNotBroad(name))
    else if r.match_.expr != "" && !cel.environmentOk then Some(CelEnvironment)
    else if r.match_.expr != "" && !cel.compiles(r.match_.expr) then Some(BadExpr(name))
    else if !HasStrongPin(r.match_) && !r.match_.allowBroad then Some(BroadRule(name))
    else None
  }

  /** The rule as validation leaves it, whether or not it objects. */
  function Processed(r: Rule, cel: CelCompiler): Rule {
    if r.grant.account == "" || Compile(r.match_.sub).Failure? then r
    else
      var withMatcher := r.(matcher := Compile(r.match_.sub).value);
      if r.match_.expr != "" && r.match_.allowBroad && cel.environmentOk && cel.compiles(r.match_.expr)
      then withMatcher.(program := Some(r.match_.expr))
      else withMatcher
  }

  function ValidateFrom(rules: seq<Rule>, i: nat, cel: CelCompiler): (seq<Rule>, Option<PolicyError>)
    requires i <= |rules|
    decreases |rules| - i
  {
    if i == |rules| then (rules, None)
    else
      var processed := rules[i := Processed(rules[i], cel)];
      if RuleProblem(rules[i], i, cel).Some? then (processed, RuleProblem(rules[i], i, cel))
      else ValidateFrom(processed, i + 1, cel)
  }

  /** The policy after validation, and the error if there is one. */
  function Validated(p: PolicyState, cel: CelCompiler): (PolicyState, Option<PolicyError>) {
    if p.rules == [] then (p, Some(NoRules))
    else
      var (rules, error) := ValidateFrom(p.rules, 0, cel);
      (PolicyState(rules, p.validated || error.None?), error)
  }

  // ---------- Evaluation, as a function of the policy ----------

  function FirstMatch(rules: seq<Rule>, id: Identity, verdicts: CelVerdicts): Option<nat> {
    if rules == [] then None
    else if RuleMatches(rules[0], id, verdicts) then Some(0)
    else
      match FirstMatch(rules[1..], id, verdicts)
      case Some(i) => Some(i + 1)
      case None => None
  }

  function GrantOf(r: Rule, i: nat): Decision {
    Decision(RuleName(r, i), r.grant.account, Limits(r.grant), r.grant.maxExpiry)
  }

  function Decide(p: PolicyState, id: Identity, verdicts: CelVerdicts): (d: Result<Decision, EvaluateError>) {
    if !p.validated then Failure(NotValidated)
    else
      match FirstMatch(p.rules, id, verdicts)
      case Some(i) => WinnerInRange(p.rules, id, verdicts); Success(GrantOf(p.rules[i], i))
      case None => Failure(NoRuleMatched)
  }

  lemma WinnerInRange(rules: seq<Rule>, id: Identity, verdicts: CelVerdicts)
    ensures var w := FirstMatch(rules, id, verdicts); w.Some? ==> w.value < |rules|
  {}

  // ---------- The policy object ----------

  /** Whether every wanted claim has the wanted value; the claims are tried in any order. */
  method CheckClaims(wanted: map<string, string>, id: Identity) returns (hold: bool)
    ensures hold == ClaimsHold(wanted, id)
  {
    var remaining := wanted.Keys;
    while remaining != {}
      invariant remaining <= wanted.Keys
      invariant forall k | k in wanted && k !in remaining :: k in id.claims && id.claims[k] == wanted[k]
      decreases |remaining|
    {
      var k :| k in remaining;
      if k !in id.claims || id.claims[k] != wanted[k] {
        return false;
      }
      remaining := remaining - {k};
    }
    return true;
  }

  method Matches(r: Rule, id: Identity, verdicts: CelVerdicts) returns (matches: bool)
    ensures matches == RuleMatches(r, id, verdicts)
  {
    if r.match_.issuer != "" && r.match_.issuer != id.issuer {
      return false;
    }
    if !SubMatches(r.matcher, id.subject) {
      return false;
    }
    var hold := CheckClaims(r.match_.claims, id);
    if !hold {
      return false;
    }
    if r.program.Some? && verdicts(r.program.value, id) != Verdict(true) {
      return false;
    }
    return true;
  }

  class Policy {
    var rules: seq<Rule>
    var validated: bool

    ghost function State(): PolicyState
      reads this
    {
      PolicyState(rules, validated)
    }

    /** A policy as the YAML decoder leaves it. */
    constructor (rules: seq<Rule>)
      ensures State() == PolicyState(rules, false)
    {
      this.rules := rules;
      validated := false;
    }

    /** Compiles the rules in place, stopping at the first objection. */
    method Validate(cel: CelCompiler) returns (error: Option<PolicyError>)
      modifies this
      ensures (State(), error) == Validated(old(State()), cel)
    {
      if rules == [] {
        return Some(NoRules);
      }
      var environmentReady := false;
      var i := 0;
      while i < |rules|
        invariant 0 <= i <= |rules| && |rules| == |old(rules)| && validated == old(validated)
        invariant ValidateFrom(rules, i, cel) == ValidateFrom(old(rules), 0, cel)
        invariant environmentReady ==> cel.environmentOk
      {
        var r := rules[i];
        var name := RuleName(r, i);
        ghost var before := rules;
        if r.grant.account == "" {
          assert rules[i := r] == rules;
          return Some(MissingAccount(name));
        }
        var compiled := CompileSub(r.match_.sub);
        if compiled.Failure? {
          assert rules[i := r] == rules;
          return Some(BadSub(name, compiled.error));
        }
        r := r.(matcher := compiled.value);
        rules := rules[i := r];
        if r.match_.expr != "" {
          if !r.match_.allowBroad {
            return Some(ExprNotBroad(name));
          }
          if !environmentReady {
            if !cel.environmentOk {
              return Some(CelEnvironment);
            }
            environmentReady := true;
          }
          if !cel.compiles(r.match_.expr) {
            return Some(BadExpr(name));
          }
          r := r.(program := Some(r.match_.expr));
          rules := rules[i := r];
        }
        assert rules == before[i := Processed(before[i], cel)];
        if !HasStrongPin(r.match_) && !r.match_.allowBroad {
          return Some(BroadRule(name));
        }
        i := i + 1;
      }
      validated := true;
      return None;
    }

    method Evaluate(id: Identity, verdicts: CelVerdicts) returns (d: Result<Decision, EvaluateError>)
      ensures d == Decide(State(), id, verdicts)
    {
      if !validated {
        return Failure(NotValidated);
      }
      for i := 0 to |rules|
        invariant forall j | 0 <= j < i :: !RuleMatches(rules[j], id, verdicts)
      {
        var matches := Matches(rules[i], id, verdicts);
        if matches {
          FirstMatchAt(rules, i, id, verdicts);
          return Success(GrantOf(rules[i], i));
        }
      }
      NoMatchAt(rules, id, verdicts);
      return Failure(NoRuleMatched);
    }
  }

  // ---------- First match ----------

  lemma {:induction false} FirstMatchAt(rules: seq<Rule>, i: nat, id: Identity, verdicts: CelVerdicts)
    requires i < |rules| && RuleMatches(rules[i], id, verdicts)
    requires forall j | 0 <= j < i :: !RuleMatches(rules[j], id, verdicts)
    ensures FirstMatch(rules, id, verdicts) == Some(i)
  {
    if i > 0 {
      assert !RuleMatches(rules[0], id, verdicts);
      assert forall j | 0 <= j < i - 1 :: rules[1..][j] == rules[j + 1];
      FirstMatchAt(rules[1..], i - 1, id, verdicts);
    }
  }

  lemma {:induction false} NoMatchAt(rules: seq<Rule>, id: Identity, verdicts: CelVerdicts)
    requires forall j | 0 <= j < |rules| :: !RuleMatches(rules[j], id, verdicts)
    ensures FirstMatch(rules, id, verdicts) == None
  {
    if rules != [] {
      assert forall j | 0 <= j < |rules| - 1 :: rules[1..][j] == rules[j + 1];
      NoMatchAt(rules[1..], id, verdicts);
    }
  }

  lemma {:induction false} FirstMatchMeans(rules: seq<Rule>, id: Identity, verdicts: CelVerdicts)
    ensures var w := FirstMatch(rules, id, verdicts);
            w.Some? ==> w.value < |rules| && RuleMatches(rules[w.value], id, verdicts) &&
                        forall j | 0 <= j < w.value :: !RuleMatches(rules[j], id, verdicts)
    ensures FirstMatch(rules, id, verdicts).None? ==>
            forall j | 0 <= j < |rules| :: !RuleMatches(rules[j], id, verdicts)
  {
    if rules != [] && !RuleMatches(rules[0], id, verdicts) {
      var rest := rules[1..];
      FirstMatchMeans(rest, id, verdicts);
      assert forall j | 0 < j < |rules| :: rules[j] == rest[j - 1];
    }
  }

  /**
   A validated policy denies exactly when no rule matches, and otherwise grants what its least
   matching rule grants.
   */
  lemma {:induction false} LeastMatchWins(p: PolicyState, id: Identity, verdicts: CelVerdicts)
    requires p.validated
    ensures Decide(p, id, verdicts).Failure? <==>
            forall j | 0 <= j < |p.rules| :: !RuleMatches(p.rules[j], id, verdicts)
    ensures forall i | 0 <= i < |p.rules| && RuleMatches(p.rules[i], id, verdicts) &&
                       (forall j | 0 <= j < i :: !RuleMatches(p.rules[j], id, verdicts)) ::
              var g := p.rules[i].grant;
              Decide(p, id, verdicts) == Success(
                Decision(RuleName(p.rules[i], i), g.account,
                         PermissionLimits(g.publish, g.subscribe, g.response), g.maxExpiry))
  {
    FirstMatchMeans(p.rules, id, verdicts);
    forall i | 0 <= i < |p.rules| && RuleMatches(p.rules[i], id, verdicts) &&
               (forall j | 0 <= j < i :: !RuleMatches(p.rules[j], id, verdicts))
      ensures Decide(p, id, verdicts) == Success(GrantOf(p.rules[i], i))
    {
      FirstMatchAt(p.rules, i, id, verdicts);
    }
  }

  /** The name reported for a rule: its own, or its position behind a number sign. */
  lemma RuleNameMeans(r: Rule, i: nat)
    ensures r.name != "" ==> RuleName(r, i) == r.name
    ensures r.name == "" ==> RuleName(r, i) != "" && RuleName(r, i)[0] == '#' && DecimalValue(RuleName(r, i)[1..]) == i
  {
    DecimalReadsBack(i);
    assert ("#" + Decimal(i))[1..] == Decimal(i);
  }

  // ---------- Editing a policy ----------

  function Insert(rules: seq<Rule>, at: nat, extra: seq<Rule>): seq<Rule>
    requires at <= |rules|
  {
    rules[..at] + extra + rules[at..]
  }

  /** Both deny, or both grant the same apart from the reported rule name. */
  predicate SameOutcome(a: Result<Decision, EvaluateError>, b: Result<Decision, EvaluateError>) {
    if a.Success? && b.Success? then a.value.(ruleName := "") == b.value.(ruleName := "") else a == b
  }

  lemma {:induction false} FirstMatchOfConcat(a: seq<Rule>, b: seq<Rule>, id: Identity, verdicts: CelVerdicts)
    ensures FirstMatch(a, id, verdicts).Some? ==> FirstMatch(a + b, id, verdicts) == FirstMatch(a, id, verdicts)
    ensures FirstMatch(a, id, verdicts).None? && FirstMatch(b, id, verdicts).None? ==>
            FirstMatch(a + b, id, verdicts).None?
    ensures FirstMatch(a, id, verdicts).None? && FirstMatch(b, id, verdicts).Some? ==>
              FirstMatch(a + b, id, verdicts) == Some(|a| + FirstMatch(b, id, verdicts).value)
  {
    if a == [] {
      assert a + b == b;
    } else {
      assert (a + b)[1..] == a[1..] + b;
      FirstMatchOfConcat(a[1..], b, id, verdicts);
    }
  }

  /** Inserting rules that do not match, or deleting them again, changes no outcome. */
  lemma {:induction false} NonMatchingEdit(
    p: PolicyState, at: nat, extra: seq<Rule>, id: Identity, verdicts: CelVerdicts)
    requires at <= |p.rules| && forall j | 0 <= j < |extra| :: !RuleMatches(extra[j], id, verdicts)
    ensures SameOutcome(Decide(p.(rules := Insert(p.rules, at, extra)), id, verdicts), Decide(p, id, verdicts))
  {
    var front, back := p.rules[..at], p.rules[at..];
    assert p.rules == front + back && Insert(p.rules, at, extra) == front + (extra + back);
    NoMatchAt(extra, id, verdicts);
    FirstMatchOfConcat(front, back, id, verdicts);
    FirstMatchOfConcat(extra, back, id, verdicts);
    FirstMatchOfConcat(front, extra + back, id, verdicts);
    FirstMatchMeans(front, id, verdicts);
    FirstMatchMeans(back, id, verdicts);
  }

  /** Rules inserted behind the winner change nothing, whatever they say; an appended rule never takes a grant away. */
  lemma {:induction false} EditBehindWinner(
    p: PolicyState, at: nat, extra: seq<Rule>, id: Identity, verdicts: CelVerdicts)
    requires at <= |p.rules| && FirstMatch(p.rules[..at], id, verdicts).Some?
    ensures Decide(p.(rules := Insert(p.rules, at, extra)), id, verdicts) == Decide(p, id, verdicts)
  {
    var front, back := p.rules[..at], p.rules[at..];
    assert p.rules == front + back && Insert(p.rules, at, extra) == front + (extra + back);
    FirstMatchOfConcat(front, back, id, verdicts);
    FirstMatchOfConcat(front, extra + back, id, verdicts);
    FirstMatchMeans(front, id, verdicts);
  }

  lemma AppendKeepsGrants(p: PolicyState, extra: seq<Rule>, id: Identity, verdicts: CelVerdicts)
    requires Decide(p, id, verdicts).Success?
    ensures Decide(p.(rules := p.rules + extra), id, verdicts) == Decide(p, id, verdicts)
  {
    assert p.rules[..|p.rules|] == p.rules;
    assert Insert(p.rules, |p.rules|, extra) == p.rules + extra;
    EditBehindWinner(p, |p.rules|, extra, id, verdicts);
  }

  // ---------- What validation establishes ----------

  /** What a rule must satisfy to be let into a policy. */
  predicate Acceptable(r: Rule, cel: CelCompiler) {
    && r.grant.account != ""
    && Compile(r.match_.sub).Success?
    && (r.match_.expr != "" ==> r.match_.allowBroad && cel.environmentOk && cel.compiles(r.match_.expr))
    && (HasStrongPin(r.match_) || r.match_.allowBroad)
  }

  lemma {:induction false} ValidateFromMeans(rules: seq<Rule>, i: nat, cel: CelCompiler)
    requires i <= |rules|
    ensures |ValidateFrom(rules, i, cel).0| == |rules|
    ensures ValidateFrom(rules, i, cel).1.None? <==> forall j | i <= j < |rules| :: Acceptable(rules[j], cel)
    ensures ValidateFrom(rules, i, cel).1.None? ==>
              forall j | 0 <= j < |rules| ::
                ValidateFrom(rules, i, cel).0[j] == if j < i then rules[j] else Processed(rules[j], cel)
    decreases |rules| - i
  {
    if i < |rules| {
      AcceptableMeansNoProblem(rules[i], i, cel);
      if Acceptable(rules[i], cel) {
        var next := rules[i := Processed(rules[i], cel)];
        ValidateFromMeans(next, i + 1, cel);
        OthersAcceptable(rules, i, next, cel);
      }
    }
  }

  lemma OthersAcceptable(rules: seq<Rule>, i: nat, next: seq<Rule>, cel: CelCompiler)
    requires i < |rules| && next == rules[i := Processed(rules[i], cel)]
    ensures forall j | i < j < |rules| :: next[j] == rules[j]
    ensures (forall j | i < j < |next| :: Acceptable(next[j], cel)) <==>
              forall j | i < j < |rules| :: Acceptable(rules[j], cel)
  {
    if forall j | i < j < |next| :: Acceptable(next[j], cel) {
      forall j | i < j < |rules| ensures Acceptable(rules[j], cel) {
        assert next[j] == rules[j];
      }
    }
  }

  lemma AcceptableMeansNoProblem(r: Rule, i: nat, cel: CelCompiler)
    ensures Acceptable(r, cel) <==> RuleProblem(r, i, cel).None?
  {}

  lemma {:induction false} FirstProblemReported(rules: seq<Rule>, i: nat, j: nat, cel: CelCompiler)
    requires i <= j < |rules| && !Acceptable(rules[j], cel) && forall k | i <= k < j :: Acceptable(rules[k], cel)
    ensures ValidateFrom(rules, i, cel).1 == RuleProblem(rules[j], j, cel)
    decreases j - i
  {
    AcceptableMeansNoProblem(rules[i], i, cel);
    if i < j {
      var next := rules[i := Processed(rules[i], cel)];
      assert forall k | i < k <= j :: next[k] == rules[k];
      FirstProblemReported(next, i + 1, j, cel);
    }
  }

  /**
   Validation succeeds exactly on the non-empty policies of acceptable rules, and then compiles
   every rule; otherwise it reports the first rule that is not acceptable.
   */
  lemma {:induction false} ValidationAccepts(p: PolicyState, cel: CelCompiler)
    ensures Validated(p, cel).1.None? <==> p.rules != [] && forall j | 0 <= j < |p.rules| :: Acceptable(p.rules[j], cel)
    ensures Validated(p, cel).1.None? ==>
              Validated(p, cel).0.validated && |Validated(p, cel).0.rules| == |p.rules| &&
              forall j | 0 <= j < |p.rules| ::
                Validated(p, cel).0.rules[j] ==
                  p.rules[j].(matcher := Compile(p.rules[j].match_.sub).value,
                              program := if p.rules[j].match_.expr != "" then Some(p.rules[j].match_.expr)
                                         else p.rules[j].program)
    ensures Validated(p, cel).1.Some? ==> Validated(p, cel).0.validated == p.validated
    ensures forall j | 0 <= j < |p.rules| && !Acceptable(p.rules[j], cel) &&
                       (forall k | 0 <= k < j :: Acceptable(p.rules[k], cel)) ::
              Validated(p, cel).1 == RuleProblem(p.rules[j], j, cel)
  {
    ValidateFromMeans(p.rules, 0, cel);
    forall j | 0 <= j < |p.rules| && !Acceptable(p.rules[j], cel)
               && forall k | 0 <= k < j :: Acceptable(p.rules[k], cel)
      ensures Validated(p, cel).1 == RuleProblem(p.rules[j], j, cel)
    {
      FirstProblemReported(p.rules, 0, j, cel);
    }
  }

  /**
   What a refused policy is left as: the rules in front of the first unacceptable one compiled, those
   behind it untouched, and the policy no more validated than before.
   */
  lemma {:induction false} RefusedPolicyLeft(p: PolicyState, cel: CelCompiler, bad: nat)
    requires bad < |p.rules| && !Acceptable(p.rules[bad], cel)
    requires forall k | 0 <= k < bad :: Acceptable(p.rules[k], cel)
    ensures var left := Validated(p, cel).0;
            && left.validated == p.validated && |left.rules| == |p.rules|
            && (forall k | 0 <= k < bad :: left.rules[k] == Processed(p.rules[k], cel))
            && (forall k | bad < k < |p.rules| :: left.rules[k] == p.rules[k])
  {
    LeftFrom(p.rules, 0, bad, cel);
  }

  lemma {:induction false} LeftFrom(rules: seq<Rule>, i: nat, bad: nat, cel: CelCompiler)
    requires i <= bad < |rules| && !Acceptable(rules[bad], cel) && forall k | i <= k < bad :: Acceptable(rules[k], cel)
    ensures var left := ValidateFrom(rules, i, cel).0;
            && ValidateFrom(rules, i, cel).1.Some? && |left| == |rules|
            && (forall k | 0 <= k < i :: left[k] == rules[k])
            && (forall k | i <= k < bad :: left[k] == Processed(rules[k], cel))
            && (forall k | bad < k < |rules| :: left[k] == rules[k])
    decreases bad - i
  {
    AcceptableMeansNoProblem(rules[i], i, cel);
    if i < bad {
      LeftFrom(rules[i := Processed(rules[i], cel)], i + 1, bad, cel);
    }
  }

  /** A policy that passed validation passes it again, and is left as it is. */
  lemma {:induction false} RevalidationChangesNothing(p: PolicyState, cel: CelCompiler)
    requires Validated(p, cel).1.None?
    ensures Validated(Validated(p, cel).0, cel) == (Validated(p, cel).0, None)
  {
    var once := Validated(p, cel).0;
    ValidationAccepts(p, cel);
    forall j | 0 <= j < |p.rules|
      ensures Acceptable(once.rules[j], cel) && Processed(once.rules[j], cel) == once.rules[j]
    {
      assert Acceptable(p.rules[j], cel);
    }
    ValidationAccepts(once, cel);
    assert Validated(once, cel).0.rules == once.rules;
  }

  /** The guardrail's literal pins, apart from an account in the subject pattern. */
  lemma StrongPinMeans(m: Match)
    ensures HasStrongPin(m) <==>
              || (m.sub != "" && !("re:" <= m.sub) && '*' !in m.sub)
              || AccountPinnedInARN(m.sub)
              || ("aws.aws_account" in m.claims && IsAccountId(m.claims["aws.aws_account"]))
              || "repository" in m.claims || "repository_id" in m.claims || "job_workflow_ref" in m.claims
  {}

  /** A rule with such a pin passes without being marked broad; one without any has to be. */
  lemma {:induction false} PinSparesBroad(r: Rule, cel: CelCompiler)
    requires r.grant.account != "" && Compile(r.match_.sub).Success? && r.match_.expr == ""
    ensures HasStrongPin(r.match_) || r.match_.allowBroad <==> Validated(PolicyState([r], false), cel).1.None?
    ensures !HasStrongPin(r.match_) && !r.match_.allowBroad ==>
              Validated(PolicyState([r], false), cel).1 == Some(BroadRule(RuleName(r, 0)))
  {
    ValidationAccepts(PolicyState([r], false), cel);
    assert [r][0] == r;
    if !HasStrongPin(r.match_) && !r.match_.allowBroad {
      assert !Acceptable([r][0], cel);
    }
  }

  /** Which objection a rule meets, each with its own condition: the first that applies, in this order. */
  lemma ObjectionMeans(r: Rule, i: nat, cel: CelCompiler)
    ensures var name, problem := RuleName(r, i), RuleProblem(r, i, cel);
            var compiled, usesCel := Compile(r.match_.sub), r.match_.expr != "";
            && (problem == Some(MissingAccount(name)) <==> r.grant.account == "")
            && (r.grant.account != "" && compiled.Failure? ==> problem == Some(BadSub(name, compiled.error)))
            && (r.grant.account != "" && compiled.Success? ==>
                  && (problem == Some(ExprNotBroad(name)) <==> usesCel && !r.match_.allowBroad)
                  && (problem == Some(CelEnvironment) <==> usesCel && r.match_.allowBroad && !cel.environmentOk)
                  && (problem == Some(BadExpr(name)) <==>
                        usesCel && r.match_.allowBroad && cel.environmentOk && !cel.compiles(r.match_.expr))
                  && (problem == Some(BroadRule(name)) <==>
                        !usesCel && !r.match_.allowBroad && !HasStrongPin(r.match_)))
  {}

  // ---------- What a grant means for the fields of the rules ----------

  /**
   What a rule states holds of the identity: the issuer if it names one, a subject its pattern
   accepts, every claim it wants with the value it wants, and a true verdict on its expression.
   */
  ghost predicate FieldsHold(r: Rule, id: Identity, verdicts: CelVerdicts) {
    && (r.match_.issuer != "" ==> id.issuer == r.match_.issuer)
    && Compile(r.match_.sub).Success? && SubMatches(Compile(r.match_.sub).value, id.subject)
    && (forall k | k in r.match_.claims :: k in id.claims && id.claims[k] == r.match_.claims[k])
    && (r.match_.expr != "" ==> verdicts(r.match_.expr, id) == Verdict(true))
    && (r.match_.expr == "" && r.program.Some? ==> verdicts(r.program.value, id) == Verdict(true))
  }

  lemma ProcessedMatches(r: Rule, cel: CelCompiler, id: Identity, verdicts: CelVerdicts)
    requires Acceptable(r, cel)
    ensures RuleMatches(Processed(r, cel), id, verdicts) <==> FieldsHold(r, id, verdicts)
  {}

  /** A policy that was not validated grants nothing. */
  lemma UnvalidatedRefuses(p: PolicyState, id: Identity, verdicts: CelVerdicts)
    requires !p.validated
    ensures Decide(p, id, verdicts) == Failure(NotValidated)
  {}

  /**
   What evaluation decides, on the fields of the rules: a validated policy denies exactly when no
   rule's statements hold of the identity, and otherwise grants what the first rule grants whose
   statements do. So no granted identity lacks anything its rule states, and no rule is passed over.
   */
  lemma {:induction false} EvaluationMeans(p: PolicyState, cel: CelCompiler, id: Identity, verdicts: CelVerdicts)
    requires Validated(p, cel).1.None?
    ensures Decide(Validated(p, cel).0, id, verdicts).Failure? <==>
              forall r | r in p.rules :: !FieldsHold(r, id, verdicts)
    ensures forall i | 0 <= i < |p.rules| && FieldsHold(p.rules[i], id, verdicts) &&
                       (forall j | 0 <= j < i :: !FieldsHold(p.rules[j], id, verdicts)) ::
              var g := p.rules[i].grant;
              Decide(Validated(p, cel).0, id, verdicts) == Success(
                Decision(RuleName(p.rules[i], i), g.account,
                         PermissionLimits(g.publish, g.subscribe, g.response), g.maxExpiry))
  {
    ValidatedMatches(p, cel, id, verdicts);
    ValidationAccepts(p, cel);
    SameRulesDecide(p, Validated(p, cel).0, id, verdicts);
  }

  /** What a policy decides whose rules match when, and grant what, those of another one state. */
  lemma {:induction false} SameRulesDecide(
    p: PolicyState, checked: PolicyState, id: Identity, verdicts: CelVerdicts)
    requires checked.validated && |checked.rules| == |p.rules|
    requires forall j | 0 <= j < |p.rules| ::
               && (RuleMatches(checked.rules[j], id, verdicts) <==> FieldsHold(p.rules[j], id, verdicts))
               && checked.rules[j].name == p.rules[j].name && checked.rules[j].grant == p.rules[j].grant
    ensures Decide(checked, id, verdicts).Failure? <==> forall r | r in p.rules :: !FieldsHold(r, id, verdicts)
    ensures forall i | 0 <= i < |p.rules| && FieldsHold(p.rules[i], id, verdicts) &&
                       (forall j | 0 <= j < i :: !FieldsHold(p.rules[j], id, verdicts)) ::
              var g := p.rules[i].grant;
              Decide(checked, id, verdicts) == Success(
                Decision(RuleName(p.rules[i], i), g.account,
                         PermissionLimits(g.publish, g.subscribe, g.response), g.maxExpiry))
  {
    LeastMatchWins(checked, id, verdicts);
    if forall r | r in p.rules :: !FieldsHold(r, id, verdicts) {
      forall j | 0 <= j < |checked.rules| ensures !RuleMatches(checked.rules[j], id, verdicts) {
        assert p.rules[j] in p.rules;
      }
    }
  }

  lemma {:induction false} ValidatedMatches(p: PolicyState, cel: CelCompiler, id: Identity, verdicts: CelVerdicts)
    requires Validated(p, cel).1.None?
    ensures |Validated(p, cel).0.rules| == |p.rules|
    ensures forall j | 0 <= j < |p.rules| ::
              RuleMatches(Validated(p, cel).0.rules[j], id, verdicts) <==> FieldsHold(p.rules[j], id, verdicts)
  {
    ValidationAccepts(p, cel);
    forall j | 0 <= j < |p.rules|
      ensures RuleMatches(Validated(p, cel).0.rules[j], id, verdicts) <==> FieldsHold(p.rules[j], id, verdicts)
    {
      assert Acceptable(p.rules[j], cel);
      ProcessedMatches(p.rules[j], cel, id, verdicts);
      assert Validated(p, cel).0.rules[j] == Processed(p.rules[j], cel);
    }
  }

  /** The rules as the configuration states them: nothing compiled yet. */
  predicate FreshlyLoaded(p: PolicyState) {
    !p.validated && forall r | r in p.rules :: r.matcher.None? && r.program.None?
  }

  /** The identity is the one the rule spells out, in one of the ways the guardrail asks for. */
  ghost predicate PinnedTo(m: Match, id: Identity) {
    || (SubIsExact(m.sub) && id.subject == m.sub)
    || (AccountPinnedInARN(m.sub) && Compile(m.sub).Success? && SubMatches(Compile(m.sub).value, id.subject)
        && (PinIsReliable(m.sub) ==> FifthField(id.subject) == Some(PinnedAccount(m.sub))))
    || (AWS_ACCOUNT in m.claims && IsAccountId(m.claims[AWS_ACCOUNT])
        && AWS_ACCOUNT in id.claims && id.claims[AWS_ACCOUNT] == m.claims[AWS_ACCOUNT])
    || exists k :: k in GITHUB_PINS && k in m.claims && k in id.claims && id.claims[k] == m.claims[k]
  }

  /**
   Guardrail soundness: in a policy that passed validation, whatever is granted by a rule that
   is not marked broad is granted to an identity that rule pins.
   */
  lemma {:induction false} GuardrailSound(p: PolicyState, cel: CelCompiler, id: Identity, verdicts: CelVerdicts)
    requires FreshlyLoaded(p) && Validated(p, cel).1.None?
    ensures var checked := Validated(p, cel).0;
            var w := FirstMatch(checked.rules, id, verdicts);
            Decide(checked, id, verdicts).Success? ==>
              && w.Some? && w.value < |p.rules|
              && (p.rules[w.value].match_.allowBroad || PinnedTo(p.rules[w.value].match_, id))
  {
    var checked := Validated(p, cel).0;
    ValidationAccepts(p, cel);
    FirstMatchMeans(checked.rules, id, verdicts);
    if Decide(checked, id, verdicts).Success? {
      var w := FirstMatch(checked.rules, id, verdicts).value;
      var r := p.rules[w];
      assert Acceptable(r, cel) && checked.rules[w] == Processed(r, cel);
      if !r.match_.allowBroad {
        PinnedByMatch(r, cel, id, verdicts);
      }
    }
  }

  lemma PinnedByMatch(r: Rule, cel: CelCompiler, id: Identity, verdicts: CelVerdicts)
    requires HasStrongPin(r.match_) && r.grant.account != "" && Compile(r.match_.sub).Success?
    requires RuleMatches(Processed(r, cel), id, verdicts)
    ensures PinnedTo(r.match_, id)
  {
    var m := r.match_;
    assert SubMatches(Compile(m.sub).value, id.subject) && ClaimsHold(m.claims, id);
    if SubIsExact(m.sub) {
      ExactPattern(m.sub, id.subject);
    } else if AccountPinnedInARN(m.sub) {
      if PinIsReliable(m.sub) {
        ReliablePinHolds(m.sub, id.subject);
      }
    }
  }

  /** A rule that states nothing but a subject pattern, and is not marked broad. */
  function SubjectRule(name: string, sub: string, grant: Grant): Rule {
    Rule(name, Match("", sub, map[], "", false), grant, None, None)
  }

  /**
   Where the guardrail stops: a policy of the one rule `re:^.*|q$`, with an account in `q` and not
   marked broad, passes validation and grants to every identity with a one-line subject.
   */
  lemma {:induction false} GuardrailCanMiss(
    name: string, q: string, grant: Grant, cel: CelCompiler, id: Identity, verdicts: CelVerdicts)
    requires RegexSyntax.Parse(q).Success? && |Split(q, ':')| >= 5 && IsAccountId(Split(q, ':')[4])
    requires grant.account != "" && '\n' !in id.subject
    ensures var p := PolicyState([SubjectRule(name, ByRegex(".*|" + q), grant)], false);
            && FreshlyLoaded(p) && Validated(p, cel).1.None?
            && Decide(Validated(p, cel).0, id, verdicts) ==
                 Success(Decision(RuleName(p.rules[0], 0), grant.account,
                                  PermissionLimits(grant.publish, grant.subscribe, grant.response), grant.maxExpiry))
  {
    var r := SubjectRule(name, ByRegex(".*|" + q), grant);
    var p := PolicyState([r], false);
    RegexPinCanMiss(q, id.subject);
    assert Acceptable(r, cel);
    ValidationAccepts(p, cel);
    var checked := Validated(p, cel).0;
    assert RuleMatches(checked.rules[0], id, verdicts);
    LeastMatchWins(checked, id, verdicts);
  }
}
