/**
 Loading the service configuration: the policy file replaces an inline policy, defaults are
 filled in, and the whole is validated. Reading and parsing YAML is an oracle.
 */
module Config {
  import opened Wrappers
  import opened Authz
  import opened Verifier

  /** A rule as the policy text states it. */
  datatype RuleSource = RuleSource(name: string, match_: Match, grant: Grant)

  datatype MetricsSettings = MetricsSettings(enabled: bool, address: string, path: string)

  /** How the service connects to NATS itself. */
  datatype NatsSettings = NatsSettings(
    url: string, credentials: string, username: string, password: string,
    caCert: string, clientCert: string, clientKey: string)

  /** `httpTimeout` is in nanoseconds. */
  datatype Settings = Settings(
    nats: NatsSettings, issuerAccountSeed: string, xkeySeed: string, audiences: seq<string>, signingAlgs: seq<string>,
    issuers: seq<IssuerOption>, httpTimeout: int, oidcCaCert: string, metrics: MetricsSettings, policyFile: string)

  datatype ConfigFile = ConfigFile(settings: Settings, rules: seq<RuleSource>)

  datatype FileContent<T> = Unreadable | Unparsable | Content(value: T)

  /** The files as they are at one moment, and the CEL compiler. */
  datatype Files = Files(
    config: FileContent<ConfigFile>, policy: string -> FileContent<seq<RuleSource>>, cel: CelCompiler)

  datatype ConfigError =
    | ConfigUnreadable | ConfigUnparsable | PolicyUnreadable | PolicyUnparsable
    | PolicyFileInvalid(reason: PolicyError) | PolicyInvalid(reason: PolicyError)
    | NoNatsUrl | NoSeed | NoAudience | NoSigningAlg | NoIssuer | BlankIssuerUrl(i: nat)

  const DEFAULT_HTTP_TIMEOUT := 10 * 1_000_000_000
  const DEFAULT_METRICS_ADDRESS := ":9090"
  const DEFAULT_METRICS_PATH := "/metrics"

  function Decoded(sources: seq<RuleSource>): PolicyState {
    PolicyState(
      seq(|sources|, i requires 0 <= i < |sources| =>
            Rule(sources[i].name, sources[i].match_, sources[i].grant, None, None)),
      false)
  }

  // ---------- Loading, as a function of the files ----------

  /** `LoadPolicy`: the policy file, decoded and validated. */
  function PolicyFromFile(files: Files, path: string): Result<PolicyState, ConfigError> {
    match files.policy(path)
    case Unreadable => Failure(PolicyUnreadable)
    case Unparsable => Failure(PolicyUnparsable)
    case Content(sources) =>
      var (p, error) := Validated(Decoded(sources), files.cel);
      if error.Some? then Failure(PolicyFileInvalid(error.value)) else Success(p)
  }

  function OrDefault(text: string, fallback: string): string {
    if text == "" then fallback else text
  }

  function WithDefaults(s: Settings): Settings {
    var s1 := if s.httpTimeout == 0 then s.(httpTimeout := DEFAULT_HTTP_TIMEOUT) else s;
    if s.metrics.enabled then
      s1.(metrics := MetricsSettings(true,
            OrDefault(s.metrics.address, DEFAULT_METRICS_ADDRESS), OrDefault(s.metrics.path, DEFAULT_METRICS_PATH)))
    else s1
  }

  function FirstBlankUrl(issuers: seq<IssuerOption>, i: nat): Option<nat>
    requires i <= |issuers|
    decreases |issuers| - i
  {
    if i == |issuers| then None else if issuers[i].url == "" then Some(i) else FirstBlankUrl(issuers, i + 1)
  }

  function SettingsProblem(s: Settings): Option<ConfigError> {
    if s.nats.url == "" then Some(NoNatsUrl)
    else if s.issuerAccountSeed == "" then Some(NoSeed)
    else if s.audiences == [] then Some(NoAudience)
    else if s.signingAlgs == [] then Some(NoSigningAlg)
    else if s.issuers == [] then Some(ConfigError.NoIssuer)
    else
      match FirstBlankUrl(s.issuers, 0)
      case Some(i) => Some(BlankIssuerUrl(i))
      case None => None
  }

  function ValidatedConfig(s: Settings, p: PolicyState, cel: CelCompiler): (PolicyState, Option<ConfigError>) {
    if SettingsProblem(s).Some? then (p, SettingsProblem(s))
    else
      var (checked, error) := Validated(p, cel);
      (checked, if error.Some? then Some(PolicyInvalid(error.value)) else None)
  }

  function LoadConfig(files: Files): Result<(Settings, PolicyState), ConfigError> {
    match files.config
    case Unreadable => Failure(ConfigUnreadable)
    case Unparsable => Failure(ConfigUnparsable)
    case Content(file) =>
      var policy :-
        if file.settings.policyFile != "" then PolicyFromFile(files, file.settings.policyFile)
        else Success(Decoded(file.rules));
      var settings := WithDefaults(file.settings);
      var (checked, error) := ValidatedConfig(settings, policy, files.cel);
      if error.Some? then Failure(error.value) else Success((settings, checked))
  }

  // ---------- Loading, step by step ----------

  class Config {
    var settings: Settings
    var policy: Policy

    constructor (settings: Settings, policy: Policy)
      ensures this.settings == settings && this.policy == policy
    {
      this.settings := settings;
      this.policy := policy;
    }

    method Validate(cel: CelCompiler) returns (error: Option<ConfigError>)
      modifies policy
      ensures (policy.State(), error) == ValidatedConfig(settings, old(policy.State()), cel)
    {
      if settings.nats.url == "" {
        return Some(NoNatsUrl);
      }
      if settings.issuerAccountSeed == "" {
        return Some(NoSeed);
      }
      if settings.audiences == [] {
        return Some(NoAudience);
      }
      if settings.signingAlgs == [] {
        return Some(NoSigningAlg);
      }
      if settings.issuers == [] {
        return Some(ConfigError.NoIssuer);
      }
      for i := 0 to |settings.issuers|
        invariant policy.State() == old(policy.State())
        invariant FirstBlankUrl(settings.issuers, i) == FirstBlankUrl(settings.issuers, 0)
      {
        if settings.issuers[i].url == "" {
          return Some(BlankIssuerUrl(i));
        }
      }
      var objection := policy.Validate(cel);
      if objection.Some? {
        return Some(PolicyInvalid(objection.value));
      }
      return None;
    }
  }

  method LoadPolicy(files: Files, path: string) returns (r: Result<Policy, ConfigError>)
    ensures r.Success? ==> fresh(r.value) && PolicyFromFile(files, path) == Success(r.value.State())
    ensures r.Failure? ==> PolicyFromFile(files, path) == Failure(r.error)
  {
    match files.policy(path)
    case Unreadable => return Failure(PolicyUnreadable);
    case Unparsable => return Failure(PolicyUnparsable);
    case Content(sources) =>
      var p := new Policy(Decoded(sources).rules);
      var objection := p.Validate(files.cel);
      if objection.Some? {
        return Failure(PolicyFileInvalid(objection.value));
      }
      return Success(p);
  }

  method Load(files: Files) returns (r: Result<Config, ConfigError>)
    ensures r.Success? ==> fresh(r.value) && fresh(r.value.policy)
                           && LoadConfig(files) == Success((r.value.settings, r.value.policy.State()))
    ensures r.Failure? ==> LoadConfig(files) == Failure(r.error)
  {
    if files.config.Unreadable? {
      return Failure(ConfigUnreadable);
    }
    if files.config.Unparsable? {
      return Failure(ConfigUnparsable);
    }
    var file := files.config.value;
    var inline := new Policy(Decoded(file.rules).rules);
    var cfg := new Config(file.settings, inline);
    if cfg.settings.policyFile != "" {
      var loaded := LoadPolicy(files, cfg.settings.policyFile);
      if loaded.Failure? {
        return Failure(loaded.error);
      }
      cfg.policy := loaded.value;
    }
    if cfg.settings.httpTimeout == 0 {
      cfg.settings := cfg.settings.(httpTimeout := DEFAULT_HTTP_TIMEOUT);
    }
    if cfg.settings.metrics.enabled {
      if cfg.settings.metrics.address == "" {
        cfg.settings := cfg.settings.(metrics := cfg.settings.metrics.(address := DEFAULT_METRICS_ADDRESS));
      }
      if cfg.settings.metrics.path == "" {
        cfg.settings := cfg.settings.(metrics := cfg.settings.metrics.(path := DEFAULT_METRICS_PATH));
      }
    }
    var error := cfg.Validate(files.cel);
    if error.Some? {
      return Failure(error.value);
    }
    return Success(cfg);
  }

  // ---------- What a loaded configuration is ----------

  /** The rules in force: those of the policy file when one is named, else the inline ones. */
  function SourceRules(files: Files): Option<seq<RuleSource>> {
    if !files.config.Content? then None
    else if files.config.value.settings.policyFile == "" then Some(files.config.value.rules)
    else
      match files.policy(files.config.value.settings.policyFile)
      case Content(sources) => Some(sources)
      case _ => None
  }

  predicate Complete(s: Settings) {
    && s.nats.url != "" && s.issuerAccountSeed != "" && s.audiences != [] && s.signingAlgs != [] && s.issuers != []
    && forall iss | iss in s.issuers :: iss.url != ""
  }

  lemma {:induction false} FirstBlankMeans(issuers: seq<IssuerOption>, i: nat)
    requires i <= |issuers|
    ensures FirstBlankUrl(issuers, i).None? <==> forall j | i <= j < |issuers| :: issuers[j].url != ""
    decreases |issuers| - i
  {
    if i < |issuers| {
      FirstBlankMeans(issuers, i + 1);
    }
  }

  /** What is missing from the settings when they are refused: the first gap in this order. */
  lemma {:induction false} GapMeans(s: Settings)
    ensures SettingsProblem(s).None? <==> Complete(s)
    ensures SettingsProblem(s) == Some(NoNatsUrl) <==> s.nats.url == ""
    ensures s.nats.url != "" ==> (SettingsProblem(s) == Some(NoSeed) <==> s.issuerAccountSeed == "")
    ensures s.nats.url != "" && s.issuerAccountSeed != "" ==>
              && (SettingsProblem(s) == Some(NoAudience) <==> s.audiences == [])
              && (SettingsProblem(s) == Some(NoSigningAlg) <==> s.audiences != [] && s.signingAlgs == [])
              && (SettingsProblem(s) == Some(ConfigError.NoIssuer) <==>
                    s.audiences != [] && s.signingAlgs != [] && s.issuers == [])
    ensures forall i | 0 <= i < |s.issuers| && SettingsProblem(s) == Some(BlankIssuerUrl(i)) ::
              s.issuers[i].url == "" && forall j | 0 <= j < i :: s.issuers[j].url != ""
  {
    FirstBlankMeans(s.issuers, 0);
    FirstBlankFound(s.issuers, 0);
  }

  lemma {:induction false} FirstBlankFound(issuers: seq<IssuerOption>, i: nat)
    requires i <= |issuers|
    ensures FirstBlankUrl(issuers, i).Some? ==>
              var k := FirstBlankUrl(issuers, i).value;
              i <= k < |issuers| && issuers[k].url == "" && forall j | i <= j < k :: issuers[j].url != ""
    decreases |issuers| - i
  {
    if i < |issuers| {
      FirstBlankFound(issuers, i + 1);
    }
  }

  /**
   A configuration loads exactly when it is complete and its rules are acceptable. The policy is
   then the validated form of the rules in force, unaffected by the second validation a policy
   from a file goes through; the settings are those of the file, but for an unset timeout and
   the unset places of an enabled metrics endpoint.
   */
  lemma {:induction false} LoadMeans(files: Files)
    ensures LoadConfig(files).Success? <==>
              && SourceRules(files).Some? && SourceRules(files).value != []
              && Complete(files.config.value.settings)
              && forall r | r in Decoded(SourceRules(files).value).rules :: Acceptable(r, files.cel)
    ensures LoadConfig(files).Success? ==>
              var (settings, policy) := LoadConfig(files).value;
              var p := Decoded(SourceRules(files).value);
              && FreshlyLoaded(p) && Validated(p, files.cel) == (policy, None) && policy.validated
              && Complete(settings)
              && var file := files.config.value.settings;
              && settings == file.(httpTimeout := settings.httpTimeout, metrics := settings.metrics)
              && settings.httpTimeout == (if file.httpTimeout == 0 then 10 * 1_000_000_000 else file.httpTimeout)
              && settings.metrics.enabled == file.metrics.enabled
              && (!file.metrics.enabled ==> settings.metrics == file.metrics)
              && (file.metrics.enabled ==>
                    && settings.metrics.address ==
                         (if file.metrics.address == "" then ":9090" else file.metrics.address)
                    && settings.metrics.path == (if file.metrics.path == "" then "/metrics" else file.metrics.path))
  {
    if SourceRules(files).Some? {
      var p := Decoded(SourceRules(files).value);
      ValidationAccepts(p, files.cel);
      FirstBlankMeans(files.config.value.settings.issuers, 0);
      if Validated(p, files.cel).1.None? {
        RevalidationChangesNothing(p, files.cel);
      } else if p.rules != [] {
        RejectedRule(p, files.cel);
      }
    }
  }

  lemma RejectedRule(p: PolicyState, cel: CelCompiler)
    requires Validated(p, cel).1.Some? && p.rules != []
    ensures exists r :: r in p.rules && !Acceptable(r, cel)
  {
    ValidationAccepts(p, cel);
    var j :| 0 <= j < |p.rules| && !Acceptable(p.rules[j], cel);
    assert p.rules[j] in p.rules;
  }
}
