/**
 Starting up and reloading on SIGHUP: a new configuration takes effect as a whole or not at all.
 */
module Reload {
  import opened Wrappers
  import opened Authz
  import opened Verifier
  import opened Config
  import opened Callout
  import Metrics

  datatype CaBundle = CaUnreadable | CaWithoutCertificates | CaCertificates

  /** What the files and the OIDC issuers answer during one load; a missing CA path means the system roots. */
  datatype Attempt = Attempt(files: Files, ca: string -> CaBundle, discovers: string -> bool)

  datatype BuildError = NoCaFile | NoCaCertificates | NotBuilt(reason: NewError)

  /** A configuration in service: its settings, and the ruleset built from it. */
  datatype Service = Service(settings: Settings, verifier: Verifier, policy: PolicyState)

  function OptionsOf(s: Settings): Options {
    Options(s.issuers, s.audiences, s.signingAlgs)
  }

  function BuildVerifier(s: Settings, attempt: Attempt): Result<Verifier, BuildError> {
    if s.oidcCaCert != "" && attempt.ca(s.oidcCaCert).CaUnreadable? then Failure(NoCaFile)
    else if s.oidcCaCert != "" && attempt.ca(s.oidcCaCert).CaWithoutCertificates? then Failure(NoCaCertificates)
    else
      match NewVerifier(OptionsOf(s), attempt.discovers)
      case Success(v) => Success(v)
      case Failure(e) => Failure(NotBuilt(e))
  }

  method Build(s: Settings, attempt: Attempt) returns (r: Result<Verifier, BuildError>)
    ensures r == BuildVerifier(s, attempt)
    ensures r == Failure(NoCaFile) <==> s.oidcCaCert != "" && attempt.ca(s.oidcCaCert).CaUnreadable?
    ensures r == Failure(NoCaCertificates) <==> s.oidcCaCert != "" && attempt.ca(s.oidcCaCert).CaWithoutCertificates?
  {
    var issuers: seq<IssuerOption> := [];
    for i := 0 to |s.issuers|
      invariant issuers == s.issuers[..i]
    {
      issuers := issuers + [IssuerOption(s.issuers[i].url, s.issuers[i].requireClaims)];
    }
    if s.oidcCaCert != "" {
      if attempt.ca(s.oidcCaCert).CaUnreadable? {
        return Failure(NoCaFile);
      }
      if attempt.ca(s.oidcCaCert).CaWithoutCertificates? {
        return Failure(NoCaCertificates);
      }
    }
    assert s.issuers[..|s.issuers|] == s.issuers;
    var built := New(Options(issuers, s.audiences, s.signingAlgs), attempt.discovers);
    match built
    case Success(v) => return Success(v);
    case Failure(e) => return Failure(NotBuilt(e));
  }

  /** The service an attempt leads to, if it passes loading, validation and verifier construction. */
  function ServiceOf(attempt: Attempt): Option<Service> {
    match LoadConfig(attempt.files)
    case Failure(_) => None
    case Success((settings, policy)) =>
      match BuildVerifier(settings, attempt)
      case Failure(_) => None
      case Success(v) => Some(Service(settings, v, policy))
  }

  /** The service after a run of SIGHUPs: the last attempt that succeeded, or what was there before. */
  function AfterHups(service: Service, attempts: seq<Attempt>): Service
    decreases |attempts|
  {
    if attempts == [] then service
    else
      var last := ServiceOf(attempts[|attempts| - 1]);
      if last.Some? then last.value else AfterHups(service, attempts[..|attempts| - 1])
  }

  /** The attempt got through, and no later one did. */
  ghost predicate LastSuccess(attempts: seq<Attempt>, i: nat) {
    && i < |attempts| && ServiceOf(attempts[i]).Some?
    && forall j | i < j < |attempts| :: ServiceOf(attempts[j]).None?
  }

  /** A reload that gets through takes effect, and stays in effect until another one does. */
  lemma {:induction false} LastSuccessServes(service: Service, attempts: seq<Attempt>, i: nat)
    requires LastSuccess(attempts, i)
    ensures AfterHups(service, attempts) == ServiceOf(attempts[i]).value
  {
    var front := attempts[..i + 1];
    SucceededLast(service, front, attempts[i]);
    forall j | i < j < |attempts| ensures FailsAt(attempts, j) {}
    FailuresKeep(service, attempts, i + 1);
  }

  ghost predicate FailsAt(attempts: seq<Attempt>, j: nat) {
    j < |attempts| && ServiceOf(attempts[j]).None?
  }

  lemma SucceededLast(service: Service, attempts: seq<Attempt>, last: Attempt)
    requires attempts != [] && attempts[|attempts| - 1] == last && ServiceOf(last).Some?
    ensures AfterHups(service, attempts) == ServiceOf(last).value
  {}

  lemma FailedLast(service: Service, attempts: seq<Attempt>, n: nat)
    requires n < |attempts| && FailsAt(attempts, n)
    ensures AfterHups(service, attempts[..n + 1]) == AfterHups(service, attempts[..n])
  {
    assert attempts[..n + 1][..n] == attempts[..n];
  }

  lemma FailuresKeep(service: Service, attempts: seq<Attempt>, from: nat)
    requires from <= |attempts| && forall j | from <= j < |attempts| :: FailsAt(attempts, j)
    ensures AfterHups(service, attempts) == AfterHups(service, attempts[..from])
  {
    for j := from to |attempts|
      invariant AfterHups(service, attempts[..j]) == AfterHups(service, attempts[..from])
    {
      FailedLast(service, attempts, j);
    }
    assert attempts[..|attempts|] == attempts;
  }

  ghost predicate Serves(a: Authorizer, cfg: Config, service: Service)
    reads a, cfg, a.ruleset.1
  {
    && a.ruleset.1 == cfg.policy && a.ruleset.0 == service.verifier
    && a.ruleset.1.State() == service.policy && cfg.settings == service.settings
  }

  /** What startup meets besides the files and the issuers: seeds, the metrics address, and NATS. */
  datatype Startup = Startup(
    isSeed: string -> bool, listens: string -> bool, connects: NatsSettings -> bool, registers: bool)

  /**
   The first ruleset: nothing serves before a configuration was loaded, its verifier built and NATS
   connected; the counters exist exactly when metrics are enabled, and start at zero.
   */
  method Start(attempt: Attempt, startup: Startup) returns (r: Option<(Config, Authorizer)>)
    ensures r.Some? <==>
              && ServiceOf(attempt).Some?
              && var s := ServiceOf(attempt).value.settings;
              && startup.isSeed(s.issuerAccountSeed) && (s.xkeySeed == "" || startup.isSeed(s.xkeySeed))
              && (s.metrics.enabled ==> startup.listens(s.metrics.address))
              && startup.connects(s.nats) && startup.registers
    ensures r.Some? ==> fresh(r.value.1) && Serves(r.value.1, r.value.0, ServiceOf(attempt).value)
    ensures r.Some? ==>
              var m := r.value.1.metrics;
              && (m != null <==> ServiceOf(attempt).value.settings.metrics.enabled)
              && (m != null ==> fresh(m) && m.State() == Metrics.ZERO)
  {
    var loaded := Load(attempt.files);
    if loaded.Failure? {
      return None;
    }
    var cfg := loaded.value;
    if !startup.isSeed(cfg.settings.issuerAccountSeed) {
      return None;
    }
    if cfg.settings.xkeySeed != "" && !startup.isSeed(cfg.settings.xkeySeed) {
      return None;
    }
    var built := Build(cfg.settings, attempt);
    if built.Failure? {
      return None;
    }
    var m: Metrics.Metrics? := null;
    if cfg.settings.metrics.enabled {
      m := new Metrics.Metrics();
      if !startup.listens(cfg.settings.metrics.address) {
        return None;
      }
    }
    if !startup.connects(cfg.settings.nats) {
      return None;
    }
    var a := new Authorizer(built.value, cfg.policy, m);
    if !startup.registers {
      return None;
    }
    return Some((cfg, a));
  }

  /** The reload loop over a run of SIGHUPs, each with what the files and issuers answer then. */
  method WatchReloads(attempts: seq<Attempt>, current: Config, a: Authorizer, ghost service: Service)
    returns (last: Config)
    requires Serves(a, current, service)
    modifies a
    ensures Serves(a, last, AfterHups(service, attempts))
    ensures forall i | 0 <= i < |attempts| && LastSuccess(attempts, i) :: Serves(a, last, ServiceOf(attempts[i]).value)
    ensures (forall i | 0 <= i < |attempts| :: ServiceOf(attempts[i]).None?) ==> Serves(a, last, service)
  {
    forall i | 0 <= i < |attempts| && LastSuccess(attempts, i) {
      LastSuccessServes(service, attempts, i);
    }
    if forall i | 0 <= i < |attempts| :: ServiceOf(attempts[i]).None? {
      FailedReloadsChangeNothing(service, attempts);
    }
    last := current;
    assert attempts[..0] == [];
    for i := 0 to |attempts|
      invariant Serves(a, last, AfterHups(service, attempts[..i]))
    {
      assert attempts[..i + 1][..i] == attempts[..i];
      var loaded := Load(attempts[i].files);
      if loaded.Success? {
        var newCfg := loaded.value;
        var built := Build(newCfg.settings, attempts[i]);
        if built.Success? {
          a.Reload(built.value, newCfg.policy);
          last := newCfg;
        }
      }
    }
    assert attempts[..|attempts|] == attempts;
  }

  /**
   What every attempt that gets through has established: the ruleset is made from one
   configuration, its policy is validated, and its verifier trusts what the configuration lists.
   */
  ghost predicate BuiltFrom(service: Service, attempt: Attempt) {
    && SourceRules(attempt.files).Some? && SourceRules(attempt.files).value != []
    && Validated(Decoded(SourceRules(attempt.files).value), attempt.files.cel) == (service.policy, None)
    && service.policy.validated
    && Complete(service.settings)
    && var file := attempt.files.config.value.settings;
    && Trusts(service.verifier, Options(file.issuers, file.audiences, file.signingAlgs))
  }

  lemma {:induction false} ServiceIsBuilt(attempt: Attempt)
    requires ServiceOf(attempt).Some?
    ensures BuiltFrom(ServiceOf(attempt).value, attempt)
  {
    LoadMeans(attempt.files);
    NewVerifierMeans(OptionsOf(ServiceOf(attempt).value.settings), attempt.discovers);
  }

  /** An attempt gets through exactly when its configuration loads and its issuers are distinct and reachable. */
  lemma {:induction false} ServiceExists(attempt: Attempt)
    ensures ServiceOf(attempt).Some? <==>
              && LoadConfig(attempt.files).Success?
              && var settings := LoadConfig(attempt.files).value.0;
              && (settings.oidcCaCert == "" || attempt.ca(settings.oidcCaCert).CaCertificates?)
              && DistinctIssuers(OptionsOf(settings))
              && forall i | 0 <= i < |settings.issuers| :: attempt.discovers(settings.issuers[i].url)
  {
    LoadMeans(attempt.files);
    if LoadConfig(attempt.files).Success? {
      NewVerifierMeans(OptionsOf(LoadConfig(attempt.files).value.0), attempt.discovers);
    }
  }

  /** After any run of SIGHUPs the whole service stems from one attempt: the start, or a later one that succeeded. */
  lemma {:induction false} ReloadsAreAtomic(start: Attempt, attempts: seq<Attempt>)
    requires ServiceOf(start).Some?
    ensures var service := AfterHups(ServiceOf(start).value, attempts);
            exists attempt :: (attempt == start || attempt in attempts)
                              && ServiceOf(attempt) == Some(service) && BuiltFrom(service, attempt)
    decreases |attempts|
  {
    if attempts == [] {
      ServiceIsBuilt(start);
    } else {
      var n := |attempts| - 1;
      if ServiceOf(attempts[n]).Some? {
        ServiceIsBuilt(attempts[n]);
      } else {
        ReloadsAreAtomic(start, attempts[..n]);
        var attempt :| (attempt == start || attempt in attempts[..n])
                       && ServiceOf(attempt) == Some(AfterHups(ServiceOf(start).value, attempts[..n]))
                       && BuiltFrom(AfterHups(ServiceOf(start).value, attempts[..n]), attempt);
      }
    }
  }

  /** A run of attempts that all fail changes nothing. */
  lemma {:induction false} FailedReloadsChangeNothing(service: Service, attempts: seq<Attempt>)
    requires forall attempt | attempt in attempts :: ServiceOf(attempt).None?
    ensures AfterHups(service, attempts) == service
    decreases |attempts|
  {
    if attempts != [] {
      FailedReloadsChangeNothing(service, attempts[..|attempts| - 1]);
    }
  }
}
