/**
 Token verification against a fixed set of trusted issuers.

 OIDC discovery, base64 and JSON decoding, and signature checking are oracles: what they
 answer for an issuer or a token is given, what the verifier makes of it is modelled.
 */
module Verifier {
  import opened Wrappers
  import opened Text
  import opened Identity

  datatype IssuerOption = IssuerOption(url: string, requireClaims: map<string, string>)

  datatype Options = Options(issuers: seq<IssuerOption>, audiences: seq<string>, signingAlgs: seq<string>)

  /** A discovered issuer; its OIDC verifier is named by the issuer URL and the allowed algorithms. */
  datatype IssuerEntry = IssuerEntry(url: string, algs: seq<string>, requireClaims: map<string, string>)

  datatype Verifier = Verifier(issuers: map<string, IssuerEntry>, audiences: set<string>)

  /** `payload` is the decoded claims object, if the payload is one; `expiry` is in nanoseconds. */
  datatype IdToken = IdToken(
    issuer: string, subject: string, audience: seq<string>, expiry: int, payload: Option<map<string, Json>>)

  /**
   `issuerClaim` reads the `iss` claim from the middle segment of a token, empty when it has none;
   `check` is the OIDC verifier of an issuer under the allowed algorithms.
   */
  datatype TokenOracle = TokenOracle(
    issuerClaim: string -> Option<string>,
    check: (string, seq<string>, string) -> Option<IdToken>)

  datatype NewError =
    | NoIssuers | NoAudiences | NoSigningAlgs | DuplicateIssuer(url: string) | DiscoveryFailed(url: string)

  datatype VerifyError =
    | EmptyToken | MalformedToken | MalformedPayload | NoIssuer
    | UntrustedIssuer | TokenRejected | AudienceNotAllowed | UnreadableClaims | ClaimMismatch

  // ---------- Building a verifier ----------

  function AddIssuers(v: Verifier, opts: Options, i: nat, discovers: string -> bool): Result<Verifier, NewError>
    requires i <= |opts.issuers|
    decreases |opts.issuers| - i
  {
    if i == |opts.issuers| then Success(v)
    else
      var iss := opts.issuers[i];
      if iss.url in v.issuers then Failure(DuplicateIssuer(iss.url))
      else if !discovers(iss.url) then Failure(DiscoveryFailed(iss.url))
      else
        var entry := IssuerEntry(iss.url, opts.signingAlgs, iss.requireClaims);
        AddIssuers(v.(issuers := v.issuers[iss.url := entry]), opts, i + 1, discovers)
  }

  function NewVerifier(opts: Options, discovers: string -> bool): Result<Verifier, NewError> {
    if opts.issuers == [] then Failure(NoIssuers)
    else if opts.audiences == [] then Failure(NoAudiences)
    else if opts.signingAlgs == [] then Failure(NoSigningAlgs)
    else AddIssuers(Verifier(map[], set a | a in opts.audiences), opts, 0, discovers)
  }

  method New(opts: Options, discovers: string -> bool) returns (r: Result<Verifier, NewError>)
    ensures r == NewVerifier(opts, discovers)
  {
    if opts.issuers == [] {
      return Failure(NoIssuers);
    }
    if opts.audiences == [] {
      return Failure(NoAudiences);
    }
    if opts.signingAlgs == [] {
      return Failure(NoSigningAlgs);
    }
    var audiences: set<string> := {};
    for i := 0 to |opts.audiences|
      invariant audiences == set a | a in opts.audiences[..i]
    {
      assert opts.audiences[..i + 1] == opts.audiences[..i] + [opts.audiences[i]];
      audiences := audiences + {opts.audiences[i]};
    }
    assert opts.audiences[..|opts.audiences|] == opts.audiences;
    var issuers: map<string, IssuerEntry> := map[];
    for i := 0 to |opts.issuers|
      invariant AddIssuers(Verifier(issuers, audiences), opts, i, discovers) == NewVerifier(opts, discovers)
    {
      var iss := opts.issuers[i];
      if iss.url in issuers {
        return Failure(DuplicateIssuer(iss.url));
      }
      if !discovers(iss.url) {
        return Failure(DiscoveryFailed(iss.url));
      }
      issuers := issuers[iss.url := IssuerEntry(iss.url, opts.signingAlgs, iss.requireClaims)];
    }
    return Success(Verifier(issuers, audiences));
  }

  /**
   The verifier trusts exactly the configured issuers, each with its own required claims, and the
   configured audiences.
   */
  ghost predicate Trusts(v: Verifier, opts: Options) {
    && v.audiences == (set a | a in opts.audiences)
    && v.issuers.Keys == Urls(opts.issuers)
    && (forall i | 0 <= i < |opts.issuers| :: opts.issuers[i].url in v.issuers
          && v.issuers[opts.issuers[i].url] == Entry(opts, i))
  }

  predicate DistinctIssuers(opts: Options) {
    forall i, j | 0 <= i < j < |opts.issuers| :: opts.issuers[i].url != opts.issuers[j].url
  }

  /** A verifier is built exactly when nothing is missing or duplicate and every issuer is discovered. */
  lemma {:induction false} NewVerifierMeans(opts: Options, discovers: string -> bool)
    ensures NewVerifier(opts, discovers).Success? <==>
              opts.issuers != [] && opts.audiences != [] && opts.signingAlgs != [] && DistinctIssuers(opts) &&
              forall i | 0 <= i < |opts.issuers| :: discovers(opts.issuers[i].url)
    ensures NewVerifier(opts, discovers).Success? ==> Trusts(NewVerifier(opts, discovers).value, opts)
  {
    AddIssuersMeans(Verifier(map[], set a | a in opts.audiences), opts, 0, discovers);
    assert opts.issuers[..|opts.issuers|] == opts.issuers;
  }

  function Urls(issuers: seq<IssuerOption>): set<string> {
    set iss | iss in issuers :: iss.url
  }

  function Entry(opts: Options, j: nat): IssuerEntry
    requires j < |opts.issuers|
  {
    IssuerEntry(opts.issuers[j].url, opts.signingAlgs, opts.issuers[j].requireClaims)
  }

  /** The issuers added so far are the first `i`, all different and all discovered. */
  ghost predicate Added(v: Verifier, opts: Options, i: nat, discovers: string -> bool)
    requires i <= |opts.issuers|
  {
    && v.issuers.Keys == Urls(opts.issuers[..i])
    && (forall j | 0 <= j < i :: opts.issuers[j].url in v.issuers && v.issuers[opts.issuers[j].url] == Entry(opts, j))
    && (forall j | 0 <= j < i :: discovers(opts.issuers[j].url))
    && (forall j, k | 0 <= j < k < i :: opts.issuers[j].url != opts.issuers[k].url)
  }

  lemma UrlsNext(opts: Options, i: nat)
    requires i < |opts.issuers|
    ensures Urls(opts.issuers[..i + 1]) == Urls(opts.issuers[..i]) + {opts.issuers[i].url}
    ensures forall j | 0 <= j < i :: opts.issuers[j].url in Urls(opts.issuers[..i])
  {
    assert opts.issuers[..i + 1] == opts.issuers[..i] + [opts.issuers[i]];
    forall j | 0 <= j < i ensures opts.issuers[j].url in Urls(opts.issuers[..i]) {
      assert opts.issuers[..i][j] in opts.issuers[..i];
    }
  }

  lemma FreshUrl(v: Verifier, opts: Options, i: nat, discovers: string -> bool, j: nat)
    requires j < i < |opts.issuers| && Added(v, opts, i, discovers) && opts.issuers[i].url !in v.issuers
    ensures opts.issuers[j].url != opts.issuers[i].url && opts.issuers[j].url in v.issuers
    ensures v.issuers[opts.issuers[j].url] == Entry(opts, j) && discovers(opts.issuers[j].url)
  {}

  lemma AddedNext(v: Verifier, opts: Options, i: nat, discovers: string -> bool)
    requires i < |opts.issuers| && Added(v, opts, i, discovers)
    requires opts.issuers[i].url !in v.issuers && discovers(opts.issuers[i].url)
    ensures Added(v.(issuers := v.issuers[opts.issuers[i].url := Entry(opts, i)]), opts, i + 1, discovers)
  {
    UrlsNext(opts, i);
    var next := v.issuers[opts.issuers[i].url := Entry(opts, i)];
    forall j | 0 <= j < i + 1
      ensures opts.issuers[j].url in next && next[opts.issuers[j].url] == Entry(opts, j)
              && discovers(opts.issuers[j].url)
    {
      if j < i {
        FreshUrl(v, opts, i, discovers, j);
      }
    }
    forall j, k | 0 <= j < k < i + 1 ensures opts.issuers[j].url != opts.issuers[k].url {
      if k == i {
        FreshUrl(v, opts, i, discovers, j);
      }
    }
  }

  lemma {:induction false} AddIssuersMeans(v: Verifier, opts: Options, i: nat, discovers: string -> bool)
    requires i <= |opts.issuers| && Added(v, opts, i, discovers)
    ensures AddIssuers(v, opts, i, discovers).Success? ==>
              AddIssuers(v, opts, i, discovers).value.audiences == v.audiences &&
              Added(AddIssuers(v, opts, i, discovers).value, opts, |opts.issuers|, discovers)
    ensures AddIssuers(v, opts, i, discovers).Failure? ==>
              !DistinctIssuers(opts) || exists j :: 0 <= j < |opts.issuers| && !discovers(opts.issuers[j].url)
    decreases |opts.issuers| - i
  {
    if i < |opts.issuers| {
      var url := opts.issuers[i].url;
      if url in v.issuers {
        var iss :| iss in opts.issuers[..i] && iss.url == url;
        var j :| 0 <= j < i && opts.issuers[j] == iss;
      } else if discovers(url) {
        AddedNext(v, opts, i, discovers);
        AddIssuersMeans(v.(issuers := v.issuers[url := Entry(opts, i)]), opts, i + 1, discovers);
      }
    }
  }

  // ---------- Verifying a token ----------

  function UnverifiedIssuer(token: string, oracle: TokenOracle): Result<string, VerifyError> {
    var parts := Split(token, '.');
    if |parts| != 3 then Failure(MalformedToken)
    else
      match oracle.issuerClaim(parts[1])
      case None => Failure(MalformedPayload)
      case Some(iss) => if iss == "" then Failure(NoIssuer) else Success(iss)
  }

  method AudienceAllowed(v: Verifier, tokenAudiences: seq<string>) returns (allowed: bool)
    ensures allowed <==> exists a :: a in tokenAudiences && a in v.audiences
  {
    for i := 0 to |tokenAudiences|
      invariant forall j | 0 <= j < i :: tokenAudiences[j] !in v.audiences
    {
      if tokenAudiences[i] in v.audiences {
        return true;
      }
    }
    return false;
  }

  ghost predicate AudienceOk(v: Verifier, t: IdToken) {
    exists a :: a in t.audience && a in v.audiences
  }

  predicate RequiredClaimsHold(wanted: map<string, string>, claims: map<string, string>) {
    forall k | k in wanted :: k in claims && claims[k] == wanted[k]
  }

  /** The identity of a checked token, if the issuer's required claims hold. */
  function Bound(entry: IssuerEntry, t: IdToken, claims: map<string, string>): Result<Identity, VerifyError> {
    if RequiredClaimsHold(entry.requireClaims, claims)
    then Success(Identity(t.issuer, t.subject, t.audience, t.expiry, claims))
    else Failure(ClaimMismatch)
  }

  /** `r` is a possible result of verifying `token`; only the flattening leaves a choice. */
  ghost predicate Verifies(v: Verifier, token: string, oracle: TokenOracle, r: Result<Identity, VerifyError>) {
    if token == "" then r == Failure(EmptyToken)
    else
      match UnverifiedIssuer(token, oracle)
      case Failure(e) => r == Failure(e)
      case Success(iss) =>
        if iss !in v.issuers then r == Failure(UntrustedIssuer)
        else
          var entry := v.issuers[iss];
          match oracle.check(entry.url, entry.algs, token)
          case None => r == Failure(TokenRejected)
          case Some(t) =>
            if !AudienceOk(v, t) then r == Failure(AudienceNotAllowed)
            else if t.payload.None? then r == Failure(UnreadableClaims)
            else exists claims :: Parses(t.payload.value, claims) && r == Bound(entry, t, claims)
  }

  method Verify(v: Verifier, token: string, oracle: TokenOracle) returns (r: Result<Identity, VerifyError>)
    ensures Verifies(v, token, oracle, r)
  {
    if token == "" {
      return Failure(EmptyToken);
    }
    var iss := UnverifiedIssuer(token, oracle);
    if iss.Failure? {
      return Failure(iss.error);
    }
    if iss.value !in v.issuers {
      return Failure(UntrustedIssuer);
    }
    var entry := v.issuers[iss.value];
    var checked := oracle.check(entry.url, entry.algs, token);
    if checked.None? {
      return Failure(TokenRejected);
    }
    var t := checked.value;
    var allowed := AudienceAllowed(v, t.audience);
    if !allowed {
      return Failure(AudienceNotAllowed);
    }
    if t.payload.None? {
      return Failure(UnreadableClaims);
    }
    var id := Parse(t.payload.value);
    id := id.(issuer := t.issuer, subject := t.subject, audience := t.audience, expiry := t.expiry);
    var remaining := entry.requireClaims.Keys;
    while remaining != {}
      invariant remaining <= entry.requireClaims.Keys
      invariant forall k | k in entry.requireClaims && k !in remaining ::
                  k in id.claims && id.claims[k] == entry.requireClaims[k]
      decreases |remaining|
    {
      var k :| k in remaining;
      if k !in id.claims || id.claims[k] != entry.requireClaims[k] {
        return Failure(ClaimMismatch);
      }
      remaining := remaining - {k};
    }
    return Success(id);
  }

  /** The token has three parts, and the `iss` claim read from the middle one is this issuer. */
  ghost predicate StatesIssuer(token: string, oracle: TokenOracle, issuer: string) {
    exists header, payload, signature ::
      && '.' !in header && '.' !in payload && '.' !in signature
      && token == header + ['.'] + payload + ['.'] + signature
      && oracle.issuerClaim(payload) == Some(issuer) && issuer != ""
  }

  /** The unverified issuer is read exactly from tokens of that form. */
  lemma {:induction false} UnverifiedIssuerMeans(token: string, oracle: TokenOracle, issuer: string)
    ensures UnverifiedIssuer(token, oracle) == Success(issuer) <==> StatesIssuer(token, oracle, issuer)
  {
    if UnverifiedIssuer(token, oracle) == Success(issuer) {
      var header, payload, signature := ThreeSegments(token);
    }
    if header, payload, signature :| && '.' !in header && '.' !in payload && '.' !in signature
                                     && token == header + ['.'] + payload + ['.'] + signature
                                     && oracle.issuerClaim(payload) == Some(issuer) && issuer != "" {
      SegmentsSplit(header, payload, signature);
    }
  }

  /**
   The token is issuer `i`'s, as far as configuration and signature go: it states that issuer, the
   issuer's verifier accepts it as `t`, for an allowed audience, and its claims can be read.
   */
  ghost predicate Authentic(opts: Options, token: string, oracle: TokenOracle, i: nat, t: IdToken) {
    && i < |opts.issuers|
    && token != ""
    && UnverifiedIssuer(token, oracle) == Success(opts.issuers[i].url)
    && oracle.check(opts.issuers[i].url, opts.signingAlgs, token) == Some(t)
    && (exists a :: a in t.audience && a in opts.audiences)
    && t.payload.Some?
  }

  /**
   What it takes for a token to be accepted as `id`, in terms of the configuration: it is some
   issuer's, and its flattened claims have the values required of that issuer.
   */
  ghost predicate Accepted(opts: Options, token: string, oracle: TokenOracle, id: Identity) {
    exists i: nat, t ::
      && Authentic(opts, token, oracle, i, t)
      && Parses(t.payload.value, id.claims)
      && RequiredClaimsHold(opts.issuers[i].requireClaims, id.claims)
      && id == Identity(t.issuer, t.subject, t.audience, t.expiry, id.claims)
  }

  /** What it takes for a token to be turned away: it is no issuer's, or its claims lack a required value. */
  ghost predicate TurnedAway(opts: Options, token: string, oracle: TokenOracle) {
    (exists i: nat, t :: Authentic(opts, token, oracle, i, t)) ==>
      exists i: nat, t, claims ::
        && Authentic(opts, token, oracle, i, t)
        && Parses(t.payload.value, claims) && !RequiredClaimsHold(opts.issuers[i].requireClaims, claims)
  }

  /** The checks in front of the claims pass exactly for the tokens that are some issuer's. */
  lemma {:induction false} AuthenticChecks(
    v: Verifier, opts: Options, token: string, oracle: TokenOracle, r: Result<Identity, VerifyError>,
    i: nat, t: IdToken)
    requires Trusts(v, opts) && Authentic(opts, token, oracle, i, t)
    ensures Verifies(v, token, oracle, r) <==>
            exists claims :: Parses(t.payload.value, claims) && r == Bound(Entry(opts, i), t, claims)
  {
    assert AudienceOk(v, t);
  }

  /** Where verification stops before the claims, and with which error. */
  function EarlyError(v: Verifier, token: string, oracle: TokenOracle): Option<VerifyError> {
    if token == "" then Some(EmptyToken)
    else
      match UnverifiedIssuer(token, oracle)
      case Failure(e) => Some(e)
      case Success(iss) =>
        if iss !in v.issuers then Some(UntrustedIssuer)
        else
          match oracle.check(v.issuers[iss].url, v.issuers[iss].algs, token)
          case None => Some(TokenRejected)
          case Some(t) =>
            if forall a | a in t.audience :: a !in v.audiences then Some(AudienceNotAllowed)
            else if t.payload.None? then Some(UnreadableClaims)
            else None
  }

  /** A token that is no issuer's fails before its claims are looked at. */
  lemma {:induction false} NobodysToken(v: Verifier, opts: Options, token: string, oracle: TokenOracle)
    requires Trusts(v, opts) && !exists i: nat, t :: Authentic(opts, token, oracle, i, t)
    ensures EarlyError(v, token, oracle).Some?
  {
    if EarlyError(v, token, oracle).None? {
      var iss := UnverifiedIssuer(token, oracle).value;
      var o :| o in opts.issuers && o.url == iss;
      var i :| 0 <= i < |opts.issuers| && opts.issuers[i] == o;
      assert Authentic(opts, token, oracle, i, oracle.check(iss, opts.signingAlgs, token).value);
    }
  }

  lemma EarlyErrorIsResult(v: Verifier, token: string, oracle: TokenOracle, r: Result<Identity, VerifyError>)
    requires EarlyError(v, token, oracle).Some?
    ensures Verifies(v, token, oracle, r) <==> r == Failure(EarlyError(v, token, oracle).value)
  {}

  /** The verifier built from a configuration accepts exactly what the configuration accepts. */
  lemma {:induction false} VerifiesAsConfigured(
    v: Verifier, opts: Options, token: string, oracle: TokenOracle, id: Identity)
    requires Trusts(v, opts)
    ensures Verifies(v, token, oracle, Success(id)) <==> Accepted(opts, token, oracle, id)
  {
    if i: nat, t :| Authentic(opts, token, oracle, i, t) {
      AuthenticChecks(v, opts, token, oracle, Success(id), i, t);
    } else {
      NobodysToken(v, opts, token, oracle);
      EarlyErrorIsResult(v, token, oracle, Success(id));
    }
  }

  /** And it fails on exactly the tokens the configuration turns away. */
  lemma {:induction false} FailsAsConfigured(v: Verifier, opts: Options, token: string, oracle: TokenOracle)
    requires Trusts(v, opts)
    ensures (exists e :: Verifies(v, token, oracle, Failure(e))) <==> TurnedAway(opts, token, oracle)
  {
    if i: nat, t :| Authentic(opts, token, oracle, i, t) {
      forall e ensures Verifies(v, token, oracle, Failure(e)) <==>
                         exists claims :: Parses(t.payload.value, claims)
                                          && Failure(e) == Bound(Entry(opts, i), t, claims)
      {
        AuthenticChecks(v, opts, token, oracle, Failure(e), i, t);
      }
      if claims :| Parses(t.payload.value, claims) && !RequiredClaimsHold(opts.issuers[i].requireClaims, claims) {
        assert Failure(ClaimMismatch) == Bound(Entry(opts, i), t, claims);
        assert Verifies(v, token, oracle, Failure(ClaimMismatch));
      }
    } else {
      NobodysToken(v, opts, token, oracle);
      EarlyErrorIsResult(v, token, oracle, Failure(EarlyError(v, token, oracle).value));
    }
  }

  /** Verification always has a result. */
  lemma {:induction false} VerifiesSomehow(v: Verifier, token: string, oracle: TokenOracle)
    returns (r: Result<Identity, VerifyError>)
    ensures Verifies(v, token, oracle, r)
  {
    var early := EarlyError(v, token, oracle);
    if early.Some? {
      r := Failure(early.value);
      EarlyErrorIsResult(v, token, oracle, r);
    } else {
      var entry := v.issuers[UnverifiedIssuer(token, oracle).value];
      var t := oracle.check(entry.url, entry.algs, token).value;
      var claims := ParsesSomehow(t.payload.value);
      r := Bound(entry, t, claims);
      assert AudienceOk(v, t);
    }
  }

  /** An accepted token states a configured issuer, and its identity has every claim required of that issuer. */
  lemma {:induction false} AcceptedBindsIssuer(opts: Options, token: string, oracle: TokenOracle, id: Identity)
    requires Accepted(opts, token, oracle, id)
    ensures exists i :: && 0 <= i < |opts.issuers| && StatesIssuer(token, oracle, opts.issuers[i].url)
                        && forall k | k in opts.issuers[i].requireClaims ::
                             k in id.claims && id.claims[k] == opts.issuers[i].requireClaims[k]
  {
    var i: nat, t :| Authentic(opts, token, oracle, i, t)
                     && RequiredClaimsHold(opts.issuers[i].requireClaims, id.claims);
    UnverifiedIssuerMeans(token, oracle, opts.issuers[i].url);
  }

  /** And having them suffices, once the token is that issuer's. */
  lemma {:induction false} RequiredClaimsSuffice(
    opts: Options, token: string, oracle: TokenOracle, i: nat, t: IdToken, claims: map<string, string>)
    requires Authentic(opts, token, oracle, i, t) && Parses(t.payload.value, claims)
    requires forall k | k in opts.issuers[i].requireClaims ::
               k in claims && claims[k] == opts.issuers[i].requireClaims[k]
    ensures Accepted(opts, token, oracle, Identity(t.issuer, t.subject, t.audience, t.expiry, claims))
  {
    assert RequiredClaimsHold(opts.issuers[i].requireClaims, claims);
  }
}
