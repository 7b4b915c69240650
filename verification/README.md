# A verified model of nats-oidc-callout

The service answers NATS connection attempts: it verifies the OIDC token a client presents,
evaluates an ordered policy for the verified identity and signs a user JWT. A client library
beside it mints AWS tokens and keeps them in a cache file. This project models both in Dafny and
proves what they promise.

Check it with `dafny verify dfyconfig.toml`.

## What is modelled

| file | what it models |
|---|---|
| `Wrappers.dfy`, `Text.dfy` | `value, ok` and `value, error` results; the `strings` operations in use, with their split/join laws |
| `Regex.dfy` | regular expressions: their meaning (`Spans`), and a prioritised backtracking search (`Ends`, `FindFrom`) |
| `RegexSyntax.dfy` | quoting, and reading a text back into an expression |
| `SubPattern.dfy` | the meaning of globs, the emitter of their regular-expression text, and the correctness of that compilation |
| `AnchoredPattern.dfy` | how a regular expression between `^` and `$` is read, and what it accepts |
| `AccountPin.dfy` | compiling subject patterns, and the static test that a glob names one AWS account |
| `RegexPin.dfy` | the same for patterns given as regular expressions |
| `Authz.dfy` | rules, `Policy.Validate`, `Policy.Evaluate`, the guardrail |
| `Identity.dfy` | flattening of a token's claims under an arbitrary map iteration order |
| `Verifier.dfy` | building a verifier from its options, and verifying a token |
| `Metrics.dfy`, `Callout.dfy` | the counters; the authorizer as one call sees it |
| `Config.dfy`, `Reload.dfy` | loading a configuration; starting up and the SIGHUP loop |
| `Runs.dfy`, `CalloutRuns.dfy` | concurrent authorization calls interleaved with reloads, as a transition system |
| `TokenSource.dfy` | the AWS token source with one caller at a time |
| `TokenRuns.dfy`, `TokenCalls.dfy` | token sources in many processes sharing one cache file, with partial writes, failures and crashes |
| `Exponent.dfy` | the octets of an RSA exponent |

An object whose methods update its fields is a class, and each of its methods is proved against a
function of the old state (`Policy.Validate` against `Validated`, `Authorizer.Authorize` against
`Yields`, `Load` against `LoadConfig`, `WatchReloads` against `AfterHups`). The laws are then proved
about those functions. The two concurrent protocols are transition systems; `Invariance` is the
induction principle over their runs.

Oracles stand for libraries and the outside world and are universally quantified: OIDC discovery
and signature checks, base64 and JSON decoding, YAML reading, the CEL compiler and its verdicts,
STS, the JWT signer, files and the clock. Go's unspecified map order is a relation between the
claim map before and after (`Flattens`, `Parses`): the methods pick any remaining key.

## Results that are conditions

Some promises hold only under a condition. Where the condition is exact the lemma is an
if-and-only-if.

- A `.` in the emitted text does not match a newline, so the text standing for a `*` is free of
  newlines (`GlobCorrect`).
- Full-span acceptance of a regular expression is sound for every expression (`WholeMatchSound`).
  In `re:^body$` the anchors belong to the first and the last branch of the body
  (`AnchoredTextParses`), and the first branch that matches anything at the start decides
  (`RegexAccepts`). So acceptance is complete when the body has no top-level `|`, or a `$` in front
  of each (`RegexExact`). For plain branches it is complete exactly when no branch comes behind a
  shorter beginning of itself (`PlainBranchesComplete`): `re:^a|ab$` refuses `ab`
  (`BranchLosesMatch`).
- The static account test tells the truth about a glob exactly when none of the first four fields
  contains a `*` and the id is not followed by a literal `$` in a pattern of five fields
  (`PinTruthful`). The code comment says the test also works for regular expressions. It does for
  one branch whose five account fields are plain text, whatever follows them other than a repetition
  of the last colon (`RegexPinHolds`); for plain branches it does exactly when every branch that
  can be reached names the account (`RegexPinTruthful`, `TwoBranchPinTruthful`). It does not for any
  `re:^.*|q$` with an account in `q`, which passes the test and accepts every one-line subject
  (`RegexPinCanMiss`), so that the guardrail lets such a rule through (`GuardrailCanMiss`).
- Flattening is independent of the iteration order exactly when no two leaves share a dotted name
  with different texts (`OrderIndependence`); dot-free names suffice (`PlainNamesUnambiguous`).
- A call that fails to sign is counted nowhere, although the reason exists (`QuiescentCounters`).

## Model

| member | source | states |
|---|---|---|
| Regex.WholeMatchSound | internal/authz/authz.go:215-223 | a search whose first match spans the subject proves the whole subject matches, for every expression and wherever its anchors sit |
| Regex.WholeMatchExact | internal/authz/authz.go:215-223 | with `$` on every path, acceptance and matching coincide |
| Regex.LeftBranchDecides | internal/authz/authz.go:215-223 | of two alternatives the first that matches any stretch at the start decides alone whether the subject is accepted |
| Regex.EndsSound | internal/authz/authz.go:221 | every end the backtracking search lists closes a match |
| Regex.EndsComplete | internal/authz/authz.go:221 | every match is among the ends the search lists |
| AnchoredPattern.AnchoredTextParses | internal/authz/authz.go:298-307 | for every body, the text `^body$` reads as the body with `^` on its first and `$` on its last branch only |
| AnchoredPattern.GroupReads | internal/authz/authz.go:302 | a parenthesised body matches what the body matches, and a starred one any number of repetitions of it |
| RegexPin.RegexAccepts | internal/authz/authz.go:215-223 | for every body, `re:^body$` compiles, means what the body means, and accepts exactly the subjects a branch of the body takes |
| RegexPin.RegexExact | internal/authz/authz.go:298-307 | without a top-level `\|`, or with a `$` in front of each, `re:^body$` accepts exactly the subjects the body matches as a whole, greedy loops over empty bodies included |
| RegexPin.PlainBranchesAccept | internal/authz/authz.go:298-307 | a pattern of plain branches accepts exactly the branches that no earlier branch is a beginning of |
| RegexPin.PlainBranchesComplete | internal/authz/authz.go:298-307 | such a pattern accepts every subject it matches if and only if no branch is cut short by an earlier one |
| RegexPin.BranchLosesMatch | internal/authz/authz.go:298-307 | the smallest such loss: `re:^a\|ab$` passes the anchoring test but refuses the matching subject `ab` |
| RegexSyntax.LexQuoted | internal/authz/authz.go:312 | quoted text reads back as its own characters, whatever follows |
| SubPattern.EmitGlob | internal/authz/authz.go:309-316 | the emitter's buffer loop and its one suffix trim yield the quoted pieces joined by `.*` between anchors: the trim removes only the emitter's own `.*` |
| SubPattern.EmittedTextParses | internal/authz/authz.go:308-317 | the emitted text always parses, to begin-anchor, literals separated by any-stars, end-anchor |
| SubPattern.GlobCorrect | internal/authz/authz.go:291-322 | the emitted, re-parsed and searched expression accepts exactly the subjects that fill each `*` with a newline-free text |
| AccountPin.CompileSub | internal/authz/authz.go:291-322 | no matcher for the empty pattern, an error for an unanchored `re:` pattern, else the parsed expression |
| AccountPin.EmptyPattern | internal/authz/authz.go:215-218 | without a pattern every subject is accepted |
| AccountPin.UnanchoredRefused | internal/authz/authz.go:298-301 | a text behind `re:` that does not begin with `^` and end with `$` never compiles |
| AccountPin.GlobMatcher | internal/authz/authz.go:294-322 | every glob compiles, and its matcher has the glob's meaning |
| AccountPin.ExactPattern | internal/authz/authz.go:263-270 | a pattern called exact accepts itself and no other subject |
| AccountPin.ExactMeans | internal/authz/authz.go:263-270 | a glob is called exact if and only if it accepts no subject but itself |
| AccountPin.AccountIdMeans | internal/authz/authz.go:110-111 | an account id is twelve decimal digits |
| RegexPin.PinReadsBody | internal/authz/authz.go:277-289 | the static test reads the fifth colon-separated field of the bare pattern, and passes exactly when that is an account id |
| AccountPin.FirmPinHolds | internal/authz/authz.go:277-289 | a firm pin puts the 12-digit id in the fifth field of every accepted subject |
| AccountPin.PinTruthful | internal/authz/authz.go:272-289 | all accepted subjects carry the id as their fifth field if and only if the pin is firm |
| RegexPin.RegexPinHolds | internal/authz/authz.go:272-289 | an accepted expression of one branch whose account fields are plain text accepts only subjects with the account the test read, whatever follows those fields other than a repetition of their last colon |
| RegexPin.RegexPinTruthful | internal/authz/authz.go:272-289 | for any number of plain branches, all accepted subjects carry the account the test read if and only if every branch that is reached names it |
| RegexPin.TwoBranchPinTruthful | internal/authz/authz.go:272-289 | all subjects `re:^p\|q$` accepts carry the account the test read if and only if both plain branches name it |
| RegexPin.RegexPinCanMiss | internal/authz/authz.go:272-289 | for every account-bearing body `q`, `re:^.*\|q$` passes the static test and accepts every one-line subject |
| Authz.CheckClaims | internal/authz/authz.go:204-208 | the claims loop, in any order, decides whether all wanted claims have their values |
| Authz.Matches | internal/authz/authz.go:197-213 | the early-return checks decide the conjunction of issuer, subject, claims and expression |
| Authz.Policy.Validate | internal/authz/authz.go:131-175 | the in-place loop leaves the policy, and reports the error, that the validation function says |
| Authz.StrongPinMeans | internal/authz/authz.go:228-244 | the strong pins by their literal names: a star-free glob, an account in the pattern, `aws.aws_account` with an account id, `repository`, `repository_id`, `job_workflow_ref` |
| Authz.PinSparesBroad | internal/authz/authz.go:167-172 | a rule with such a pin passes validation unmarked, and one without any is refused as broad unless marked |
| Authz.ObjectionMeans | internal/authz/authz.go:136-172 | each objection of the validation has its own condition on the fields of the rule, in the order of the checks |
| Authz.ValidationAccepts | internal/authz/authz.go:131-175 | success exactly on non-empty policies of acceptable rules, with every rule compiled; otherwise the first unacceptable rule is reported and the validated flag is untouched |
| Authz.RefusedPolicyLeft | internal/authz/authz.go:131-175 | a refused policy is left with the rules before the first unacceptable one compiled, those behind it untouched, and the validated flag as it was |
| Authz.RevalidationChangesNothing | internal/authz/authz.go:131-175 | a policy that passed passes again and stays as it is |
| Authz.Policy.Evaluate | internal/authz/authz.go:179-195 | the search loop returns the decision of the first matching rule, refusing an unvalidated policy |
| Authz.LeastMatchWins | internal/authz/authz.go:177-195 | denial exactly when no rule matches; otherwise the least matching rule's account, permissions and cap |
| Authz.EvaluationMeans | internal/authz/authz.go:177-213 | on the fields of the rules: denial exactly when no rule's issuer, subject, claims and expression all hold of the identity, otherwise the grant of the first rule for which they do |
| Authz.UnvalidatedRefuses | internal/authz/authz.go:180-182 | a policy that was not validated grants nothing |
| Authz.NonMatchingEdit | internal/authz/authz.go:183-193 | inserting or deleting rules that do not match changes no outcome but the reported name |
| Authz.EditBehindWinner | internal/authz/authz.go:183-193 | rules inserted behind the winner change nothing |
| Authz.AppendKeepsGrants | internal/authz/authz.go:183-193 | appending rules never takes a grant away |
| Authz.RuleNameMeans | internal/authz/authz.go:246-251 | the reported name is the rule's own, or a number sign and its position, which can be read back |
| Authz.GuardrailSound | internal/authz/authz.go:131-175 | whatever a validated policy grants through a rule not marked broad goes to an identity that rule pins |
| Authz.GuardrailCanMiss | internal/authz/authz.go:131-175 | a policy of the one rule `re:^.*\|q$`, not marked broad, passes validation and grants to every identity with a one-line subject |
| Identity.Flatten | internal/identity/identity.go:101-114 | the recursive writes to the shared map are one run of the flattening relation |
| Identity.Parse | internal/identity/identity.go:77-97 | the claims are those of some iteration order over the payload |
| Identity.ClaimsComeFromLeaves | internal/identity/identity.go:85-114 | for every order, collisions included: a name is present exactly when a leaf has it, with the text of such a leaf |
| Identity.ScalarsAreStored | internal/identity/identity.go:85-114 | for an unambiguous payload, a string is stored as it is, a number as its literal, true as `true` and false as `false`, under the dotted path with `aws` for the AWS namespace |
| Identity.OnlyScalarsAreStored | internal/identity/identity.go:85-114 | for every payload and order, the names present are exactly those of strings, numbers and truth values outside the six registered claims |
| Identity.OrderIndependence | internal/identity/identity.go:85-114 | the result is the same for all orders if and only if no two leaves share a name with different texts, and then it is the map from dotted paths to texts |
| Identity.ClaimKeySplits | internal/identity/identity.go:90-94 | for dot-free names, splitting a dotted name gives the path back |
| Identity.PlainNamesUnambiguous | internal/identity/identity.go:85-114 | dot-free names, and no top-level `aws` beside the AWS namespace, suffice for order independence |
| Identity.NoReservedName | internal/identity/identity.go:34-38 | no registered claim name is ever an output name |
| Identity.AwsNameOrigin | internal/identity/identity.go:90-94 | a name under `aws.` comes from the AWS namespace or a claim itself named `aws` or `aws.…` |
| Identity.ArraysDoNotContribute | internal/identity/identity.go:99-114 | the runs on a payload are those on it with all arrays set to null |
| Verifier.New | internal/verifier/verifier.go:77-129 | the two map-building loops compute the verifier or the first error |
| Verifier.NewVerifierMeans | internal/verifier/verifier.go:74-129 | a verifier is built exactly when nothing is missing, no issuer repeats and all are discovered, and it trusts exactly what is configured |
| Verifier.AudienceAllowed | internal/verifier/verifier.go:183-190 | whether some token audience is allowed |
| Verifier.Verify | internal/verifier/verifier.go:133-181 | the checks, in order, give a result the verification relation admits |
| Verifier.UnverifiedIssuerMeans | internal/verifier/verifier.go:192-214 | the issuer is read exactly from tokens of three segments, from the `iss` claim of the middle one |
| Verifier.AcceptedBindsIssuer | internal/verifier/verifier.go:133-181 | an accepted token states a configured issuer, and its identity has every claim required of that issuer with the required value |
| Verifier.RequiredClaimsSuffice | internal/verifier/verifier.go:133-181 | conversely, a token that is an issuer's and has its required claims is accepted |
| Verifier.VerifiesAsConfigured | internal/verifier/verifier.go:131-181 | a token is accepted as an identity exactly when the configuration accepts it |
| Verifier.FailsAsConfigured | internal/verifier/verifier.go:131-181 | verification fails exactly on the tokens that are no configured issuer's or whose claims lack a required value |
| Metrics.Metrics.RecordDenied | internal/metrics/metrics.go:88-95 | one denied request, one denial for the reason, one observation, and the total over reasons grows by one |
| Callout.CountedMeans | internal/metrics/metrics.go:79-95 | what each outcome of a call adds to the allowed, the denied, the denials for each reason, and the observations |
| Callout.ComputeCappedExpiry | internal/callout/callout.go:126-136 | the smaller of token expiry and now plus a positive cap |
| Callout.ExpiryIsLatestSecond | internal/callout/callout.go:110-136 | the JWT's expiry is the latest whole second within the token's life and the cap, and no other |
| Callout.Authorizer.Authorize | internal/callout/callout.go:70-124 | the steps of a call yield an outcome of the ruleset it loaded, one generic error for every failure, and the counters of that outcome |
| Callout.IssuedExactly | internal/callout/callout.go:70-124 | a user JWT is issued exactly when token, issuer, audience, required claims and some rule allow it and it can be signed, with the least rule's grant and the latest permitted expiry |
| Callout.RejectedExactly | internal/callout/callout.go:79-116 | each of the four rejections has its own exact condition in terms of the configuration |
| Callout.IssuedIdentityPinned | internal/callout/callout.go:87-110 | an issued JWT is for a verified identity that the granting rule, the least one admitting it, pins unless it is broad, and never outlives the token |
| Callout.OutcomeDetermined | internal/callout/callout.go:87-101 | for unambiguous claims the outcome does not depend on the map order |
| Config.Config.Validate | internal/config/config.go:144-172 | the field checks, the issuer loop and the policy validation in place |
| Config.LoadPolicy | internal/authz/authz.go:113-127 | a policy file yields a fresh validated policy or an error |
| Config.Load | internal/config/config.go:105-142 | the configuration the load function says, as fresh objects |
| Config.LoadMeans | internal/config/config.go:117-141 | loading succeeds exactly on complete configurations with acceptable rules; the policy file replaces inline rules, the second validation changes nothing, and the settings are the file's but for an unset timeout and the unset places of an enabled metrics endpoint |
| Config.GapMeans | internal/config/config.go:144-167 | settings are refused for the first thing missing, each with its own error |
| Reload.Build | cmd/nats-oidc-callout/main.go:142-170 | the verifier of the configured issuers, or the CA or discovery failure |
| Reload.Start | cmd/nats-oidc-callout/main.go:64-130 | the service starts exactly when the configuration loads, the seeds are good, the verifier is built, the metrics address can be bound and NATS takes it on; it then serves as a whole what load and construction gave, with counters at zero if enabled |
| Reload.WatchReloads | cmd/nats-oidc-callout/main.go:177-205 | after any run of SIGHUPs the authorizer and `current` are those of the last attempt that got through, and those of before if none did |
| Reload.ServiceExists | cmd/nats-oidc-callout/main.go:188-200 | an attempt gets through exactly when its configuration loads, its CA file is usable and its issuers are distinct and discovered |
| Reload.LastSuccessServes | cmd/nats-oidc-callout/main.go:188-201 | a reload that gets through takes effect and stays in effect until another one does |
| Reload.ReloadsAreAtomic | cmd/nats-oidc-callout/main.go:172-205 | the service in force stems as a whole from one attempt that passed every stage |
| Reload.FailedReloadsChangeNothing | cmd/nats-oidc-callout/main.go:189-198 | failed reloads leave everything as it was |
| CalloutRuns.SnapshotConsistency | internal/callout/callout.go:61-124 | in every interleaving, a finished call's outcome is one of a call alone against the pair installed at its load step |
| CalloutRuns.InstalledFromOneConfig | cmd/nats-oidc-callout/main.go:177-205 | in every run the installed pair is built from one validated configuration, that of the latest reload swapped in before or of the start, and agrees with `current` whenever the loop waits |
| CalloutRuns.HupsComplete | cmd/nats-oidc-callout/main.go:184-203 | whatever calls are in flight, the loop's steps over any signals lead to exactly the service the sequential loop ends with |
| CalloutRuns.CallsEnd | internal/callout/callout.go:70-124 | in every reachable state an unfinished call can take a step, each of its steps brings it nearer its end, and nothing else changes it |
| CalloutRuns.NothingCountedWhenOff | internal/callout/callout.go:80-123 | with metrics off the counters stay at zero in every run |
| CalloutRuns.OnlySwapsChangeRuleset | internal/callout/callout.go:61-66 | the ruleset changes only by a swap to a completely built pair |
| CalloutRuns.NeverUnvalidated | internal/authz/authz.go:180-182 | the refusal of an unvalidated policy is never reached in a run |
| CalloutRuns.CountersConserved | internal/metrics/metrics.go:79-95 | in every reachable state, denied requests equal the denials over reasons plus the calls between the two increments, and counted requests equal observed plus unobserved ones |
| CalloutRuns.QuiescentCounters | internal/callout/callout.go:80-123 | with no call in flight, calls equal allowed plus denied plus signing failures, the histogram equals allowed plus denied, and the allowed and the denials for each reason are the calls with that outcome |
| TokenSource.SourceIsUsable | lib/awsauth/awsauth.go:136-228 | which configurations are accepted, the audience measured in bytes; the algorithm, duration and refresh margin they lead to, and that the requested seconds are exactly the duration and within 60 to 3600 |
| TokenSource.AudienceAsInRfc | lib/awsauth/awsauth.go:438-452 | a source's audience is found exactly when section 4.1.3 of RFC 7519 says the token names it |
| TokenSource.HitIsValid | lib/awsauth/awsauth.go:311-331 | a cache hit is trimmed, well formed, for the source's audience and unexpired when checked |
| TokenSource.HitExactly | lib/awsauth/awsauth.go:311-331 | a cache file is a hit if and only if its trimmed text is a three-segment token whose claims name the source's audience and expire, in seconds, later than now; it is served with that expiry |
| TokenSource.TrimSpaceMeans | lib/awsauth/awsauth.go:316 | trimming takes away the spaces around a text and nothing else |
| TokenSource.CachingOff | lib/awsauth/awsauth.go:239-256 | without a cache file every call asks STS once and hands on what it answers |
| TokenSource.NeverEmpty | lib/awsauth/awsauth.go:289-309 | an empty token is never returned, and an STS error or an empty answer leaves the file alone |
| TokenSource.TokenSource.Refresh | lib/awsauth/awsauth.go:270-286 | one STS call, the recorded error, the replaced cache, and the flag cleared on every way out |
| TokenSource.TokenSource.Token | lib/awsauth/awsauth.go:239-256 | the result, the cache and the STS calls of one call by itself; it starts a refresh exactly when one is due and none is outstanding |
| TokenSource.TokenSource.TokenThenRefresh | lib/awsauth/awsauth.go:239-287 | a call and the refresh it starts together have the effect the model function gives, and a call during an outstanding refresh that of the call alone |
| TokenSource.TokenKept | lib/awsauth/awsauth.go:239-287 | over any run of calls that find the token unexpired and do not replace it, the cache keeps it and STS is asked by the background refreshes near its expiry and nobody else |
| TokenSource.MintedTokenServed | lib/awsauth/awsauth.go:233-256 | after a synchronous mint of a good token that could be written, every later call returns that token without a synchronous STS call, in the refresh window too, until it expires or a refresh replaces it; an expired one is minted anew |
| TokenSource.StsCallsApart | lib/awsauth/awsauth.go:239-287 | any two consecutive STS calls of a sequential run are more than lifetime minus refresh margin apart |
| TokenSource.StsCallsInWindow | lib/awsauth/awsauth.go:239-287 | a window holds at most one more STS call than its length divided by that gap |
| TokenRuns.CacheIntegrity | lib/awsauth/awsauth.go:333-358 | over all interleavings, partial writes, errors and crashes, the cache path holds its initial content or one complete minted token in a 0600 file, and token bytes are only ever in 0600 files |
| TokenRuns.SingleFlight | lib/awsauth/awsauth.go:261-287 | the flag is set exactly when a refresh is outstanding, and at most one background mint per source runs |
| TokenRuns.RefreshClearsFlag | lib/awsauth/awsauth.go:270-286 | in every run, a refresh that is over has cleared its source's flag at an earlier step |
| TokenRuns.RefreshIsBounded | lib/awsauth/awsauth.go:270-286 | in every run, whichever way a refresh goes after its mint, the steps it takes are bounded by its stages and the length of its token |
| TokenRuns.RefreshNeverStuck | lib/awsauth/awsauth.go:261-287 | in every reachable state, a refresh past its mint that has not ended can move, or waits for a mutex whose holder, a thread of the same source, can move |
| TokenRuns.TokensServedAreGood | lib/awsauth/awsauth.go:239-256 | a returned token was minted by STS, or was unexpired and for the right audience when read from the cache and is a whole minted token or the whole initial content, never a part of a write |
| TokenCalls.CallAsModelled | lib/awsauth/awsauth.go:239-287 | an unhindered call of the interleaved model returns, stores and refreshes as the sequential model says |
| TokenCalls.WriteStores | lib/awsauth/awsauth.go:333-358 | a write whose steps all succeed puts the whole token into the cache path in a 0600 file |
| TokenCalls.RefreshReplaces | lib/awsauth/awsauth.go:270-286 | an unhindered refresh replaces the cached token, clears the recorded error and the flag |
| TokenCalls.RefreshFails | lib/awsauth/awsauth.go:270-286 | a refresh that STS fails records the error, leaves the file alone and clears the flag |
| TokenCalls.StsAskedOnlyAfterMiss | lib/awsauth/awsauth.go:239-250 | in every run with caching on, a caller asks STS itself only after it found the cache file of no use |
| TokenCalls.FilesLeftAlone | lib/awsauth/awsauth.go:239-256 | in every run with caching off, a caller does nothing but ask STS and return what it got |
| TokenCalls.ServedFreshOrRefreshed | lib/awsauth/awsauth.go:239-268 | in every run, a served token was fresh enough when compared, or its caller had claimed a refresh |
| Exponent.EncodeExponent | internal/mockoidc/mockoidc.go:235-245 | 1 to 8 octets that decode to the number, without a leading zero octet unless the number is zero |
| Exponent.MinimalIsShortest | internal/mockoidc/mockoidc.go:235-245 | no encoding of the same number is shorter, as sections 2 and 6.3.1.2 of RFC 7518 require |
| Exponent.MinimalIsUnique | internal/mockoidc/mockoidc.go:235-245 | the minimal encoding is unique, so different exponents are encoded differently |

## Left out

- OIDC discovery, key fetching, signature checks, nkeys and JWT encoding: library code, represented by what it answers.
- The CEL compiler and evaluator: one verdict per expression and identity, where an error or a non-boolean counts as no match.
- YAML, JSON and base64 decoding: the model starts from decoded values.
- Regular-expression syntax beyond literals, escaped punctuation, `.`, `*`, `|`, groups and anchors: a `re:` pattern using flags, classes, `+`, `?` or counted repeats is reported as `Unsupported`.
- Invalid UTF-8: texts are sequences of characters.
- Go's matcher runs all threads at once and drops repeated states; the model searches by backtracking and lists such repeats, which come after the preferred match.
- NATS and TLS connections, flag parsing, logging, the metrics HTTP server and the warnings about settings that need a restart.
- `TokenSource.NATSOption`, `LastError` and the context timeouts: wiring around `Token`.
- `DefaultCachePath`: that distinct audiences have distinct files rests on a truncated hash.
- `lib/k8sauth`, the rest of `internal/mockoidc`, the chart, packaging and scripts.
- TokenSource.TokenSource.WriteCache: replaces the file in one step; the steps, with partial writes and crashes, are in `TokenRuns`.
- TokenSource.StsCallsApart: assumes, as its preconditions say, good tokens of a known minimum lifetime, successful writes and no other writer.
- RegexPin.RegexExact: speaks of bodies that are expressions by themselves; one that starts with `*`, or that ends in a backslash which escapes the closing `$`, is covered by `WholeMatchSound` only.
- RegexPin.RegexPinHolds: one direction, since the fields before the account may be left open in ways that still name it; the exact conditions proved are those for globs and for plain branches.
- TokenRuns.RefreshIsBounded: counts from the end of the mint, since the length of the token STS will send is not bounded.
