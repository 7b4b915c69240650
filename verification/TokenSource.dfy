/**
 The AWS token source: minting tokens and serving them from a cache file. Here one caller runs
 at a time and a background refresh has ended before the next call; `TokenRuns` has the
 interleavings. STS, the clock and JWT decoding are given by the environment.

 Times are in nanoseconds.
 */
module TokenSource {
  import opened Wrappers
  import opened Text

  const SECOND := 1_000_000_000
  const DEFAULT_DURATION := 300 * SECOND
  const DEFAULT_REFRESH_BEFORE := 10 * SECOND
  const MIN_DURATION := 60 * SECOND
  const MAX_DURATION := 3600 * SECOND
  const MAX_AUDIENCE_LEN := 1000

  datatype Config = Config(
    audience: string, signingAlgorithm: string, duration: int, cachePath: string, cacheRefreshBefore: int)

  datatype ConfigError =
    | NoAudience | AudienceTooLong | BadAlgorithm | DurationOutOfRange | DurationNotWhole | NegativeRefresh

  /** The settings of a source, with the defaults filled in. */
  datatype Source = Source(
    audience: string, signingAlgorithm: string, duration: int, cachePath: string, refreshBefore: int)

  datatype MintError = StsFailed | EmptyToken

  /** What STS answers: an error, or a token that may be missing. */
  datatype StsReply = StsError | StsToken(token: string)

  /** A JSON `aud` claim. */
  datatype AudClaim =
    | AudMissing | AudNull | AudString(text: string)
    | AudArray(elements: seq<Option<string>>, others: bool) | AudOther

  /** The claims of a JWT payload; `exp` is 0 when absent. */
  datatype JwtClaims = JwtClaims(exp: int, aud: AudClaim)

  /** Decodes the middle segment of a token. */
  type Decoder = string -> Option<JwtClaims>

  // ---------- Configuration ----------

  function Check(cfg: Config): Option<ConfigError> {
    if cfg.audience == "" then Some(NoAudience)
    else if Utf8Length(cfg.audience) > MAX_AUDIENCE_LEN then Some(AudienceTooLong)
    else if cfg.signingAlgorithm !in {"", "RS256", "ES384"} then Some(BadAlgorithm)
    else if cfg.duration != 0 && !(MIN_DURATION <= cfg.duration <= MAX_DURATION) then Some(DurationOutOfRange)
    else if cfg.duration % SECOND != 0 then Some(DurationNotWhole)
    else if cfg.cacheRefreshBefore < 0 then Some(NegativeRefresh)
    else None
  }

  function NewSource(cfg: Config): Result<Source, ConfigError> {
    if Check(cfg).Some? then Failure(Check(cfg).value)
    else Success(Source(
                   cfg.audience,
                   if cfg.signingAlgorithm == "" then "RS256" else cfg.signingAlgorithm,
                   if cfg.duration == 0 then DEFAULT_DURATION else cfg.duration,
                   cfg.cachePath,
                   if cfg.cacheRefreshBefore == 0 then DEFAULT_REFRESH_BEFORE else cfg.cacheRefreshBefore))
  }

  /** The lifetime requested from STS, in whole seconds. */
  function RequestedSeconds(source: Source): int {
    source.duration / SECOND
  }

  /**
   Which configurations are accepted; and an accepted source asks STS for exactly its duration,
   within the window STS serves, and refreshes ahead of expiry.
   */
  lemma SourceIsUsable(cfg: Config)
    ensures NewSource(cfg).Success? <==>
              && 1 <= Utf8Length(cfg.audience) <= 1000
              && cfg.signingAlgorithm in {"", "RS256", "ES384"}
              && (cfg.duration == 0 ||
                  exists seconds :: 60 <= seconds <= 3600 && cfg.duration == seconds * 1_000_000_000)
              && cfg.cacheRefreshBefore >= 0
    ensures NewSource(cfg).Success? ==>
              var source := NewSource(cfg).value;
              && source.audience == cfg.audience && source.cachePath == cfg.cachePath
              && RequestedSeconds(source) * 1_000_000_000 == source.duration && 60 <= RequestedSeconds(source) <= 3600
              && source.signingAlgorithm == (if cfg.signingAlgorithm == "" then "RS256" else cfg.signingAlgorithm)
              && source.duration == (if cfg.duration == 0 then 300 * 1_000_000_000 else cfg.duration)
              && (cfg.cacheRefreshBefore == 0 ==> source.refreshBefore == 10 * 1_000_000_000)
              && source.refreshBefore > 0
              && (cfg.cacheRefreshBefore != 0 ==> source.refreshBefore == cfg.cacheRefreshBefore)
  {
    assert cfg.duration == (cfg.duration / SECOND) * SECOND + cfg.duration % SECOND;
    if NewSource(cfg).Success? {
      var d := NewSource(cfg).value.duration;
      assert d == (d / SECOND) * SECOND + d % SECOND;
    }
  }

  // ---------- Reading a token ----------

  predicate IsSpace(c: char) {
    || c in " \t\n\r"
    || c in ['\U{0B}', '\U{0C}', '\U{85}', '\U{A0}', '\U{1680}', '\U{2028}', '\U{2029}']
    || c in ['\U{202F}', '\U{205F}', '\U{3000}']
    || '\U{2000}' <= c <= '\U{200A}'
  }

  function TrimSpace(s: string): string {
    if s == "" then ""
    else if IsSpace(s[0]) then TrimSpace(s[1..])
    else if IsSpace(s[|s| - 1]) then TrimSpace(s[..|s| - 1])
    else s
  }

  /**
   The audiences of an `aud` claim. Decoding null into a string leaves it empty, and an array
   counts only when all its elements are strings or null.
   */
  function ParseAudience(aud: AudClaim): seq<string> {
    match aud
    case AudMissing => []
    case AudNull => [""]
    case AudString(text) => [text]
    case AudArray(elements, others) =>
      if others then []
      else seq(|elements|, i requires 0 <= i < |elements| => if elements[i].Some? then elements[i].value else "")
    case AudOther => []
  }

  /** Expiry and audiences of a token, unverified. */
  function ExpiryAudience(token: string, decode: Decoder): Option<(int, seq<string>)> {
    var parts := Split(token, '.');
    if |parts| != 3 then None
    else
      match decode(parts[1])
      case None => None
      case Some(claims) => if claims.exp == 0 then None else Some((claims.exp * SECOND, ParseAudience(claims.aud)))
  }

  /** The text is its middle with nothing but spaces around it. */
  ghost predicate Padded(s: string, front: string, middle: string, back: string) {
    && s == front + middle + back
    && (forall c | c in front :: IsSpace(c)) && (forall c | c in back :: IsSpace(c))
  }

  lemma PaddedInFront(s: string, front: string, middle: string, back: string)
    requires s != "" && IsSpace(s[0]) && Padded(s[1..], front, middle, back)
    ensures Padded(s, [s[0]] + front, middle, back)
  {
    ConcatAssoc([s[0]], front + middle, back);
    ConcatAssoc([s[0]], front, middle);
    assert s == [s[0]] + s[1..];
  }

  lemma PaddedBehind(s: string, front: string, middle: string, back: string)
    requires s != "" && IsSpace(s[|s| - 1]) && Padded(s[..|s| - 1], front, middle, back)
    ensures Padded(s, front, middle, back + [s[|s| - 1]])
  {
    ConcatAssoc(front + middle, back, [s[|s| - 1]]);
    assert s == s[..|s| - 1] + [s[|s| - 1]];
  }

  /** What trimming leaves: everything but the spaces around it. */
  lemma {:induction false} TrimSpaceMeans(s: string) returns (front: string, back: string)
    ensures Padded(s, front, TrimSpace(s), back)
    ensures TrimSpace(s) != "" ==> !IsSpace(TrimSpace(s)[0]) && !IsSpace(TrimSpace(s)[|TrimSpace(s)| - 1])
  {
    front, back := "", "";
    if s != "" {
      if IsSpace(s[0]) {
        front, back := TrimSpaceMeans(s[1..]);
        PaddedInFront(s, front, TrimSpace(s), back);
        front := [s[0]] + front;
      } else if IsSpace(s[|s| - 1]) {
        front, back := TrimSpaceMeans(s[..|s| - 1]);
        PaddedBehind(s, front, TrimSpace(s), back);
        back := back + [s[|s| - 1]];
      } else {
        assert "" + s + "" == s;
      }
    }
  }

  /**
   Section 4.1.3 of RFC 7519: a token is for an audience its `aud` names, as a string or among an
   array of strings.
   */
  ghost predicate NamesAudience(aud: AudClaim, audience: string) {
    || aud == AudString(audience)
    || (aud.AudArray? && !aud.others && exists i :: 0 <= i < |aud.elements| && aud.elements[i] == Some(audience))
  }

  /** For a source's audience, which is never empty, the reader agrees with RFC 7519. */
  lemma AudienceAsInRfc(aud: AudClaim, audience: string)
    requires audience != ""
    ensures audience in ParseAudience(aud) <==> NamesAudience(aud, audience)
  {
    if aud.AudArray? && !aud.others {
      var texts := ParseAudience(aud);
      if audience in texts {
        var i :| 0 <= i < |texts| && texts[i] == audience;
        assert aud.elements[i] == Some(audience);
      }
      if i :| 0 <= i < |aud.elements| && aud.elements[i] == Some(audience) {
        assert texts[i] == audience;
      }
    }
  }

  /** A cache hit carries the token and its expiry. */
  datatype Cached = Hit(token: string, exp: int) | Miss

  /** `readCache`: what the file content is worth at time `now`. */
  function ReadCache(source: Source, content: Option<string>, now: int, decode: Decoder): Cached {
    if content.None? then Miss
    else
      var token := TrimSpace(content.value);
      if token == "" then Miss
      else
        match ExpiryAudience(token, decode)
        case None => Miss
        case Some((exp, auds)) => if !(now < exp) || source.audience !in auds then Miss else Hit(token, exp)
  }

  /** A token as STS issues it for this source: trimmed, decodable, for the source's audience, expiring at `exp`. */
  predicate GoodToken(source: Source, token: string, exp: int, decode: Decoder) {
    && token != "" && TrimSpace(token) == token
    && ExpiryAudience(token, decode).Some?
    && ExpiryAudience(token, decode).value.0 == exp
    && source.audience in ExpiryAudience(token, decode).value.1
  }

  /** Whatever is served from the cache was unexpired and for the right audience when it was checked. */
  lemma HitIsValid(source: Source, content: Option<string>, now: int, decode: Decoder)
    requires ReadCache(source, content, now, decode).Hit?
    ensures var hit := ReadCache(source, content, now, decode);
            && now < hit.exp && content.Some? && hit.token == TrimSpace(content.value)
            && GoodToken(source, hit.token, hit.exp, decode)
  {
    TrimIdempotent(content.value);
  }

  /** A token of three dot-free segments whose middle one decodes to claims that expire, at this time. */
  ghost predicate IsJwt(token: string, decode: Decoder, aud: AudClaim, exp: int) {
    exists header, payload, signature, seconds ::
      && '.' !in header && '.' !in payload && '.' !in signature
      && token == header + ['.'] + payload + ['.'] + signature
      && decode(payload) == Some(JwtClaims(seconds, aud)) && seconds != 0 && exp == seconds * 1_000_000_000
  }

  lemma {:induction false} JwtIsRead(token: string, decode: Decoder, aud: AudClaim, exp: int)
    requires IsJwt(token, decode, aud, exp)
    ensures ExpiryAudience(token, decode) == Some((exp, ParseAudience(aud)))
  {
    var header, payload, signature, seconds :|
      && '.' !in header && '.' !in payload && '.' !in signature
      && token == header + ['.'] + payload + ['.'] + signature
      && decode(payload) == Some(JwtClaims(seconds, aud)) && seconds != 0 && exp == seconds * 1_000_000_000;
    SegmentsSplit(header, payload, signature);
  }

  lemma {:induction false} ReadIsJwt(token: string, decode: Decoder) returns (aud: AudClaim)
    requires ExpiryAudience(token, decode).Some?
    ensures IsJwt(token, decode, aud, ExpiryAudience(token, decode).value.0)
    ensures ExpiryAudience(token, decode).value.1 == ParseAudience(aud)
  {
    var header, payload, signature := ThreeSegments(token);
    aud := decode(payload).value.aud;
    JwtFrom(token, decode, header, payload, signature, decode(payload).value);
  }

  lemma JwtFrom(
    token: string, decode: Decoder, header: string, payload: string, signature: string, claims: JwtClaims)
    requires '.' !in header && '.' !in payload && '.' !in signature
    requires token == header + ['.'] + payload + ['.'] + signature
    requires decode(payload) == Some(claims) && claims.exp != 0
    ensures IsJwt(token, decode, claims.aud, claims.exp * 1_000_000_000)
  {
    assert claims == JwtClaims(claims.exp, claims.aud);
  }

  /**
   Exactly when the cache file is worth something: its text, trimmed, is a JWT for the source's
   audience whose expiry is still ahead; it is then served with that expiry. Anything else is a miss.
   */
  lemma {:induction false} HitExactly(
    source: Source, content: Option<string>, now: int, decode: Decoder, token: string, exp: int)
    requires source.audience != ""
    ensures ReadCache(source, content, now, decode) == Hit(token, exp) <==>
              && content.Some? && token == TrimSpace(content.value) && now < exp
              && exists aud :: IsJwt(token, decode, aud, exp) && NamesAudience(aud, source.audience)
  {
    if ReadCache(source, content, now, decode) == Hit(token, exp) {
      var aud := ReadIsJwt(token, decode);
      AudienceAsInRfc(aud, source.audience);
    }
    if content.Some? && token == TrimSpace(content.value) && now < exp {
      if aud :| IsJwt(token, decode, aud, exp) && NamesAudience(aud, source.audience) {
        JwtIsServed(source, content.value, now, decode, aud, exp);
      }
    }
  }

  lemma JwtIsServed(source: Source, content: string, now: int, decode: Decoder, aud: AudClaim, exp: int)
    requires source.audience != "" && now < exp
    requires IsJwt(TrimSpace(content), decode, aud, exp) && NamesAudience(aud, source.audience)
    ensures ReadCache(source, Some(content), now, decode) == Hit(TrimSpace(content), exp)
  {
    JwtIsRead(TrimSpace(content), decode, aud, exp);
    AudienceAsInRfc(aud, source.audience);
    JwtNotEmpty(TrimSpace(content), decode, aud, exp);
  }

  lemma JwtNotEmpty(token: string, decode: Decoder, aud: AudClaim, exp: int)
    requires IsJwt(token, decode, aud, exp)
    ensures token != ""
  {}

  lemma {:induction false} TrimIdempotent(s: string)
    ensures TrimSpace(TrimSpace(s)) == TrimSpace(s)
  {
    if s != "" {
      if IsSpace(s[0]) {
        TrimIdempotent(s[1..]);
      } else if IsSpace(s[|s| - 1]) {
        TrimIdempotent(s[..|s| - 1]);
      }
    }
  }

  function Minted(reply: StsReply): Result<string, MintError> {
    match reply
    case StsError => Failure(StsFailed)
    case StsToken(token) => if token == "" then Failure(EmptyToken) else Success(token)
  }

  // ---------- One call, sequentially ----------

  /**
   The surroundings of one call and of the background refresh it may start: when the cache is
   checked, when the remaining lifetime is looked at, and when and how STS and the disk respond.
   A call asks STS at most once, itself or in its refresh.
   */
  datatype Surroundings = Surroundings(checkedAt: int, comparedAt: int, stsAt: int, reply: StsReply, writable: bool)

  /** What a call of `Token` does by itself, and whether it starts a refresh. */
  datatype CallEffect = CallEffect(
    result: Result<string, MintError>, cache: Option<string>, stsCalls: seq<int>, refreshes: bool)

  /** What a call and the refresh it may start do together. */
  datatype Effect = Effect(result: Result<string, MintError>, cache: Option<string>, stsCalls: seq<int>)

  function Written(cache: Option<string>, minted: Result<string, MintError>, writable: bool): Option<string> {
    if minted.Success? && writable then Some(minted.value) else cache
  }

  /** One call of `Token`, up to its return. */
  function CallAlone(source: Source, cache: Option<string>, at: Surroundings, decode: Decoder): CallEffect {
    if source.cachePath == "" then CallEffect(Minted(at.reply), cache, [at.stsAt], false)
    else
      match ReadCache(source, cache, at.checkedAt, decode)
      case Hit(token, exp) => CallEffect(Success(token), cache, [], exp - at.comparedAt < source.refreshBefore)
      case Miss => CallEffect(Minted(at.reply), Written(cache, Minted(at.reply), at.writable), [at.stsAt], false)
  }

  /** Without a cache file every call asks STS once, and hands on what it answers. */
  lemma CachingOff(source: Source, cache: Option<string>, at: Surroundings, decode: Decoder)
    requires source.cachePath == ""
    ensures var call := CallAlone(source, cache, at, decode);
            && call.stsCalls == [at.stsAt] && call.cache == cache && !call.refreshes
            && (forall token :: call.result == Success(token) <==> at.reply == StsToken(token) && token != "")
  {}

  /** An empty token is never handed out, and an error of STS never passes for a token. */
  lemma {:induction false} NeverEmpty(source: Source, cache: Option<string>, at: Surroundings, decode: Decoder)
    ensures var call := CallAlone(source, cache, at, decode);
            && call.result != Success("")
            && (call.stsCalls != [] && at.reply == StsError ==>
                  call.result == Failure(StsFailed) && call.cache == cache)
            && (call.stsCalls != [] && at.reply == StsToken("") ==>
                  call.result == Failure(EmptyToken) && call.cache == cache)
  {}

  /** One call of `Token`, with the refresh it starts run to its end. */
  function TokenEffect(source: Source, cache: Option<string>, at: Surroundings, decode: Decoder): Effect {
    var call := CallAlone(source, cache, at, decode);
    if call.refreshes then Effect(call.result, Written(cache, Minted(at.reply), at.writable), [at.stsAt])
    else Effect(call.result, call.cache, call.stsCalls)
  }

  class TokenSource {
    const source: Source
    const decode: Decoder
    /** The file at the cache path. */
    var cache: Option<string>
    var refreshing: bool
    var lastErr: Option<MintError>
    ghost var stsCalls: seq<int>

    constructor (source: Source, decode: Decoder, cache: Option<string>)
      ensures this.source == source && this.decode == decode && this.cache == cache
      ensures !refreshing && lastErr == None && stsCalls == []
    {
      this.source := source;
      this.decode := decode;
      this.cache := cache;
      refreshing := false;
      lastErr := None;
      stsCalls := [];
    }

    method Mint(at: int, reply: StsReply) returns (r: Result<string, MintError>)
      modifies this`stsCalls
      ensures stsCalls == old(stsCalls) + [at] && r == Minted(reply)
    {
      stsCalls := stsCalls + [at];
      match reply
      case StsError => return Failure(StsFailed);
      case StsToken(token) =>
        if token == "" {
          return Failure(EmptyToken);
        }
        return Success(token);
    }

    /** Best effort: the file is replaced as a whole or stays. */
    method WriteCache(token: string, writable: bool)
      modifies this`cache
      ensures cache == if writable then Some(token) else old(cache)
    {
      if writable {
        cache := Some(token);
      }
    }

    method SetLastError(r: Result<string, MintError>)
      modifies this`lastErr
      ensures lastErr == if r.Failure? then Some(r.error) else None
    {
      lastErr := if r.Failure? then Some(r.error) else None;
    }

    /** Claims the refresh; nothing is started while one is outstanding. */
    method RefreshAsync() returns (started: bool)
      modifies this`refreshing
      ensures refreshing && started == !old(refreshing)
    {
      if refreshing {
        return false;
      }
      refreshing := true;
      return true;
    }

    /** The background refresh; the flag is cleared on every way out. */
    method Refresh(at: Surroundings)
      requires refreshing
      modifies this
      ensures !refreshing && stsCalls == old(stsCalls) + [at.stsAt]
      ensures cache == Written(old(cache), Minted(at.reply), at.writable)
      ensures lastErr == if Minted(at.reply).Failure? then Some(Minted(at.reply).error) else None
    {
      var r := Mint(at.stsAt, at.reply);
      SetLastError(r);
      if r.Failure? {
        refreshing := false;
        return;
      }
      WriteCache(r.value, at.writable);
      refreshing := false;
    }

    method Token(at: Surroundings) returns (r: Result<string, MintError>, started: bool)
      modifies this
      ensures var call := CallAlone(source, old(cache), at, decode);
              && r == call.result && cache == call.cache && stsCalls == old(stsCalls) + call.stsCalls
              && started == (call.refreshes && !old(refreshing))
              && refreshing == (call.refreshes || old(refreshing)) && lastErr == old(lastErr)
    {
      started := false;
      if source.cachePath != "" {
        var cached := ReadCache(source, cache, at.checkedAt, decode);
        if cached.Hit? {
          if cached.exp - at.comparedAt < source.refreshBefore {
            started := RefreshAsync();
          }
          r := Success(cached.token);
          return;
        }
      }
      r := Mint(at.stsAt, at.reply);
      if r.Failure? {
        return;
      }
      if source.cachePath != "" {
        WriteCache(r.value, at.writable);
      }
    }

    /** A call followed by the refresh it started, if any; while one is outstanding it starts none. */
    method TokenThenRefresh(at: Surroundings) returns (r: Result<string, MintError>)
      modifies this
      ensures refreshing == old(refreshing)
      ensures !old(refreshing) ==>
                var effect := TokenEffect(source, old(cache), at, decode);
                r == effect.result && cache == effect.cache && stsCalls == old(stsCalls) + effect.stsCalls
      ensures old(refreshing) ==>
                var call := CallAlone(source, old(cache), at, decode);
                r == call.result && cache == call.cache && stsCalls == old(stsCalls) + call.stsCalls
    {
      var started: bool;
      r, started := Token(at);
      if started {
        Refresh(at);
      }
    }
  }

  // ---------- The cache agrees with minting ----------

  function CacheAfter(source: Source, cache: Option<string>, calls: seq<Surroundings>, decode: Decoder): Option<string>
    decreases |calls|
  {
    if calls == [] then cache
    else CacheAfter(source, TokenEffect(source, cache, calls[0], decode).cache, calls[1..], decode)
  }

  function StsCalls(source: Source, cache: Option<string>, calls: seq<Surroundings>, decode: Decoder): seq<int>
    decreases |calls|
  {
    if calls == [] then []
    else
      var effect := TokenEffect(source, cache, calls[0], decode);
      effect.stsCalls + StsCalls(source, effect.cache, calls[1..], decode)
  }

  /** The call finds the token unexpired, and does not replace it: it starts no refresh, or one that fails. */
  predicate Keeps(source: Source, exp: int, at: Surroundings) {
    && at.checkedAt < exp
    && (exp - at.comparedAt >= source.refreshBefore || !at.writable || Minted(at.reply).Failure?)
  }

  /** The times at which the calls near the end of the token's life have it refreshed. */
  function RefreshTimes(source: Source, exp: int, calls: seq<Surroundings>): seq<int>
    decreases |calls|
  {
    if calls == [] then []
    else
      var rest := RefreshTimes(source, exp, calls[1..]);
      if exp - calls[0].comparedAt < source.refreshBefore then [calls[0].stsAt] + rest else rest
  }

  lemma KeepsToken(source: Source, token: string, exp: int, at: Surroundings, decode: Decoder)
    requires source.cachePath != "" && GoodToken(source, token, exp, decode) && Keeps(source, exp, at)
    ensures var effect := TokenEffect(source, Some(token), at, decode);
            && effect.cache == Some(token)
            && effect.stsCalls == if exp - at.comparedAt < source.refreshBefore then [at.stsAt] else []
  {}

  /** The cached token outlasts all calls that keep it, and STS is asked by their background refreshes only. */
  lemma {:induction false} TokenKept(source: Source, token: string, exp: int, calls: seq<Surroundings>, decode: Decoder)
    requires source.cachePath != "" && GoodToken(source, token, exp, decode)
    requires forall j | 0 <= j < |calls| :: Keeps(source, exp, calls[j])
    ensures CacheAfter(source, Some(token), calls, decode) == Some(token)
    ensures StsCalls(source, Some(token), calls, decode) == RefreshTimes(source, exp, calls)
    decreases |calls|
  {
    if calls != [] {
      KeepsToken(source, token, exp, calls[0], decode);
      TokenKept(source, token, exp, calls[1..], decode);
      StsCallsHead(source, Some(token), calls, decode);
    }
  }

  /**
   The cache agrees with minting: once a call has minted a good token and written it, every later
   call returns that same token without asking STS itself, in the refresh window too, until the
   token expires or a refresh replaces it; the first call after its expiry asks STS.
   */
  lemma {:induction false} MintedTokenServed(
    source: Source, cache: Option<string>, mint: Surroundings, token: string, exp: int,
    calls: seq<Surroundings>, i: nat, decode: Decoder)
    requires source.cachePath != "" && ReadCache(source, cache, mint.checkedAt, decode).Miss?
    requires mint.reply == StsToken(token) && mint.writable && GoodToken(source, token, exp, decode)
    requires i < |calls| && forall j | 0 <= j < i :: Keeps(source, exp, calls[j])
    ensures CallAlone(source, cache, mint, decode) == CallEffect(Success(token), Some(token), [mint.stsAt], false)
    ensures var found := CacheAfter(source, cache, [mint] + calls[..i], decode);
            var call := CallAlone(source, found, calls[i], decode);
            && found == Some(token)
            && (calls[i].checkedAt < exp ==>
                call.result == Success(token) && call.stsCalls == [] && call.cache == found)
            && (calls[i].checkedAt >= exp ==>
                call.result == Minted(calls[i].reply) && call.stsCalls == [calls[i].stsAt])
  {
    TokenKept(source, token, exp, calls[..i], decode);
    assert ([mint] + calls[..i])[1..] == calls[..i];
  }

  // ---------- How often STS is asked ----------

  /** Each call, with its refresh, happens after the one before; within a call the clock does not run backwards. */
  predicate Sequential(calls: seq<Surroundings>) {
    && (forall i | 0 <= i < |calls| :: calls[i].checkedAt <= calls[i].comparedAt <= calls[i].stsAt)
    && (forall i, j | 0 <= i < j < |calls| :: calls[i].stsAt <= calls[j].checkedAt)
  }

  /** STS answers with good tokens that live at least `lifetime`, and the cache can be written. */
  predicate WellServed(source: Source, calls: seq<Surroundings>, lifetime: int, decode: Decoder) {
    forall i | 0 <= i < |calls| :: ServedWell(source, calls[i], lifetime, decode)
  }

  predicate ServedWell(source: Source, at: Surroundings, lifetime: int, decode: Decoder) {
    && at.writable && at.reply.StsToken?
    && ExpiryAudience(at.reply.token, decode).Some?
    && GoodToken(source, at.reply.token, ExpiryAudience(at.reply.token, decode).value.0, decode)
    && ExpiryAudience(at.reply.token, decode).value.0 >= at.stsAt + lifetime
  }

  /** The cache holds a good token with life left until at least `asked + lifetime`. */
  predicate CachedSince(source: Source, cache: Option<string>, asked: int, lifetime: int, decode: Decoder) {
    && cache.Some? && ExpiryAudience(cache.value, decode).Some?
    && GoodToken(source, cache.value, ExpiryAudience(cache.value, decode).value.0, decode)
    && ExpiryAudience(cache.value, decode).value.0 >= asked + lifetime
  }

  /** A run that STS and the disk serve well, one call after the other. */
  predicate GoodRun(source: Source, calls: seq<Surroundings>, lifetime: int, decode: Decoder) {
    && source.cachePath != "" && source.refreshBefore > 0
    && Sequential(calls) && WellServed(source, calls, lifetime, decode)
  }

  lemma GoodRunTail(source: Source, calls: seq<Surroundings>, lifetime: int, decode: Decoder)
    requires GoodRun(source, calls, lifetime, decode) && calls != []
    ensures GoodRun(source, calls[1..], lifetime, decode)
    ensures ServedWell(source, calls[0], lifetime, decode)
    ensures calls[0].checkedAt <= calls[0].comparedAt <= calls[0].stsAt
  {}

  lemma StsCallsHead(source: Source, cache: Option<string>, calls: seq<Surroundings>, decode: Decoder)
    requires calls != []
    ensures var effect := TokenEffect(source, cache, calls[0], decode);
            var rest := StsCalls(source, effect.cache, calls[1..], decode);
            StsCalls(source, cache, calls, decode) == effect.stsCalls + rest
            && (effect.stsCalls == [] ==> StsCalls(source, cache, calls, decode) == rest)
  {
    var effect := TokenEffect(source, cache, calls[0], decode);
    var rest := StsCalls(source, effect.cache, calls[1..], decode);
    assert [] + rest == rest;
  }

  /** With a token cached since `asked`, a call asks STS late or leaves the cache alone. */
  lemma CallAfterMint(
    source: Source, cache: Option<string>, at: Surroundings, asked: int, lifetime: int, decode: Decoder)
    requires source.cachePath != "" && source.refreshBefore > 0 && CachedSince(source, cache, asked, lifetime, decode)
    requires at.checkedAt <= at.comparedAt <= at.stsAt
    ensures var effect := TokenEffect(source, cache, at, decode);
            if effect.stsCalls == [] then effect.cache == cache
            else effect.stsCalls == [at.stsAt] && at.stsAt - asked > lifetime - source.refreshBefore
  {}

  /** A call that asks STS leaves the token it got in the cache. */
  lemma MintIsCached(source: Source, cache: Option<string>, at: Surroundings, lifetime: int, decode: Decoder)
    requires source.cachePath != "" && ServedWell(source, at, lifetime, decode)
    ensures var effect := TokenEffect(source, cache, at, decode);
            effect.stsCalls != [] ==>
              effect.stsCalls == [at.stsAt] && CachedSince(source, effect.cache, at.stsAt, lifetime, decode)
  {}

  /** After STS was asked at `asked`, the next time is more than `lifetime - refreshBefore` later. */
  lemma {:induction false} NextStsCall(
    source: Source, cache: Option<string>, calls: seq<Surroundings>, asked: int, lifetime: int, decode: Decoder)
    requires GoodRun(source, calls, lifetime, decode) && CachedSince(source, cache, asked, lifetime, decode)
    ensures var log := StsCalls(source, cache, calls, decode);
            log != [] ==> log[0] - asked > lifetime - source.refreshBefore
    decreases |calls|
  {
    if calls != [] {
      GoodRunTail(source, calls, lifetime, decode);
      StsCallsHead(source, cache, calls, decode);
      CallAfterMint(source, cache, calls[0], asked, lifetime, decode);
      if TokenEffect(source, cache, calls[0], decode).stsCalls == [] {
        NextStsCall(source, cache, calls[1..], asked, lifetime, decode);
      }
    }
  }

  lemma ConsIndex(head: int, rest: seq<int>, k: nat)
    ensures k < |rest| ==>
              ([head] + rest)[k + 1] == rest[k] && ([head] + rest)[k] == if k == 0 then head else rest[k - 1]
  {}

  /** The rate bound: any two consecutive STS calls of a run are more than `lifetime - refreshBefore` apart. */
  lemma {:induction false} StsCallsApart(
    source: Source, cache: Option<string>, calls: seq<Surroundings>, lifetime: int, k: nat, decode: Decoder)
    requires GoodRun(source, calls, lifetime, decode)
    requires k + 1 < |StsCalls(source, cache, calls, decode)|
    ensures var log := StsCalls(source, cache, calls, decode);
            log[k + 1] - log[k] > lifetime - source.refreshBefore
    decreases |calls|
  {
    GoodRunTail(source, calls, lifetime, decode);
    StsCallsHead(source, cache, calls, decode);
    MintIsCached(source, cache, calls[0], lifetime, decode);
    var effect := TokenEffect(source, cache, calls[0], decode);
    var rest := StsCalls(source, effect.cache, calls[1..], decode);
    if effect.stsCalls == [] {
      StsCallsApart(source, effect.cache, calls[1..], lifetime, k, decode);
    } else {
      ConsIndex(calls[0].stsAt, rest, k);
      if k == 0 {
        NextStsCall(source, effect.cache, calls[1..], calls[0].stsAt, lifetime, decode);
      } else {
        StsCallsApart(source, effect.cache, calls[1..], lifetime, k - 1, decode);
      }
    }
  }

  ghost predicate Apart(log: seq<int>, k: nat, gap: int) {
    k + 1 < |log| ==> log[k + 1] - log[k] > gap
  }

  ghost predicate Spaced(log: seq<int>, gap: int) {
    forall k: nat :: Apart(log, k, gap)
  }

  lemma {:induction false} GapsAddUp(log: seq<int>, gap: int, i: nat, j: nat)
    requires i <= j < |log| && Spaced(log, gap)
    ensures log[j] - log[i] >= (j - i) * gap
    decreases j
  {
    if i < j {
      GapsAddUp(log, gap, i, j - 1);
      assert Apart(log, j - 1, gap);
      Distribute(j - i, gap);
    }
  }

  lemma Distribute(n: int, gap: int)
    ensures n * gap == (n - 1) * gap + gap
  {}

  lemma AtMostQuotient(n: nat, gap: int, window: nat)
    requires gap > 0 && n * gap <= window
    ensures n <= window / gap
  {
    var q, r := window / gap, window % gap;
    assert window == q * gap + r && r < gap;
    if n >= q + 1 {
      LargerProduct(q + 1, n, gap);
      Distribute(q + 1, gap);
    }
  }

  lemma LargerProduct(a: int, b: int, gap: int)
    requires a <= b && gap > 0
    ensures a * gap <= b * gap
  {}

  lemma AllApart(
    source: Source, cache: Option<string>, calls: seq<Surroundings>, lifetime: int, gap: int, decode: Decoder)
    requires GoodRun(source, calls, lifetime, decode) && gap == lifetime - source.refreshBefore
    ensures Spaced(StsCalls(source, cache, calls, decode), gap)
  {
    var log := StsCalls(source, cache, calls, decode);
    forall k: nat ensures Apart(log, k, gap) {
      if k + 1 < |log| {
        StsCallsApart(source, cache, calls, lifetime, k, decode);
      }
    }
  }

  lemma CallsInWindow(log: seq<int>, gap: int, i: nat, j: nat, window: nat)
    requires gap > 0 && i <= j < |log| && log[j] - log[i] <= window && Spaced(log, gap)
    ensures j - i + 1 <= 1 + window / gap
  {
    GapsAddUp(log, gap, i, j);
    AtMostQuotient(j - i, gap, window);
  }

  /** A window of length `window` holds at most `1 + window / (lifetime - refreshBefore)` STS calls. */
  lemma {:induction false} StsCallsInWindow(
    source: Source, cache: Option<string>, calls: seq<Surroundings>, lifetime: int,
    i: nat, j: nat, window: nat, decode: Decoder)
    requires GoodRun(source, calls, lifetime, decode) && lifetime > source.refreshBefore
    requires i <= j < |StsCalls(source, cache, calls, decode)|
    requires StsCalls(source, cache, calls, decode)[j] - StsCalls(source, cache, calls, decode)[i] <= window
    ensures j - i + 1 <= 1 + window / (lifetime - source.refreshBefore)
  {
    var gap := lifetime - source.refreshBefore;
    AllApart(source, cache, calls, lifetime, gap, decode);
    CallsInWindow(StsCalls(source, cache, calls, decode), gap, i, j, window);
  }
}
