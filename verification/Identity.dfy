/**
 Verified identities and the flattening of a token's claims.

 Go iterates over a map in an unspecified order, so a run of the flattening is a relation:
 `Flattens` relates the claim map before and after one run, whatever order was taken.
 */
module Identity {
  import opened Wrappers
  import opened Text

  datatype Json =
    | Object(members: map<string, Json>)
    | Array(elements: seq<Json>)
    | String(text: string)
    | Number(literal: string)
    | Bool(value: bool)
    | Null

  /** `expiry` is in nanoseconds. */
  datatype Identity = Identity(
    issuer: string, subject: string, audience: seq<string>, expiry: int, claims: map<string, string>)

  const NAMESPACE := "https://sts.amazonaws.com/"
  const AWS_PREFIX := "aws"
  const RESERVED := {"iss", "sub", "aud", "exp", "nbf", "iat"}

  /** The text stored for a scalar; objects, arrays and null have none. */
  function ScalarText(v: Json): Option<string> {
    match v
    case String(text) => Some(text)
    case Number(literal) => Some(literal)
    case Bool(b) => Some(if b then "true" else "false")
    case _ => None
  }

  // ---------- The scalar leaves of a payload ----------

  /** The text of the scalar at the end of `path`, walking through objects only. */
  function LeafAt(v: Json, path: seq<string>): Option<string>
    decreases |path|
  {
    if path == [] then ScalarText(v)
    else if v.Object? && path[0] in v.members then LeafAt(v.members[path[0]], path[1..])
    else None
  }

  function Dotted(prefix: string, path: seq<string>): string
    decreases |path|
  {
    if path == [] then prefix else Dotted(prefix + "." + path[0], path[1..])
  }

  function Root(claim: string): string {
    if claim == NAMESPACE then AWS_PREFIX else claim
  }

  /** The leaf a whole payload has at `path`; reserved claims are not part of the payload here. */
  function ClaimAt(raw: map<string, Json>, path: seq<string>): Option<string> {
    if path != [] && path[0] in raw && path[0] !in RESERVED then LeafAt(raw[path[0]], path[1..]) else None
  }

  function ClaimKey(path: seq<string>): string
    requires path != []
  {
    Dotted(Root(path[0]), path[1..])
  }

  // ---------- Runs of the flattening ----------

  ghost predicate Flattens(prefix: string, v: Json, before: map<string, string>, after: map<string, string>)
    decreases v, 1, 0
  {
    match v
    case Object(_) => FlattensMembers(prefix, v, v.members.Keys, before, after)
    case _ => after == if ScalarText(v).Some? then before[prefix := ScalarText(v).value] else before
  }

  /** The members still to do are taken in any order. */
  ghost predicate FlattensMembers(
    prefix: string, v: Json, remaining: set<string>, before: map<string, string>, after: map<string, string>)
    requires v.Object? && remaining <= v.members.Keys
    decreases v, 0, |remaining|
  {
    if remaining == {} then after == before
    else exists k, mid :: k in remaining
                          && Flattens(prefix + "." + k, v.members[k], before, mid)
                          && FlattensMembers(prefix, v, remaining - {k}, mid, after)
  }

  ghost predicate FlattensClaim(k: string, v: Json, before: map<string, string>, after: map<string, string>) {
    if k in RESERVED then after == before else Flattens(Root(k), v, before, after)
  }

  ghost predicate ParsesFrom(
    raw: map<string, Json>, remaining: set<string>, before: map<string, string>, after: map<string, string>)
    requires remaining <= raw.Keys
    decreases |remaining|
  {
    if remaining == {} then after == before
    else exists k, mid :: k in remaining
                          && FlattensClaim(k, raw[k], before, mid)
                          && ParsesFrom(raw, remaining - {k}, mid, after)
  }

  /** Some order of taking the claims, at every level, produces `claims`. */
  ghost predicate Parses(raw: map<string, Json>, claims: map<string, string>) {
    ParsesFrom(raw, raw.Keys, map[], claims)
  }

  /** The output map shared by all levels of the recursion. */
  class ClaimMap {
    var entries: map<string, string>

    constructor ()
      ensures entries == map[]
    {
      entries := map[];
    }
  }

  method Flatten(prefix: string, v: Json, out: ClaimMap)
    modifies out
    ensures Flattens(prefix, v, old(out.entries), out.entries)
    decreases v
  {
    match v
    case Object(members) =>
      var remaining := members.Keys;
      while remaining != {}
        invariant remaining <= members.Keys
        invariant forall last :: FlattensMembers(prefix, v, remaining, out.entries, last) ==>
                                   FlattensMembers(prefix, v, members.Keys, old(out.entries), last)
        decreases |remaining|
      {
        var k :| k in remaining;
        Flatten(prefix + "." + k, members[k], out);
        remaining := remaining - {k};
      }
    case String(text) => out.entries := out.entries[prefix := text];
    case Number(literal) => out.entries := out.entries[prefix := literal];
    case Bool(b) => out.entries := out.entries[prefix := if b then "true" else "false"];
    case Array(_) =>
    case Null =>
  }

  /** Flattens the claims of a decoded payload; the verified fields are set by the verifier. */
  method Parse(raw: map<string, Json>) returns (id: Identity)
    ensures Parses(raw, id.claims)
    ensures id == Identity("", "", [], 0, id.claims)
  {
    var out := new ClaimMap();
    var remaining := raw.Keys;
    while remaining != {}
      invariant remaining <= raw.Keys
      invariant forall last :: ParsesFrom(raw, remaining, out.entries, last) ==> Parses(raw, last)
      decreases |remaining|
    {
      var k :| k in remaining;
      if k !in RESERVED {
        var prefix := k;
        if k == NAMESPACE {
          prefix := AWS_PREFIX;
        }
        Flatten(prefix, raw[k], out);
      }
      remaining := remaining - {k};
    }
    id := Identity("", "", [], 0, out.entries);
  }

  // ---------- What every run writes ----------

  /** `text` is the text of a leaf of `v` whose dotted name is `key`. */
  ghost predicate Written(prefix: string, v: Json, key: string, text: string) {
    exists path :: LeafAt(v, path) == Some(text) && Dotted(prefix, path) == key
  }

  ghost predicate MemberWritten(prefix: string, v: Json, names: set<string>, key: string, text: string) {
    exists path :: path != [] && path[0] in names && LeafAt(v, path) == Some(text) && Dotted(prefix, path) == key
  }

  ghost predicate ClaimWritten(raw: map<string, Json>, names: set<string>, key: string, text: string) {
    exists path :: path != [] && path[0] in names && ClaimAt(raw, path) == Some(text) && ClaimKey(path) == key
  }

  /** A key some leaf has gets the text of such a leaf; any other key keeps what it had. */
  lemma {:induction false} FlattensEffect(
    prefix: string, v: Json, before: map<string, string>, after: map<string, string>, key: string)
    requires Flattens(prefix, v, before, after)
    ensures (exists text :: Written(prefix, v, key, text)) ==> key in after && Written(prefix, v, key, after[key])
    ensures !(exists text :: Written(prefix, v, key, text)) ==>
              (key in after <==> key in before) && (key in before ==> after[key] == before[key])
    decreases v, 1, 0
  {
    if v.Object? {
      MembersEffect(prefix, v, v.members.Keys, before, after, key);
      forall text ensures Written(prefix, v, key, text) <==> MemberWritten(prefix, v, v.members.Keys, key, text) {
        if path :| LeafAt(v, path) == Some(text) && Dotted(prefix, path) == key {
          assert path != [] && path[0] in v.members.Keys;
        }
      }
    } else {
      forall path | path != [] ensures LeafAt(v, path) == None {}
      if ScalarText(v).Some? {
        assert LeafAt(v, []) == Some(ScalarText(v).value) && Dotted(prefix, []) == prefix;
        assert Written(prefix, v, prefix, ScalarText(v).value);
      }
    }
  }

  lemma {:induction false} MembersEffect(
    prefix: string, v: Json, remaining: set<string>, before: map<string, string>, after: map<string, string>,
    key: string)
    requires v.Object? && remaining <= v.members.Keys && FlattensMembers(prefix, v, remaining, before, after)
    ensures (exists text :: MemberWritten(prefix, v, remaining, key, text)) ==>
              key in after && MemberWritten(prefix, v, remaining, key, after[key])
    ensures !(exists text :: MemberWritten(prefix, v, remaining, key, text)) ==>
              (key in after <==> key in before) && (key in before ==> after[key] == before[key])
    decreases v, 0, |remaining|
  {
    if remaining != {} {
      var k, mid :| k in remaining
                    && Flattens(prefix + "." + k, v.members[k], before, mid)
                    && FlattensMembers(prefix, v, remaining - {k}, mid, after);
      FlattensEffect(prefix + "." + k, v.members[k], before, mid, key);
      MembersEffect(prefix, v, remaining - {k}, mid, after, key);
      forall text ensures MemberWritten(prefix, v, remaining, key, text) <==>
                            Written(prefix + "." + k, v.members[k], key, text) ||
                            MemberWritten(prefix, v, remaining - {k}, key, text) {
        SplitWritten(prefix, v, remaining, k, key, text);
      }
    }
  }

  lemma SplitWritten(prefix: string, v: Json, remaining: set<string>, k: string, key: string, text: string)
    requires v.Object? && remaining <= v.members.Keys && k in remaining
    ensures MemberWritten(prefix, v, remaining, key, text) <==>
              Written(prefix + "." + k, v.members[k], key, text) || MemberWritten(prefix, v, remaining - {k}, key, text)
  {
    if path :| path != [] && path[0] in remaining && LeafAt(v, path) == Some(text) && Dotted(prefix, path) == key {
      if path[0] == k {
        assert LeafAt(v.members[k], path[1..]) == Some(text) && Dotted(prefix + "." + k, path[1..]) == key;
      } else {
        assert path[0] in remaining - {k};
      }
    }
    if tail :| LeafAt(v.members[k], tail) == Some(text) && Dotted(prefix + "." + k, tail) == key {
      var path := [k] + tail;
      assert path[1..] == tail;
      assert LeafAt(v, path) == Some(text) && Dotted(prefix, path) == key;
    }
  }

  lemma {:induction false} ClaimsEffect(
    raw: map<string, Json>, remaining: set<string>,
    before: map<string, string>, after: map<string, string>, key: string)
    requires remaining <= raw.Keys && ParsesFrom(raw, remaining, before, after)
    ensures (exists text :: ClaimWritten(raw, remaining, key, text)) ==>
              key in after && ClaimWritten(raw, remaining, key, after[key])
    ensures !(exists text :: ClaimWritten(raw, remaining, key, text)) ==>
              (key in after <==> key in before) && (key in before ==> after[key] == before[key])
    decreases |remaining|
  {
    if remaining != {} {
      var k, mid :| k in remaining && FlattensClaim(k, raw[k], before, mid)
                    && ParsesFrom(raw, remaining - {k}, mid, after);
      ClaimsEffect(raw, remaining - {k}, mid, after, key);
      if k !in RESERVED {
        FlattensEffect(Root(k), raw[k], before, mid, key);
      }
      forall text ensures ClaimWritten(raw, remaining, key, text) <==>
                            (k !in RESERVED && Written(Root(k), raw[k], key, text)) ||
                            ClaimWritten(raw, remaining - {k}, key, text) {
        SplitClaimWritten(raw, remaining, k, key, text);
      }
    }
  }

  lemma SplitClaimWritten(raw: map<string, Json>, remaining: set<string>, k: string, key: string, text: string)
    requires remaining <= raw.Keys && k in remaining
    ensures ClaimWritten(raw, remaining, key, text) <==>
              (k !in RESERVED && Written(Root(k), raw[k], key, text)) || ClaimWritten(raw, remaining - {k}, key, text)
  {
    if path :| path != [] && path[0] in remaining && ClaimAt(raw, path) == Some(text) && ClaimKey(path) == key {
      if path[0] == k {
        assert LeafAt(raw[k], path[1..]) == Some(text) && Dotted(Root(k), path[1..]) == key;
      } else {
        assert path[0] in remaining - {k};
      }
    }
    if k !in RESERVED {
      if tail :| LeafAt(raw[k], tail) == Some(text) && Dotted(Root(k), tail) == key {
        var path := [k] + tail;
        assert path[1..] == tail;
        assert ClaimAt(raw, path) == Some(text) && ClaimKey(path) == key;
      }
    }
  }

  /**
   Provenance, for every payload and every order, collisions included: a name is present exactly
   when some leaf has it, and its value is the text of such a leaf.
   */
  lemma {:induction false} ClaimsComeFromLeaves(raw: map<string, Json>, claims: map<string, string>, key: string)
    requires Parses(raw, claims)
    ensures key in claims <==> exists path :: path != [] && ClaimAt(raw, path).Some? && ClaimKey(path) == key
    ensures key in claims ==>
              exists path :: path != [] && ClaimAt(raw, path) == Some(claims[key]) && ClaimKey(path) == key
  {
    ClaimsEffect(raw, raw.Keys, map[], claims, key);
    if path :| path != [] && ClaimAt(raw, path).Some? && ClaimKey(path) == key {
      assert ClaimWritten(raw, raw.Keys, key, ClaimAt(raw, path).value);
    }
    if key in claims {
      assert ClaimWritten(raw, raw.Keys, key, claims[key]);
    }
  }

  // ---------- Independence of the order ----------

  /** Two leaves share a name but not a text. */
  ghost predicate Ambiguous(raw: map<string, Json>) {
    exists p, q :: p != [] && q != [] && ClaimAt(raw, p).Some? && ClaimAt(raw, q).Some?
                   && ClaimKey(p) == ClaimKey(q) && ClaimAt(raw, p) != ClaimAt(raw, q)
  }

  /** `claims` maps the names of the leaves to their texts, and nothing else. */
  ghost predicate IsPathMap(raw: map<string, Json>, claims: map<string, string>) {
    && (forall path | path != [] && ClaimAt(raw, path).Some? ::
          ClaimKey(path) in claims && claims[ClaimKey(path)] == ClaimAt(raw, path).value)
    && (forall key | key in claims ::
          exists path :: path != [] && ClaimAt(raw, path).Some? && ClaimKey(path) == key)
  }

  lemma {:induction false} UnambiguousPathMap(raw: map<string, Json>, claims: map<string, string>)
    requires Parses(raw, claims) && !Ambiguous(raw)
    ensures IsPathMap(raw, claims)
  {
    forall path | path != [] && ClaimAt(raw, path).Some?
      ensures ClaimKey(path) in claims && claims[ClaimKey(path)] == ClaimAt(raw, path).value
    {
      var key := ClaimKey(path);
      ClaimsComeFromLeaves(raw, claims, key);
      var other :| other != [] && ClaimAt(raw, other) == Some(claims[key]) && ClaimKey(other) == key;
    }
    forall key | key in claims
      ensures exists path :: path != [] && ClaimAt(raw, path).Some? && ClaimKey(path) == key
    {
      ClaimsComeFromLeaves(raw, claims, key);
    }
  }

  lemma PathMapUnique(raw: map<string, Json>, a: map<string, string>, b: map<string, string>)
    requires IsPathMap(raw, a) && IsPathMap(raw, b)
    ensures a == b
  {
    forall key ensures key in a <==> key in b {}
    forall key | key in a ensures a[key] == b[key] {
      var path :| path != [] && ClaimAt(raw, path).Some? && ClaimKey(path) == key;
    }
  }

  /** A run exists from every start. */
  lemma {:induction false} FlattensSomehow(prefix: string, v: Json, before: map<string, string>)
    returns (after: map<string, string>)
    ensures Flattens(prefix, v, before, after)
    decreases v, 1, 0
  {
    if v.Object? {
      after := MembersSomehow(prefix, v, v.members.Keys, before);
    } else {
      after := if ScalarText(v).Some? then before[prefix := ScalarText(v).value] else before;
    }
  }

  lemma {:induction false} MembersSomehow(prefix: string, v: Json, remaining: set<string>, before: map<string, string>)
    returns (after: map<string, string>)
    requires v.Object? && remaining <= v.members.Keys
    ensures FlattensMembers(prefix, v, remaining, before, after)
    decreases v, 0, |remaining|
  {
    after := before;
    if remaining != {} {
      var k :| k in remaining;
      var mid := FlattensSomehow(prefix + "." + k, v.members[k], before);
      after := MembersSomehow(prefix, v, remaining - {k}, mid);
    }
  }

  lemma {:induction false} ParsesSomehow(raw: map<string, Json>) returns (claims: map<string, string>)
    ensures Parses(raw, claims)
  {
    claims := ClaimsSomehow(raw, raw.Keys, map[]);
  }

  lemma {:induction false} ClaimsSomehow(raw: map<string, Json>, remaining: set<string>, before: map<string, string>)
    returns (after: map<string, string>)
    requires remaining <= raw.Keys
    ensures ParsesFrom(raw, remaining, before, after)
    decreases |remaining|
  {
    after := before;
    if remaining != {} {
      var k :| k in remaining;
      var mid := before;
      if k !in RESERVED {
        mid := FlattensSomehow(Root(k), raw[k], before);
      }
      assert FlattensClaim(k, raw[k], before, mid);
      after := ClaimsSomehow(raw, remaining - {k}, mid);
    }
  }

  /** Any leaf can be the last one written: every order is possible at every level. */
  lemma {:induction false} FlattensLast(prefix: string, v: Json, path: seq<string>, before: map<string, string>)
    returns (after: map<string, string>)
    requires LeafAt(v, path).Some?
    ensures Flattens(prefix, v, before, after)
    ensures Dotted(prefix, path) in after && after[Dotted(prefix, path)] == LeafAt(v, path).value
    decreases v, 1, 0
  {
    if v.Object? {
      after := MembersLast(prefix, v, v.members.Keys, path, before);
    } else {
      after := before[prefix := ScalarText(v).value];
    }
  }

  lemma {:induction false} MembersLast(
    prefix: string, v: Json, remaining: set<string>, path: seq<string>, before: map<string, string>)
    returns (after: map<string, string>)
    requires v.Object? && remaining <= v.members.Keys
    requires path != [] && path[0] in remaining && LeafAt(v, path).Some?
    ensures FlattensMembers(prefix, v, remaining, before, after)
    ensures Dotted(prefix, path) in after && after[Dotted(prefix, path)] == LeafAt(v, path).value
    decreases v, 0, |remaining|
  {
    var k := path[0];
    if remaining == {k} {
      after := FlattensLast(prefix + "." + k, v.members[k], path[1..], before);
      assert FlattensMembers(prefix, v, remaining - {k}, after, after);
    } else {
      assert remaining == (remaining - {k}) + {k};
      var other :| other in remaining - {k};
      var mid := FlattensSomehow(prefix + "." + other, v.members[other], before);
      after := MembersLast(prefix, v, remaining - {other}, path, mid);
    }
  }

  lemma {:induction false} ClaimsLast(
    raw: map<string, Json>, remaining: set<string>, path: seq<string>, before: map<string, string>)
    returns (after: map<string, string>)
    requires remaining <= raw.Keys && path != [] && path[0] in remaining && ClaimAt(raw, path).Some?
    ensures ParsesFrom(raw, remaining, before, after)
    ensures ClaimKey(path) in after && after[ClaimKey(path)] == ClaimAt(raw, path).value
    decreases |remaining|
  {
    var k := path[0];
    if remaining == {k} {
      after := FlattensLast(Root(k), raw[k], path[1..], before);
      assert FlattensClaim(k, raw[k], before, after);
      assert ParsesFrom(raw, remaining - {k}, after, after);
    } else {
      assert remaining == (remaining - {k}) + {k};
      var other :| other in remaining - {k};
      var mid := before;
      if other !in RESERVED {
        mid := FlattensSomehow(Root(other), raw[other], before);
      }
      assert FlattensClaim(other, raw[other], before, mid);
      after := ClaimsLast(raw, remaining - {other}, path, mid);
    }
  }

  /**
   The claims do not depend on the iteration order exactly when no two leaves share a name with
   different texts; then they are the map from names to texts.
   */
  lemma {:induction false} OrderIndependence(raw: map<string, Json>)
    ensures (forall a, b | Parses(raw, a) && Parses(raw, b) :: a == b) <==> !Ambiguous(raw)
    ensures !Ambiguous(raw) ==> forall claims | Parses(raw, claims) :: IsPathMap(raw, claims)
  {
    if Ambiguous(raw) {
      var p, q :| p != [] && q != [] && ClaimAt(raw, p).Some? && ClaimAt(raw, q).Some?
                  && ClaimKey(p) == ClaimKey(q) && ClaimAt(raw, p) != ClaimAt(raw, q);
      var a := ClaimsLast(raw, raw.Keys, p, map[]);
      var b := ClaimsLast(raw, raw.Keys, q, map[]);
      assert Parses(raw, a) && Parses(raw, b) && a != b;
    } else {
      forall claims | Parses(raw, claims) ensures IsPathMap(raw, claims) {
        UnambiguousPathMap(raw, claims);
      }
      forall a, b | Parses(raw, a) && Parses(raw, b) ensures a == b {
        PathMapUnique(raw, a, b);
      }
    }
  }

  // ---------- A sufficient condition: names without dots ----------

  ghost predicate DotFreeNames(v: Json) {
    match v
    case Object(members) => forall k | k in members :: '.' !in k && DotFreeNames(members[k])
    case _ => true
  }

  /** Every object key is dot-free, the AWS namespace aside, and no claim `aws` stands beside that namespace. */
  ghost predicate PlainNames(raw: map<string, Json>) {
    && (forall k | k in raw && k !in RESERVED :: (k == NAMESPACE || '.' !in k) && DotFreeNames(raw[k]))
    && !(NAMESPACE in raw && AWS_PREFIX in raw)
  }

  lemma {:induction false} DottedIsJoin(prefix: string, path: seq<string>)
    ensures Dotted(prefix, path) == Join([prefix] + path, '.')
    decreases |path|
  {
    var parts := [prefix] + path;
    if path != [] {
      var longer := prefix + "." + path[0];
      DottedIsJoin(longer, path[1..]);
      var shorter := [longer] + path[1..];
      assert parts[1..] == path && path == [path[0]] + path[1..];
      assert shorter[1..] == path[1..];
      assert "." == ['.'];
    }
  }

  lemma {:induction false} LeafPathDotFree(v: Json, path: seq<string>)
    requires DotFreeNames(v) && LeafAt(v, path).Some?
    ensures forall name | name in path :: '.' !in name
    decreases |path|
  {
    if path != [] {
      LeafPathDotFree(v.members[path[0]], path[1..]);
      assert path == [path[0]] + path[1..];
    }
  }

  /** Joining dot-free names with dots loses nothing: splitting gives the names back. */
  lemma {:induction false} ClaimKeySplits(raw: map<string, Json>, path: seq<string>)
    requires PlainNames(raw) && path != [] && ClaimAt(raw, path).Some?
    ensures Split(ClaimKey(path), '.') == [Root(path[0])] + path[1..]
  {
    LeafPathDotFree(raw[path[0]], path[1..]);
    DottedIsJoin(Root(path[0]), path[1..]);
    SplitOfJoin([Root(path[0])] + path[1..], '.');
  }

  lemma {:induction false} PlainNamesUnambiguous(raw: map<string, Json>)
    requires PlainNames(raw)
    ensures !Ambiguous(raw)
  {
    forall p, q | p != [] && q != [] && ClaimAt(raw, p).Some? && ClaimAt(raw, q).Some? && ClaimKey(p) == ClaimKey(q)
      ensures ClaimAt(raw, p) == ClaimAt(raw, q)
    {
      ClaimKeySplits(raw, p);
      ClaimKeySplits(raw, q);
      assert ([Root(p[0])] + p[1..])[0] == ([Root(q[0])] + q[1..])[0];
      assert ([Root(p[0])] + p[1..])[1..] == p[1..] && ([Root(q[0])] + q[1..])[1..] == q[1..];
      assert p == [p[0]] + p[1..] && q == [q[0]] + q[1..];
    }
  }

  // ---------- Names that can and cannot appear ----------

  lemma {:induction false} DottedExtends(prefix: string, path: seq<string>)
    ensures prefix <= Dotted(prefix, path)
    ensures path != [] ==> prefix + "." <= Dotted(prefix, path)
    decreases |path|
  {
    if path != [] {
      DottedExtends(prefix + "." + path[0], path[1..]);
    }
  }

  /** No output name is a registered claim. */
  lemma {:induction false} NoReservedName(raw: map<string, Json>, claims: map<string, string>)
    requires Parses(raw, claims)
    ensures forall key | key in claims :: key !in RESERVED
  {
    forall key | key in claims ensures key !in RESERVED {
      ClaimsComeFromLeaves(raw, claims, key);
      var path :| path != [] && ClaimAt(raw, path).Some? && ClaimKey(path) == key;
      DottedExtends(Root(path[0]), path[1..]);
      if path[1..] != [] {
        assert key[|Root(path[0])|] == '.';
        assert forall name | name in RESERVED :: '.' !in name;
      }
    }
  }

  /** A name under `aws.` comes from the AWS namespace, or from a claim itself called `aws` or `aws.…`. */
  lemma {:induction false} AwsNameOrigin(raw: map<string, Json>, claims: map<string, string>, key: string)
    requires Parses(raw, claims) && key in claims && AWS_PREFIX + "." <= key
    ensures exists path :: path != [] && ClaimAt(raw, path) == Some(claims[key]) && ClaimKey(path) == key
                           && ((path[0] == NAMESPACE && |path| > 1)
                               || path[0] == AWS_PREFIX || AWS_PREFIX + "." <= path[0])
  {
    ClaimsComeFromLeaves(raw, claims, key);
    var path :| path != [] && ClaimAt(raw, path) == Some(claims[key]) && ClaimKey(path) == key;
    var root := Root(path[0]);
    DottedExtends(root, path[1..]);
    var aws := AWS_PREFIX + ".";
    assert aws[0] == 'a' && aws[1] == 'w' && aws[2] == 's' && aws[3] == '.';
    assert key[0] == 'a' && key[1] == 'w' && key[2] == 's' && key[3] == '.';
    if |root| >= 4 {
      assert root[..4] == key[..4] == aws;
    } else {
      assert path[1..] != [];
      assert key[|root|] == '.';
      assert |root| == 3;
      assert root == key[..3] == AWS_PREFIX;
    }
  }

  /** The payload with every array replaced by null. */
  function WithoutArrays(v: Json): Json {
    match v
    case Object(members) => Object(map k | k in members :: WithoutArrays(members[k]))
    case Array(_) => Null
    case _ => v
  }

  function PayloadWithoutArrays(raw: map<string, Json>): (pruned: map<string, Json>)
    ensures pruned.Keys == raw.Keys
  {
    map k | k in raw :: WithoutArrays(raw[k])
  }

  lemma {:induction false} FlattensIgnoresArrays(
    prefix: string, v: Json, before: map<string, string>, after: map<string, string>)
    ensures Flattens(prefix, WithoutArrays(v), before, after) <==> Flattens(prefix, v, before, after)
    decreases v, 1, 0
  {
    if v.Object? {
      assert WithoutArrays(v).members.Keys == v.members.Keys;
      MembersIgnoreArrays(prefix, v, v.members.Keys, before, after);
    }
  }

  lemma {:induction false} MembersIgnoreArrays(
    prefix: string, v: Json, remaining: set<string>, before: map<string, string>, after: map<string, string>)
    requires v.Object? && remaining <= v.members.Keys
    ensures WithoutArrays(v).members.Keys == v.members.Keys
    ensures FlattensMembers(prefix, WithoutArrays(v), remaining, before, after) <==>
              FlattensMembers(prefix, v, remaining, before, after)
    decreases v, 0, |remaining|
  {
    var pruned := WithoutArrays(v);
    assert pruned.members.Keys == v.members.Keys;
    forall k, mid | k in remaining
      ensures Flattens(prefix + "." + k, pruned.members[k], before, mid) <==>
                Flattens(prefix + "." + k, v.members[k], before, mid)
      ensures FlattensMembers(prefix, pruned, remaining - {k}, mid, after) <==>
                FlattensMembers(prefix, v, remaining - {k}, mid, after)
    {
      FlattensIgnoresArrays(prefix + "." + k, v.members[k], before, mid);
      MembersIgnoreArrays(prefix, v, remaining - {k}, mid, after);
    }
  }

  lemma {:induction false} ClaimsIgnoreArrays(
    raw: map<string, Json>, remaining: set<string>, before: map<string, string>, after: map<string, string>)
    requires remaining <= raw.Keys
    ensures ParsesFrom(PayloadWithoutArrays(raw), remaining, before, after) <==>
              ParsesFrom(raw, remaining, before, after)
    decreases |remaining|
  {
    var pruned := PayloadWithoutArrays(raw);
    forall k, mid | k in remaining
      ensures FlattensClaim(k, pruned[k], before, mid) <==> FlattensClaim(k, raw[k], before, mid)
      ensures ParsesFrom(pruned, remaining - {k}, mid, after) <==> ParsesFrom(raw, remaining - {k}, mid, after)
    {
      FlattensIgnoresArrays(Root(k), raw[k], before, mid);
      ClaimsIgnoreArrays(raw, remaining - {k}, mid, after);
    }
  }

  /** Nothing inside an array contributes: the runs are those of the payload with arrays set to null. */
  lemma ArraysDoNotContribute(raw: map<string, Json>, claims: map<string, string>)
    ensures Parses(PayloadWithoutArrays(raw), claims) <==> Parses(raw, claims)
  {
    ClaimsIgnoreArrays(raw, raw.Keys, map[], claims);
  }

  // ---------- What the claims say about the payload's own values ----------

  /** The value at the end of `path`, walking through objects. */
  function NodeAt(v: Json, path: seq<string>): Option<Json>
    decreases |path|
  {
    if path == [] then Some(v)
    else if v.Object? && path[0] in v.members then NodeAt(v.members[path[0]], path[1..])
    else None
  }

  lemma {:induction false} LeafIsScalarNode(v: Json, path: seq<string>)
    ensures LeafAt(v, path) == if NodeAt(v, path).Some? then ScalarText(NodeAt(v, path).value) else None
    decreases |path|
  {
    if path != [] && v.Object? && path[0] in v.members {
      LeafIsScalarNode(v.members[path[0]], path[1..]);
    }
  }

  /** The name under which a rule refers to the value at `path`. */
  function ClaimName(path: seq<string>): string
    requires path != []
  {
    Join([if path[0] == "https://sts.amazonaws.com/" then "aws" else path[0]] + path[1..], '.')
  }

  predicate Registered(claim: string) {
    claim == "iss" || claim == "sub" || claim == "aud" || claim == "exp" || claim == "nbf" || claim == "iat"
  }

  /** A claim the generic claim map is about: not one of the six registered ones. */
  predicate IsClaimPath(path: seq<string>) {
    path != [] && !Registered(path[0])
  }

  lemma ClaimOfNode(raw: map<string, Json>, path: seq<string>)
    requires IsClaimPath(path)
    ensures ClaimKey(path) == ClaimName(path)
    ensures ClaimAt(raw, path) ==
              if NodeAt(Object(raw), path).Some? then ScalarText(NodeAt(Object(raw), path).value) else None
  {
    DottedIsJoin(Root(path[0]), path[1..]);
    if path[0] in raw {
      LeafIsScalarNode(raw[path[0]], path[1..]);
      assert NodeAt(Object(raw), path) == NodeAt(raw[path[0]], path[1..]);
    }
  }

  /**
   What becomes of each value of an unambiguous payload: a string is stored as it is, a number as its
   literal, and a truth value as the word for it.
   */
  lemma {:induction false} ScalarsAreStored(raw: map<string, Json>, claims: map<string, string>, path: seq<string>)
    requires Parses(raw, claims) && !Ambiguous(raw)
    requires IsClaimPath(path) && NodeAt(Object(raw), path).Some?
    ensures var name, node := ClaimName(path), NodeAt(Object(raw), path).value;
            && (node.String? ==> name in claims && claims[name] == node.text)
            && (node.Number? ==> name in claims && claims[name] == node.literal)
            && (node == Bool(true) ==> name in claims && claims[name] == "true")
            && (node == Bool(false) ==> name in claims && claims[name] == "false")
  {
    ClaimOfNode(raw, path);
    UnambiguousPathMap(raw, claims);
  }

  /** Nothing else is stored, for any payload: each name is that of a string, a number or a truth value. */
  lemma {:induction false} OnlyScalarsAreStored(raw: map<string, Json>, claims: map<string, string>, key: string)
    requires Parses(raw, claims)
    ensures key in claims <==>
              exists path :: IsClaimPath(path) && ClaimName(path) == key && NodeAt(Object(raw), path).Some?
                             && var node := NodeAt(Object(raw), path).value; node.String? || node.Number? || node.Bool?
  {
    ClaimsComeFromLeaves(raw, claims, key);
    if key in claims {
      var path :| path != [] && ClaimAt(raw, path).Some? && ClaimKey(path) == key;
      ClaimOfNode(raw, path);
    }
    if path :| IsClaimPath(path) && ClaimName(path) == key && NodeAt(Object(raw), path).Some?
               && var node := NodeAt(Object(raw), path).value; node.String? || node.Number? || node.Bool? {
      ClaimOfNode(raw, path);
    }
  }
}
