/**
 Per-repository feature overrides: the codecs that validate a request body into the stored bytes,
 the rows, and the resolution of a row over the global settings. JSON, PEM and regular expressions
 are parameters.
 */
module Overrides {
  import opened Wrappers
  import opened Text

  type Body = string

  datatype Feature = Trivy | Gitleaks | Signing

  function FeatureNamed(name: string): Option<Feature> {
    if name == "trivy" then Some(Trivy) else if name == "gitleaks" then Some(Gitleaks)
    else if name == "signing" then Some(Signing) else None
  }

  function NameOf(feature: Feature): string {
    match feature case Trivy => "trivy" case Gitleaks => "gitleaks" case Signing => "signing"
  }

  const MAX_ANCHORS := 16

  datatype TrivyOverride = TrivyOverride(enabled: bool, ignoreFilePath: string, ignorePolicyPath: string)

  datatype GitleaksOverride = GitleaksOverride(enabled: bool, configPath: string)

  datatype Identity = Identity(identityRegexp: string, issuer: string)

  datatype SigningOverride = SigningOverride(enabled: bool, keys: seq<string>, identities: seq<Identity>,
                                             selfRead: string)

  /** The global rows. `rest` stands for the scan settings no override touches. */
  datatype ScanSettings = ScanSettings(enabled: bool, ignoreFilePath: string, ignorePolicyPath: string,
                                       configPath: string, rest: string)

  datatype SigningPolicy = SigningPolicy(enabled: bool, keys: seq<string>, identities: seq<Identity>,
                                         selfRead: string, updatedAt: int)

  /** One payload type's JSON: strict decoding of requests, lenient decoding of rows, encoding. */
  datatype Codec<!X> = Codec(strict: Body -> Option<X>, plain: Body -> Option<X>, encode: X -> Body)

  datatype Env = Env(validRepository: string -> bool, normalizeKey: string -> Option<string>,
                     validRegexp: string -> bool, cleanPath: string -> string,
                     trivy: Codec<TrivyOverride>, gitleaks: Codec<GitleaksOverride>, signing: Codec<SigningOverride>)

  /** What was encoded is read back as it was. */
  ghost predicate RoundTrips<X(!new)>(codec: Codec<X>) {
    forall x :: codec.plain(codec.encode(x)) == Some(x)
  }

  ghost predicate JsonWorks(env: Env) {
    RoundTrips(env.trivy) && RoundTrips(env.gitleaks) && RoundTrips(env.signing)
  }

  // ---------------------------------------------------------------- codecs

  datatype Problem =
    | InvalidRepository | UnknownFeature | NoOverride | StoreFailed | Unreadable | Malformed
    | DashedPath | RelativePath
    | TooManyKeys | BadKey(index: nat) | TooManyIdentities | BadRegexp(index: nat) | MissingIssuer(index: nat)
    | NoAnchor | BadSelfRead

  function NormalizePath(env: Env, raw: string): Result<string, Problem> {
    var trimmed := Trim(raw);
    if trimmed == "" then Success("")
    else if trimmed[0] == '-' then Failure(DashedPath)
    else if trimmed[0] != '/' then Failure(RelativePath)
    else Success(env.cleanPath(trimmed))
  }

  function NormalizeTrivy(env: Env, o: TrivyOverride): Result<TrivyOverride, Problem> {
    match NormalizePath(env, o.ignoreFilePath)
    case Failure(p) => Failure(p)
    case Success(file) =>
      match NormalizePath(env, o.ignorePolicyPath)
      case Failure(p) => Failure(p)
      case Success(policy) => Success(o.(ignoreFilePath := file, ignorePolicyPath := policy))
  }

  function NormalizeGitleaks(env: Env, o: GitleaksOverride): Result<GitleaksOverride, Problem> {
    match NormalizePath(env, o.configPath)
    case Failure(p) => Failure(p)
    case Success(path) => Success(o.(configPath := path))
  }

  /** Not set, or absolute: such a text can never be read as a flag. */
  predicate SafePath(path: string) { path == "" || path[0] == '/' }

  /** Cleaning an absolute path leaves it absolute. */
  ghost predicate CleaningKeepsRoot(env: Env) {
    forall path :: path != "" && path[0] == '/' ==> env.cleanPath(path) != "" && env.cleanPath(path)[0] == '/'
  }

  ghost function Cleaned(env: Env, raw: string): string {
    if Trim(raw) == "" then "" else env.cleanPath(Trim(raw))
  }

  /** A scan override is accepted exactly when its paths, trimmed, are unset or absolute; each keeps its place. */
  lemma ScanRequestsIff(env: Env, t: TrivyOverride, g: GitleaksOverride)
    ensures NormalizeTrivy(env, t).Success? <==> SafePath(Trim(t.ignoreFilePath)) && SafePath(Trim(t.ignorePolicyPath))
    ensures NormalizeTrivy(env, t).Success? ==>
      NormalizeTrivy(env, t).value
      == TrivyOverride(t.enabled, Cleaned(env, t.ignoreFilePath), Cleaned(env, t.ignorePolicyPath))
    ensures NormalizeGitleaks(env, g).Success? <==> SafePath(Trim(g.configPath))
    ensures NormalizeGitleaks(env, g).Success? ==>
      NormalizeGitleaks(env, g).value == GitleaksOverride(g.enabled, Cleaned(env, g.configPath))
    ensures NormalizeGitleaks(env, g) == Failure(DashedPath)
      <==> Trim(g.configPath) != "" && Trim(g.configPath)[0] == '-'
    ensures NormalizeGitleaks(env, g).Failure? ==> NormalizeGitleaks(env, g).error in {DashedPath, RelativePath}
    ensures !SafePath(Trim(t.ignoreFilePath)) || SafePath(Trim(t.ignorePolicyPath)) ==>
      NormalizeTrivy(env, t).Failure? ==>
        NormalizeTrivy(env, t).error == NormalizeGitleaks(env, GitleaksOverride(false, t.ignoreFilePath)).error
  {
  }

  predicate ValidSelfRead(value: string) {
    value == "" || value == "off" || value == "pusher" || value == "repo_push"
  }

  predicate IdentityOk(env: Env, id: Identity) {
    env.validRegexp(id.identityRegexp) && Trim(id.issuer) != ""
  }

  ghost predicate KeysOk(env: Env, keys: seq<string>) {
    forall i :: 0 <= i < |keys| ==> env.normalizeKey(keys[i]).Some?
  }

  /** Everything a stored signing row promises. */
  ghost predicate SigningRowOk(env: Env, o: SigningOverride) {
    && |o.keys| <= MAX_ANCHORS && |o.identities| <= MAX_ANCHORS
    && (o.enabled ==> o.keys != [] || o.identities != [])
    && (forall i :: 0 <= i < |o.identities| ==> IdentityOk(env, o.identities[i]))
    && (forall i :: 0 <= i < |o.keys| ==> exists raw :: env.normalizeKey(raw) == Some(o.keys[i]))
    && ValidSelfRead(o.selfRead)
  }

  /** The requests that are accepted. */
  ghost predicate SigningRequestOk(env: Env, o: SigningOverride) {
    && |o.keys| <= MAX_ANCHORS && KeysOk(env, o.keys) && |o.identities| <= MAX_ANCHORS
    && (forall i :: 0 <= i < |o.identities| ==> IdentityOk(env, o.identities[i]))
    && (o.enabled ==> o.keys != [] || o.identities != []) && ValidSelfRead(o.selfRead)
  }

  ghost function Canonical(env: Env, keys: seq<string>): seq<string>
    requires KeysOk(env, keys)
  {
    seq(|keys|, i requires 0 <= i < |keys| => env.normalizeKey(keys[i]).value)
  }

  /** The first key that cannot be normalized, or the length. */
  ghost function FirstBadKey(env: Env, keys: seq<string>): (n: nat)
    ensures n <= |keys| && (forall i :: 0 <= i < n ==> env.normalizeKey(keys[i]).Some?)
    ensures n < |keys| ==> env.normalizeKey(keys[n]).None?
  {
    if keys == [] then 0
    else
      var k := FirstBadKey(env, keys[..|keys| - 1]);
      if k < |keys| - 1 || env.normalizeKey(keys[k]).None? then k else k + 1
  }

  ghost function FirstBadIdentity(env: Env, identities: seq<Identity>): (n: nat)
    ensures n <= |identities| && (forall i :: 0 <= i < n ==> IdentityOk(env, identities[i]))
    ensures n < |identities| ==> !IdentityOk(env, identities[n])
  {
    if identities == [] then 0
    else
      var k := FirstBadIdentity(env, identities[..|identities| - 1]);
      if k < |identities| - 1 || !IdentityOk(env, identities[k]) then k else k + 1
  }

  ghost function NormalizedSigning(env: Env, o: SigningOverride): Result<SigningOverride, Problem> {
    var k, n := FirstBadKey(env, o.keys), FirstBadIdentity(env, o.identities);
    if |o.keys| > MAX_ANCHORS then Failure(TooManyKeys)
    else if k < |o.keys| then Failure(BadKey(k))
    else if |o.identities| > MAX_ANCHORS then Failure(TooManyIdentities)
    else if n < |o.identities| then
      Failure(if env.validRegexp(o.identities[n].identityRegexp) then MissingIssuer(n) else BadRegexp(n))
    else if o.enabled && o.keys == [] && o.identities == [] then Failure(NoAnchor)
    else if !ValidSelfRead(o.selfRead) then Failure(BadSelfRead)
    else Success(o.(keys := Canonical(env, o.keys)))
  }

  method NormalizeSigning(env: Env, o: SigningOverride) returns (r: Result<SigningOverride, Problem>)
    ensures r == NormalizedSigning(env, o)
  {
    if |o.keys| > MAX_ANCHORS { return Failure(TooManyKeys); }
    var normalized: seq<string> := [];
    for index := 0 to |o.keys|
      invariant KeysOk(env, o.keys[..index]) && normalized == Canonical(env, o.keys[..index])
    {
      var key := env.normalizeKey(o.keys[index]);
      if key.None? {
        assert forall i :: 0 <= i < index ==> o.keys[i] == o.keys[..index][i];
        return Failure(BadKey(index));
      }
      normalized := normalized + [key.value];
    }
    assert o.keys[..|o.keys|] == o.keys;
    if |o.identities| > MAX_ANCHORS { return Failure(TooManyIdentities); }
    for index := 0 to |o.identities|
      invariant forall i :: 0 <= i < index ==> IdentityOk(env, o.identities[i])
    {
      if !env.validRegexp(o.identities[index].identityRegexp) { return Failure(BadRegexp(index)); }
      if Trim(o.identities[index].issuer) == "" { return Failure(MissingIssuer(index)); }
    }
    if o.enabled && |normalized| == 0 && |o.identities| == 0 { return Failure(NoAnchor); }
    if !ValidSelfRead(o.selfRead) { return Failure(BadSelfRead); }
    return Success(o.(keys := normalized));
  }

  /** The row of an accepted request: the request itself with each key in its normal form, in its place. */
  ghost predicate RowOf(env: Env, o: SigningOverride, row: SigningOverride) {
    && row.enabled == o.enabled && row.identities == o.identities && row.selfRead == o.selfRead
    && |row.keys| == |o.keys|
    && forall i :: 0 <= i < |o.keys| ==> env.normalizeKey(o.keys[i]) == Some(row.keys[i])
  }

  /** A signing request is stored exactly when it keeps every bound, as itself, and then its row keeps them too. */
  lemma NormalizedSigningIff(env: Env, o: SigningOverride)
    ensures NormalizedSigning(env, o).Success? <==> SigningRequestOk(env, o)
    ensures NormalizedSigning(env, o).Success? ==>
      RowOf(env, o, NormalizedSigning(env, o).value) && SigningRowOk(env, NormalizedSigning(env, o).value)
  {
    if NormalizedSigning(env, o).Success? {
      var row := NormalizedSigning(env, o).value;
      forall i | 0 <= i < |row.keys| ensures exists raw :: env.normalizeKey(raw) == Some(row.keys[i]) {
        assert env.normalizeKey(o.keys[i]) == Some(row.keys[i]);
      }
    }
  }

  /** All keys before the `i`-th are well formed, and so are all identities before the `n`-th. */
  ghost predicate GoodUntil(env: Env, o: SigningOverride, i: int, n: int) {
    && |o.keys| <= MAX_ANCHORS && i <= |o.keys| && n <= |o.identities|
    && (forall k :: 0 <= k < i ==> env.normalizeKey(o.keys[k]).Some?)
    && (forall k :: 0 <= k < n ==> IdentityOk(env, o.identities[k]))
  }

  /** And otherwise the answer is the first problem: keys, identities, anchors, self-read, each in order. */
  lemma SigningProblemIff(env: Env, o: SigningOverride, i: nat)
    ensures var (r, keys, ids) := (NormalizedSigning(env, o), |o.keys|, |o.identities|);
      var keysGood := GoodUntil(env, o, keys, 0);
      var allGood := ids <= MAX_ANCHORS && GoodUntil(env, o, keys, ids);
      && (r == Failure(TooManyKeys) <==> keys > MAX_ANCHORS)
      && (r == Failure(BadKey(i)) <==> i < keys && GoodUntil(env, o, i, 0) && env.normalizeKey(o.keys[i]).None?)
      && (r == Failure(TooManyIdentities) <==> keysGood && ids > MAX_ANCHORS)
      && (r == Failure(BadRegexp(i)) <==>
            ids <= MAX_ANCHORS && i < ids && GoodUntil(env, o, keys, i)
            && !env.validRegexp(o.identities[i].identityRegexp))
      && (r == Failure(MissingIssuer(i)) <==>
            ids <= MAX_ANCHORS && i < ids && GoodUntil(env, o, keys, i)
            && env.validRegexp(o.identities[i].identityRegexp) && Trim(o.identities[i].issuer) == "")
      && (r == Failure(NoAnchor) <==> allGood && o.enabled && keys == 0 && ids == 0)
      && (r == Failure(BadSelfRead) <==> allGood && !(o.enabled && keys == 0 && ids == 0) && !ValidSelfRead(o.selfRead))
  {
    hide Canonical, Trim, ValidSelfRead;
  }

  /** Writing back what was read is accepted and changes nothing, once key normalization is idempotent. */
  lemma RewriteIsStable(env: Env, o: SigningOverride)
    requires forall raw :: env.normalizeKey(raw).Some? ==>
      env.normalizeKey(env.normalizeKey(raw).value) == env.normalizeKey(raw)
    requires NormalizedSigning(env, o).Success?
    ensures NormalizedSigning(env, NormalizedSigning(env, o).value) == NormalizedSigning(env, o)
  {
    var row := NormalizedSigning(env, o).value;
    forall i | 0 <= i < |row.keys| ensures env.normalizeKey(row.keys[i]) == Some(row.keys[i]) {
      assert env.normalizeKey(o.keys[i]) == Some(row.keys[i]);
    }
    assert KeysOk(env, row.keys) && Canonical(env, row.keys) == row.keys;
  }

  /** What a request body becomes in storage. */
  ghost function Encoded(env: Env, feature: Feature, body: Body): Result<Body, Problem> {
    match feature
    case Trivy => Normalized(env.trivy, o => NormalizeTrivy(env, o), body)
    case Gitleaks => Normalized(env.gitleaks, o => NormalizeGitleaks(env, o), body)
    case Signing => Normalized(env.signing, o => NormalizedSigning(env, o), body)
  }

  ghost function Normalized<X>(codec: Codec<X>, normalize: X -> Result<X, Problem>, body: Body): Result<Body, Problem> {
    match codec.strict(body)
    case None => Failure(Malformed)
    case Some(o) =>
      match normalize(o)
      case Failure(p) => Failure(p)
      case Success(row) => Success(codec.encode(row))
  }

  // ------------------------------------------------------------------ rows

  datatype Key = Key(tenant: string, repository: string, feature: string)

  datatype Row = Row(payload: Body, updatedAt: int)

  datatype Override = Override(repository: string, feature: string, payload: Body, updatedAt: int)

  datatype Fault = NoFault | WriteFails | ReadFails

  datatype Call =
    | Set(tenant: string, repository: string, feature: string, body: Body, now: int, fault: Fault)
    | Clear(tenant: string, repository: string, feature: string, fault: Fault)

  function ParseRepository(env: Env, repository: string): Option<string> {
    if env.validRepository(Trim(repository)) then Some(Trim(repository)) else None
  }

  function Stored(rows: map<Key, Row>, key: Key): Option<Row> {
    if key in rows then Some(rows[key]) else None
  }

  function RowKey(call: Call): Key { Key(call.tenant, Trim(call.repository), call.feature) }

  /** The row a call leaves behind for its key, or None when it changes nothing. */
  ghost function Effect(env: Env, call: Call): Option<Option<Row>> {
    var addressed := ParseRepository(env, call.repository).Some? && FeatureNamed(call.feature).Some?;
    if !addressed || call.fault == WriteFails then None
    else if call.Clear? then Some(None)
    else
      match Encoded(env, FeatureNamed(call.feature).value, call.body)
      case Failure(_) => None
      case Success(payload) => Some(Some(Row(payload, call.now)))
  }

  ghost function Apply(env: Env, rows: map<Key, Row>, call: Call): map<Key, Row> {
    match Effect(env, call)
    case None => rows
    case Some(None) => rows - {RowKey(call)}
    case Some(Some(row)) => rows[RowKey(call) := row]
  }

  ghost function Replay(env: Env, rows: map<Key, Row>, calls: seq<Call>): map<Key, Row> {
    if calls == [] then rows else Apply(env, Replay(env, rows, calls[..|calls| - 1]), calls[|calls| - 1])
  }

  /** The effect of the last call that touched the key. */
  ghost function LastWrite(env: Env, calls: seq<Call>, key: Key): Option<Option<Row>> {
    if calls == [] then None
    else
      var last := calls[|calls| - 1];
      if RowKey(last) == key && Effect(env, last).Some? then Effect(env, last)
      else LastWrite(env, calls[..|calls| - 1], key)
  }

  /** After any calls each row is what its last surviving write left, and untouched rows are as before. */
  lemma {:induction false} LastWriteWins(env: Env, rows: map<Key, Row>, calls: seq<Call>, key: Key)
    ensures Stored(Replay(env, rows, calls), key) ==
      match LastWrite(env, calls, key) case None => Stored(rows, key) case Some(row) => row
  {
    hide Effect;
    if calls != [] { LastWriteWins(env, rows, calls[..|calls| - 1], key); }
  }

  // ------------------------------------------------------------- resolution

  function ApplyTrivy(env: Env, raw: Body, s: ScanSettings): Result<ScanSettings, Problem> {
    match env.trivy.plain(raw)
    case None => Failure(Unreadable)
    case Some(o) =>
      Success(s.(enabled := o.enabled, ignoreFilePath := o.ignoreFilePath, ignorePolicyPath := o.ignorePolicyPath))
  }

  function ApplyGitleaks(env: Env, raw: Body, s: ScanSettings): Result<ScanSettings, Problem> {
    match env.gitleaks.plain(raw)
    case None => Failure(Unreadable)
    case Some(o) => Success(s.(enabled := o.enabled, configPath := o.configPath))
  }

  function ApplySigning(env: Env, raw: Body, s: SigningPolicy): Result<SigningPolicy, Problem> {
    match env.signing.plain(raw)
    case None => Failure(Unreadable)
    case Some(o) =>
      Success(s.(enabled := o.enabled, keys := o.keys, identities := o.identities, selfRead := o.selfRead))
  }

  /** The codec registry's Apply column: signing has none for scan settings. */
  function ScanApply(env: Env, feature: string): Option<(Body, ScanSettings) -> Result<ScanSettings, Problem>> {
    match FeatureNamed(feature)
    case Some(Trivy) => Some((raw, s) => ApplyTrivy(env, raw, s))
    case Some(Gitleaks) => Some((raw, s) => ApplyGitleaks(env, raw, s))
    case _ => None
  }

  function Resolve<T>(rows: map<Key, Row>, key: Key, settings: T,
                      apply: Option<(Body, T) -> Result<T, Problem>>): Result<T, Problem> {
    if key !in rows || apply.None? then Success(settings) else apply.value(rows[key].payload, settings)
  }

  function ResolveScan(env: Env, rows: map<Key, Row>, key: Key, settings: ScanSettings): Result<ScanSettings, Problem> {
    Resolve(rows, key, settings, ScanApply(env, key.feature))
  }

  function ResolveSigning(env: Env, rows: map<Key, Row>, key: Key,
                          policy: SigningPolicy): Result<SigningPolicy, Problem> {
    Resolve(rows, key.(feature := NameOf(Signing)), policy, Some((raw, s) => ApplySigning(env, raw, s)))
  }

  /** The settings an accepted Trivy or Gitleaks request stands for: its own fields, the rest global. */
  ghost function ScanMeaning(env: Env, feature: Feature, body: Body, s: ScanSettings): ScanSettings
    requires !feature.Signing? && Encoded(env, feature, body).Success?
  {
    if feature.Trivy? then
      var o := env.trivy.strict(body).value;
      ScanSettings(o.enabled, Cleaned(env, o.ignoreFilePath), Cleaned(env, o.ignorePolicyPath), s.configPath, s.rest)
    else
      var o := env.gitleaks.strict(body).value;
      ScanSettings(o.enabled, s.ignoreFilePath, s.ignorePolicyPath, Cleaned(env, o.configPath), s.rest)
  }

  ghost predicate Wrote(env: Env, call: Call, feature: Feature) {
    && call.Set? && call.feature == NameOf(feature) && Effect(env, call).Some?
  }

  ghost predicate Quiet(env: Env, calls: seq<Call>, key: Key) {
    forall i :: 0 <= i < |calls| && RowKey(calls[i]) == key ==> Effect(env, calls[i]).None?
  }

  lemma {:induction false} QuietLeavesLastWrite(env: Env, before: seq<Call>, last: Call, after: seq<Call>)
    requires Effect(env, last).Some? && Quiet(env, after, RowKey(last))
    ensures LastWrite(env, before + [last] + after, RowKey(last)) == Effect(env, last)
  {
    hide Effect;
    var all := before + [last] + after;
    if after == [] {
      assert all[|all| - 1] == last;
    } else {
      var init := after[..|after| - 1];
      assert all[..|all| - 1] == before + [last] + init && all[|all| - 1] == after[|after| - 1];
      assert forall i :: 0 <= i < |init| ==> init[i] == after[i];
      QuietLeavesLastWrite(env, before, last, init);
    }
  }

  lemma AppliedScanRow(env: Env, call: Call, feature: Feature, s: ScanSettings)
    requires JsonWorks(env) && Wrote(env, call, feature) && !feature.Signing? && call.Set?
    ensures Effect(env, call).value.Some?
    ensures var apply := ScanApply(env, call.feature);
      apply.Some? && apply.value(Effect(env, call).value.value.payload, s)
        == Success(ScanMeaning(env, feature, call.body, s))
  {
    hide NormalizedSigning;
  }

  /**
   Resolution is the last surviving override applied to the globals: whatever rows and calls came
   before leave no trace, and calls for other tenants, repositories or features do not matter.
   */
  lemma ScanOverrideResolves(env: Env, rows: map<Key, Row>, before: seq<Call>, last: Call, after: seq<Call>,
                             feature: Feature, s: ScanSettings)
    requires JsonWorks(env) && Wrote(env, last, feature) && !feature.Signing? && Quiet(env, after, RowKey(last))
    ensures ResolveScan(env, Replay(env, rows, before + [last] + after), RowKey(last), s)
            == Success(ScanMeaning(env, feature, last.body, s))
  {
    QuietLeavesLastWrite(env, before, last, after);
    LastWriteWins(env, rows, before + [last] + after, RowKey(last));
    hide Replay, LastWrite, Quiet;
    AppliedScanRow(env, last, feature, s);
  }

  /** The policy an accepted signing request stands for: all its own, only the time of the global row stays. */
  ghost predicate SigningMeaning(env: Env, o: SigningOverride, s: SigningPolicy, p: SigningPolicy) {
    && p.enabled == o.enabled && p.identities == o.identities && p.selfRead == o.selfRead && p.updatedAt == s.updatedAt
    && |p.keys| == |o.keys| && forall i :: 0 <= i < |o.keys| ==> env.normalizeKey(o.keys[i]) == Some(p.keys[i])
  }

  lemma SigningOverrideResolves(env: Env, rows: map<Key, Row>, before: seq<Call>, last: Call, after: seq<Call>,
                                s: SigningPolicy)
    requires JsonWorks(env) && Wrote(env, last, Signing) && Quiet(env, after, RowKey(last))
    ensures var (o, r) := (env.signing.strict(last.body),
                           ResolveSigning(env, Replay(env, rows, before + [last] + after), RowKey(last), s));
      o.Some? && SigningRequestOk(env, o.value) && r.Success? && SigningMeaning(env, o.value, s, r.value)
  {
    QuietLeavesLastWrite(env, before, last, after);
    LastWriteWins(env, rows, before + [last] + after, RowKey(last));
    NormalizedSigningIff(env, env.signing.strict(last.body).value);
  }

  /** The requests a feature accepts, by its own decoder and bounds. */
  ghost predicate Acceptable(env: Env, feature: Feature, body: Body) {
    match feature
    case Trivy =>
      && env.trivy.strict(body).Some? && SafePath(Trim(env.trivy.strict(body).value.ignoreFilePath))
      && SafePath(Trim(env.trivy.strict(body).value.ignorePolicyPath))
    case Gitleaks => env.gitleaks.strict(body).Some? && SafePath(Trim(env.gitleaks.strict(body).value.configPath))
    case Signing => env.signing.strict(body).Some? && SigningRequestOk(env, env.signing.strict(body).value)
  }

  /**
   Which calls have an effect at all: those that name a repository and a feature, meet no store error, and
   clear or carry an acceptable request.
   */
  lemma EffectIff(env: Env, call: Call)
    ensures var feature :=
        if call.feature == "trivy" then Some(Trivy) else if call.feature == "gitleaks" then Some(Gitleaks)
        else if call.feature == "signing" then Some(Signing) else None;
      Effect(env, call).Some?
      <==> (&& env.validRepository(Trim(call.repository)) && feature.Some? && call.fault != WriteFails
            && (call.Set? ==> Acceptable(env, feature.value, call.body)))
    ensures Effect(env, call).Some? ==>
      if call.Clear? then Effect(env, call).value.None?
      else Effect(env, call).value.Some? && Effect(env, call).value.value.updatedAt == call.now
  {
    if call.Set? {
      if env.trivy.strict(call.body).Some? {
        ScanRequestsIff(env, env.trivy.strict(call.body).value, GitleaksOverride(false, ""));
      }
      if env.gitleaks.strict(call.body).Some? {
        ScanRequestsIff(env, TrivyOverride(false, "", ""), env.gitleaks.strict(call.body).value);
      }
      if env.signing.strict(call.body).Some? { NormalizedSigningIff(env, env.signing.strict(call.body).value); }
    }
    hide NormalizeTrivy, NormalizeGitleaks, NormalizedSigning, SigningRequestOk, SigningRowOk, SafePath, Trim, RowOf;
  }

  /** Clearing reverts to the globals at once, for every feature. */
  lemma ClearReverts(env: Env, rows: map<Key, Row>, before: seq<Call>, last: Call, after: seq<Call>,
                     s: ScanSettings, p: SigningPolicy)
    requires last.Clear? && Effect(env, last).Some? && Quiet(env, after, RowKey(last))
    ensures var now := Replay(env, rows, before + [last] + after);
      && ResolveScan(env, now, RowKey(last), s) == Success(s)
      && (last.feature == NameOf(Signing) ==> ResolveSigning(env, now, RowKey(last), p) == Success(p))
  {
    QuietLeavesLastWrite(env, before, last, after);
    LastWriteWins(env, rows, before + [last] + after, RowKey(last));
  }

  // ------------------------------------------------- what stored rows promise

  ghost predicate SigningRowsOk(env: Env, rows: map<Key, Row>) {
    forall key :: key in rows && key.feature == NameOf(Signing) ==>
      env.signing.plain(rows[key].payload).Some? && SigningRowOk(env, env.signing.plain(rows[key].payload).value)
  }

  lemma SigningRowStored(env: Env, rows: map<Key, Row>, call: Call)
    requires JsonWorks(env) && SigningRowsOk(env, rows)
    ensures SigningRowsOk(env, Apply(env, rows, call))
  {
    if Wrote(env, call, Signing) {
      NormalizedSigningIff(env, env.signing.strict(call.body).value);
    }
  }

  /** No sequence of calls stores an enabled signing row without an anchor, or too many of either kind. */
  lemma {:induction false} SigningRowsStayOk(env: Env, rows: map<Key, Row>, calls: seq<Call>)
    requires JsonWorks(env) && SigningRowsOk(env, rows)
    ensures SigningRowsOk(env, Replay(env, rows, calls))
  {
    if calls != [] {
      SigningRowsStayOk(env, rows, calls[..|calls| - 1]);
      SigningRowStored(env, Replay(env, rows, calls[..|calls| - 1]), calls[|calls| - 1]);
    }
  }

  ghost predicate TrivyRowsOk(env: Env, rows: map<Key, Row>) {
    forall key :: key in rows && key.feature == NameOf(Trivy) ==>
      (&& env.trivy.plain(rows[key].payload).Some?
       && SafePath(env.trivy.plain(rows[key].payload).value.ignoreFilePath)
       && SafePath(env.trivy.plain(rows[key].payload).value.ignorePolicyPath))
  }

  ghost predicate GitleaksRowsOk(env: Env, rows: map<Key, Row>) {
    forall key :: key in rows && key.feature == NameOf(Gitleaks) ==>
      env.gitleaks.plain(rows[key].payload).Some? && SafePath(env.gitleaks.plain(rows[key].payload).value.configPath)
  }

  /** Every path in a stored scan row is unset or absolute. */
  ghost predicate ScanRowsOk(env: Env, rows: map<Key, Row>) { TrivyRowsOk(env, rows) && GitleaksRowsOk(env, rows) }

  lemma TrivyRowStored(env: Env, rows: map<Key, Row>, call: Call)
    requires RoundTrips(env.trivy) && CleaningKeepsRoot(env) && TrivyRowsOk(env, rows)
    ensures TrivyRowsOk(env, Apply(env, rows, call))
  {
    hide NormalizedSigning, NormalizeGitleaks;
    if Wrote(env, call, Trivy) {
      ScanRequestsIff(env, env.trivy.strict(call.body).value, GitleaksOverride(false, ""));
    }
  }

  lemma GitleaksRowStored(env: Env, rows: map<Key, Row>, call: Call)
    requires RoundTrips(env.gitleaks) && CleaningKeepsRoot(env) && GitleaksRowsOk(env, rows)
    ensures GitleaksRowsOk(env, Apply(env, rows, call))
  {
    hide NormalizedSigning, NormalizeTrivy;
    if Wrote(env, call, Gitleaks) {
      ScanRequestsIff(env, TrivyOverride(false, "", ""), env.gitleaks.strict(call.body).value);
    }
  }

  /** No sequence of calls stores a path a scanner could take for a flag. */
  lemma {:induction false} ScanRowsStayOk(env: Env, rows: map<Key, Row>, calls: seq<Call>)
    requires JsonWorks(env) && CleaningKeepsRoot(env) && ScanRowsOk(env, rows)
    ensures ScanRowsOk(env, Replay(env, rows, calls))
  {
    hide Apply, TrivyRowsOk, GitleaksRowsOk;
    if calls != [] {
      ScanRowsStayOk(env, rows, calls[..|calls| - 1]);
      TrivyRowStored(env, Replay(env, rows, calls[..|calls| - 1]), calls[|calls| - 1]);
      GitleaksRowStored(env, Replay(env, rows, calls[..|calls| - 1]), calls[|calls| - 1]);
    }
  }

  /** So a resolved enabled policy that came from a row can always verify something. */
  lemma ResolvedSigningHasAnchor(env: Env, rows: map<Key, Row>, calls: seq<Call>, key: Key, p: SigningPolicy)
    requires JsonWorks(env) && SigningRowsOk(env, rows) && (p.enabled ==> p.keys != [] || p.identities != [])
    ensures var r := ResolveSigning(env, Replay(env, rows, calls), key, p);
      r.Success? && (r.value.enabled ==> r.value.keys != [] || r.value.identities != [])
  {
    SigningRowsStayOk(env, rows, calls);
  }
}
