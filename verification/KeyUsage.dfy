/**
 The advisory scan behind a key revocation: how many currently tagged images one key verifies.
 Nested loops with a labelled break, against a flat specification over the images in catalog order.
 Parsing and signature arithmetic are parameters.
 */
module KeyUsage {
  import opened Wrappers
  import opened Text

  type Repo = string
  type Key = string
  type Bytes = string

  const MAX_PAYLOAD_BYTES := 0x10_0000

  // ------------------------------------------------------------------ stores

  datatype StoreError = NotFound | Unavailable(text: string)

  datatype Manifest = Manifest(digest: string, payload: Bytes)

  /** What one scan reads. */
  datatype Store = Store(
    catalog: Result<seq<Repo>, StoreError>,
    tags: Repo -> Result<seq<string>, StoreError>,
    resolve: (Repo, string) -> Result<Manifest, StoreError>,
    blob: string -> Result<Bytes, StoreError>)

  datatype SignatureEntry = SignatureEntry(payloadDigest: string, signature: string)

  datatype Bundle = Bundle(payloadType: string, payload: string, signatures: seq<string>)

  datatype Crypto = Crypto(
    parseSignatures: Bytes -> Option<seq<SignatureEntry>>,
    parseIndex: Bytes -> Option<seq<string>>,
    parseReferrer: Bytes -> Option<(string, string)>,
    parseBundle: Bytes -> Option<Bundle>,
    decode: string -> Option<Bytes>,
    pae: (string, Bytes) -> Bytes,
    verify: (Key, Bytes, string) -> bool,
    claims: (Bytes, string) -> bool,
    bundleClaims: (Bytes, string) -> bool)

  /** The payload blob, or None when the entry cannot be verified. */
  function OpenPayload(store: Store, digest: string): Result<Option<Bytes>, StoreError> {
    if !ValidDigest(digest) then Success(None)
    else
      match store.blob(digest)
      case Failure(NotFound) => Success(None)
      case Failure(e) => Failure(e)
      case Success(payload) => Success(if |payload| > MAX_PAYLOAD_BYTES then None else Some(payload))
  }

  // ------------------------------------------------------------ accessory tags

  function SignatureTag(digest: string): Option<string> {
    if ValidDigest(digest) then Some("sha256-" + digest[7..] + ".sig") else None
  }

  function BundleIndexTag(digest: string): Option<string> {
    if ValidDigest(digest) then Some("sha256-" + digest[7..]) else None
  }

  predicate IsArtifactTag(name: string) {
    && |name| >= 7 && name[..7] == "sha256-"
    && if |name| >= 4 && name[|name| - 4..] == ".sig" then
         |name| >= 11 && SignatureTag("sha256:" + name[7..|name| - 4]) == Some(name)
       else BundleIndexTag("sha256:" + name[7..]) == Some(name)
  }

  /** The filter drops exactly the names the two tag producers can make. */
  lemma ArtifactTagIff(name: string)
    ensures IsArtifactTag(name) <==> exists d :: SignatureTag(d) == Some(name) || BundleIndexTag(d) == Some(name)
  {
    if d :| SignatureTag(d) == Some(name) || BundleIndexTag(d) == Some(name) {
      assert d == "sha256:" + d[7..];
      if SignatureTag(d) == Some(name) {
        assert name[7..|name| - 4] == d[7..] && name[|name| - 4..] == ".sig" && name[..7] == "sha256-";
      } else {
        assert name[7..] == d[7..] && name[..7] == "sha256-";
        assert HexDigit(name[70]) && name[67..][3] == name[70];
      }
    }
  }

  // -------------------------------------------------------------- one image

  /** What one entry says about the key: it settles the question, says nothing, or cannot be read. */
  datatype Verdict = Match | Skip | Broken(error: StoreError)

  /** The first entry that is not skipped decides; with none the key does not match. */
  ghost function Decide(verdicts: seq<Verdict>): Result<bool, StoreError> {
    if verdicts == [] then Success(false)
    else
      match verdicts[0]
      case Match => Success(true)
      case Broken(e) => Failure(e)
      case Skip => Decide(verdicts[1..])
  }

  lemma {:induction false} DecideSkips(verdicts: seq<Verdict>, i: nat)
    requires i <= |verdicts| && forall k :: 0 <= k < i ==> verdicts[k] == Skip
    ensures Decide(verdicts) == Decide(verdicts[i..])
  {
    if i == 0 {
      assert verdicts[0..] == verdicts;
    } else {
      DecideSkips(verdicts[1..], i - 1);
      assert verdicts[1..][i - 1..] == verdicts[i..];
    }
  }

  ghost predicate FirstMatch(verdicts: seq<Verdict>, k: nat) {
    k < |verdicts| && verdicts[k] == Match && forall i :: 0 <= i < k ==> verdicts[i] == Skip
  }

  ghost predicate FirstBroken(verdicts: seq<Verdict>, k: nat, e: StoreError) {
    k < |verdicts| && verdicts[k] == Broken(e) && forall i :: 0 <= i < k ==> verdicts[i] == Skip
  }

  /** The first entry that is not merely unusable decides: a match, or the error that hides the rest. */
  lemma {:induction false} DecideIff(verdicts: seq<Verdict>, e: StoreError)
    ensures Decide(verdicts) == Success(true) <==> exists k: nat :: FirstMatch(verdicts, k)
    ensures Decide(verdicts) == Failure(e) <==> exists k: nat :: FirstBroken(verdicts, k, e)
  {
    if verdicts != [] && verdicts[0] == Skip {
      DecideIff(verdicts[1..], e);
      if k: nat :| FirstMatch(verdicts[1..], k) { assert FirstMatch(verdicts, k + 1); }
      if k: nat :| FirstBroken(verdicts[1..], k, e) { assert FirstBroken(verdicts, k + 1, e); }
      if k: nat :| FirstMatch(verdicts, k) {
        assert k > 0;
        assert FirstMatch(verdicts[1..], k - 1);
      }
      if k: nat :| FirstBroken(verdicts, k, e) {
        assert k > 0;
        assert FirstBroken(verdicts[1..], k - 1, e);
      }
    } else if verdicts != [] && verdicts[0] == Match {
      assert FirstMatch(verdicts, 0);
    } else if verdicts != [] && verdicts[0] == Broken(e) {
      assert FirstBroken(verdicts, 0, e);
    }
  }

  ghost function LegacyVerdict(store: Store, c: Crypto, digest: string, key: Key, entry: SignatureEntry): Verdict {
    match OpenPayload(store, entry.payloadDigest)
    case Failure(e) => Broken(e)
    case Success(None) => Skip
    case Success(Some(payload)) =>
      if c.verify(key, payload, entry.signature) && c.claims(payload, digest) then Match else Skip
  }

  ghost function LegacyVerdicts(store: Store, c: Crypto, digest: string, key: Key,
                                entries: seq<SignatureEntry>): seq<Verdict> {
    seq(|entries|, i requires 0 <= i < |entries| => LegacyVerdict(store, c, digest, key, entries[i]))
  }

  ghost function BundleVerdict(store: Store, c: Crypto, repo: Repo, digest: string, key: Key, entry: string): Verdict {
    match store.resolve(repo, entry)
    case Failure(NotFound) => Skip
    case Failure(e) => Broken(e)
    case Success(referrer) =>
      match c.parseReferrer(referrer.payload)
      case None => Skip
      case Some((subject, layer)) =>
        if subject != digest || layer == "" then Skip
        else
          match OpenPayload(store, layer)
          case Failure(e) => Broken(e)
          case Success(None) => Skip
          case Success(Some(document)) => if BundleSigned(c, digest, key, document) then Match else Skip
  }

  ghost predicate BundleSigned(c: Crypto, digest: string, key: Key, document: Bytes) {
    var bundle := c.parseBundle(document);
    bundle.Some? && c.decode(bundle.value.payload).Some? &&
    var payload := c.decode(bundle.value.payload).value;
    c.bundleClaims(payload, digest)
    && exists s :: s in bundle.value.signatures && c.verify(key, c.pae(bundle.value.payloadType, payload), s)
  }

  ghost function BundleVerdicts(store: Store, c: Crypto, repo: Repo, digest: string, key: Key,
                                entries: seq<string>): seq<Verdict> {
    seq(|entries|, i requires 0 <= i < |entries| => BundleVerdict(store, c, repo, digest, key, entries[i]))
  }

  ghost function BundleAnswer(store: Store, c: Crypto, repo: Repo, digest: string, key: Key): Result<bool, StoreError> {
    match BundleIndexTag(digest)
    case None => Success(false)
    case Some(tag) =>
      match store.resolve(repo, tag)
      case Failure(NotFound) => Success(false)
      case Failure(e) => Failure(e)
      case Success(index) =>
        match c.parseIndex(index.payload)
        case None => Success(false)
        case Some(entries) => Decide(BundleVerdicts(store, c, repo, digest, key, entries))
  }

  /** Does the image's signature - legacy first, the bundle only when there is none - verify with the key? */
  ghost function Answer(store: Store, c: Crypto, repo: Repo, digest: string, key: Key): Result<bool, StoreError> {
    match SignatureTag(digest)
    case None => Success(false)
    case Some(tag) =>
      match store.resolve(repo, tag)
      case Failure(NotFound) => BundleAnswer(store, c, repo, digest, key)
      case Failure(e) => Failure(e)
      case Success(manifest) =>
        match c.parseSignatures(manifest.payload)
        case None => Success(false)
        case Some(entries) => Decide(LegacyVerdicts(store, c, digest, key, entries))
  }

  // ---------------------------------------------- what the answer rests on

  /** The blob is there and within the size limit. */
  ghost predicate BlobIs(store: Store, digest: string, payload: Bytes) {
    ValidDigest(digest) && store.blob(digest) == Success(payload) && |payload| <= 0x10_0000
  }

  /** There is no blob to verify: a malformed digest, no such file, or one over the limit. */
  ghost predicate NoBlob(store: Store, digest: string) {
    || !ValidDigest(digest) || store.blob(digest) == Failure(NotFound)
    || (store.blob(digest).Success? && |store.blob(digest).value| > 0x10_0000)
  }

  /** Reading the blob failed for another reason. */
  ghost predicate BlobBroken(store: Store, digest: string, e: StoreError) {
    ValidDigest(digest) && store.blob(digest) == Failure(e) && e != NotFound
  }

  /** The entry's signature verifies over a payload that names this very image. */
  ghost predicate EntrySigns(store: Store, c: Crypto, digest: string, key: Key, entry: SignatureEntry) {
    exists payload :: BlobIs(store, entry.payloadDigest, payload) && c.verify(key, payload, entry.signature)
                      && c.claims(payload, digest)
  }

  ghost predicate EntryUnusable(store: Store, c: Crypto, digest: string, key: Key, entry: SignatureEntry) {
    || NoBlob(store, entry.payloadDigest)
    || exists payload :: BlobIs(store, entry.payloadDigest, payload)
                         && !(c.verify(key, payload, entry.signature) && c.claims(payload, digest))
  }

  lemma LegacyVerdictMeans(store: Store, c: Crypto, digest: string, key: Key, entry: SignatureEntry)
    ensures var v := LegacyVerdict(store, c, digest, key, entry);
      && (v == Match <==> EntrySigns(store, c, digest, key, entry))
      && (v == Skip <==> EntryUnusable(store, c, digest, key, entry))
      && (forall e :: v == Broken(e) <==> BlobBroken(store, entry.payloadDigest, e))
  {
    if ValidDigest(entry.payloadDigest) && store.blob(entry.payloadDigest).Success? {
      var payload := store.blob(entry.payloadDigest).value;
      if |payload| <= MAX_PAYLOAD_BYTES { assert BlobIs(store, entry.payloadDigest, payload); }
    }
  }

  /** The referrer's manifest is about this image and names the layer that holds the bundle. */
  ghost predicate Refers(store: Store, c: Crypto, repo: Repo, digest: string, entry: string, layer: string) {
    && store.resolve(repo, entry).Success? && layer != ""
    && c.parseReferrer(store.resolve(repo, entry).value.payload) == Some((digest, layer))
  }

  /** The document is a bundle whose payload names the image and that one of its signatures verifies over. */
  ghost predicate Attests(c: Crypto, digest: string, key: Key, document: Bytes) {
    exists bundle, payload, s ::
      && c.parseBundle(document) == Some(bundle) && c.decode(bundle.payload) == Some(payload)
      && c.bundleClaims(payload, digest) && s in bundle.signatures
      && c.verify(key, c.pae(bundle.payloadType, payload), s)
  }

  ghost predicate BundleEntrySigns(store: Store, c: Crypto, repo: Repo, digest: string, key: Key, entry: string) {
    exists layer, document ::
      Refers(store, c, repo, digest, entry, layer) && BlobIs(store, layer, document)
      && Attests(c, digest, key, document)
  }

  ghost predicate BundleEntryUnusable(store: Store, c: Crypto, repo: Repo, digest: string, key: Key, entry: string) {
    || store.resolve(repo, entry) == Failure(NotFound)
    || (store.resolve(repo, entry).Success? && forall layer :: !Refers(store, c, repo, digest, entry, layer))
    || exists layer :: Refers(store, c, repo, digest, entry, layer)
         && (NoBlob(store, layer)
             || exists document :: BlobIs(store, layer, document) && !Attests(c, digest, key, document))
  }

  ghost predicate BundleEntryBroken(store: Store, c: Crypto, repo: Repo, digest: string, entry: string, e: StoreError) {
    || (store.resolve(repo, entry) == Failure(e) && e != NotFound)
    || exists layer :: Refers(store, c, repo, digest, entry, layer) && BlobBroken(store, layer, e)
  }

  lemma BundleVerdictMeans(store: Store, c: Crypto, repo: Repo, digest: string, key: Key, entry: string)
    ensures var v := BundleVerdict(store, c, repo, digest, key, entry);
      && (v == Match <==> BundleEntrySigns(store, c, repo, digest, key, entry))
      && (v == Skip <==> BundleEntryUnusable(store, c, repo, digest, key, entry))
      && (forall e :: v == Broken(e) <==> BundleEntryBroken(store, c, repo, digest, entry, e))
  {
    forall document ensures BundleSigned(c, digest, key, document) <==> Attests(c, digest, key, document) {
      SignedAttests(c, digest, key, document);
    }
    if store.resolve(repo, entry).Success? {
      var parts := c.parseReferrer(store.resolve(repo, entry).value.payload);
      if parts.Some? && parts.value.0 == digest && parts.value.1 != "" {
        var layer := parts.value.1;
        assert Refers(store, c, repo, digest, entry, layer);
        if ValidDigest(layer) && store.blob(layer).Success? && |store.blob(layer).value| <= MAX_PAYLOAD_BYTES {
          assert BlobIs(store, layer, store.blob(layer).value);
        }
      }
    }
    hide BundleSigned, Attests;
  }

  lemma SignedAttests(c: Crypto, digest: string, key: Key, document: Bytes)
    ensures BundleSigned(c, digest, key, document) <==> Attests(c, digest, key, document)
  {
  }

  /** Entry `k` signs, and all earlier ones are unusable. */
  ghost predicate SignedAt(store: Store, c: Crypto, digest: string, key: Key, entries: seq<SignatureEntry>, k: nat) {
    && k < |entries| && EntrySigns(store, c, digest, key, entries[k])
    && forall i :: 0 <= i < k ==> EntryUnusable(store, c, digest, key, entries[i])
  }

  ghost predicate BrokenAt(store: Store, c: Crypto, digest: string, key: Key, entries: seq<SignatureEntry>, k: nat,
                           e: StoreError) {
    && k < |entries| && BlobBroken(store, entries[k].payloadDigest, e)
    && forall i :: 0 <= i < k ==> EntryUnusable(store, c, digest, key, entries[i])
  }

  ghost predicate BundleSignedAt(store: Store, c: Crypto, repo: Repo, digest: string, key: Key, entries: seq<string>,
                                 k: nat) {
    && k < |entries| && BundleEntrySigns(store, c, repo, digest, key, entries[k])
    && forall i :: 0 <= i < k ==> BundleEntryUnusable(store, c, repo, digest, key, entries[i])
  }

  ghost predicate BundleBrokenAt(store: Store, c: Crypto, repo: Repo, digest: string, key: Key, entries: seq<string>,
                                 k: nat, e: StoreError) {
    && k < |entries| && BundleEntryBroken(store, c, repo, digest, entries[k], e)
    && forall i :: 0 <= i < k ==> BundleEntryUnusable(store, c, repo, digest, key, entries[i])
  }

  lemma LegacyDecides(store: Store, c: Crypto, digest: string, key: Key, entries: seq<SignatureEntry>, e: StoreError)
    ensures var r := Decide(LegacyVerdicts(store, c, digest, key, entries));
      && (r == Success(true) <==> exists k: nat :: SignedAt(store, c, digest, key, entries, k))
      && (r == Failure(e) <==> exists k: nat :: BrokenAt(store, c, digest, key, entries, k, e))
  {
    var verdicts := LegacyVerdicts(store, c, digest, key, entries);
    DecideIff(verdicts, e);
    forall k | 0 <= k < |entries|
      ensures verdicts[k] == Match <==> EntrySigns(store, c, digest, key, entries[k])
      ensures verdicts[k] == Skip <==> EntryUnusable(store, c, digest, key, entries[k])
      ensures verdicts[k] == Broken(e) <==> BlobBroken(store, entries[k].payloadDigest, e)
    {
      LegacyVerdictMeans(store, c, digest, key, entries[k]);
    }
    hide LegacyVerdict, EntrySigns, EntryUnusable, BlobBroken, Decide;
    forall k: nat ensures FirstMatch(verdicts, k) <==> SignedAt(store, c, digest, key, entries, k) {}
    forall k: nat ensures FirstBroken(verdicts, k, e) <==> BrokenAt(store, c, digest, key, entries, k, e) {}
  }

  lemma BundleDecides(store: Store, c: Crypto, repo: Repo, digest: string, key: Key, entries: seq<string>,
                      e: StoreError)
    ensures var r := Decide(BundleVerdicts(store, c, repo, digest, key, entries));
      && (r == Success(true) <==> exists k: nat :: BundleSignedAt(store, c, repo, digest, key, entries, k))
      && (r == Failure(e) <==> exists k: nat :: BundleBrokenAt(store, c, repo, digest, key, entries, k, e))
  {
    var verdicts := BundleVerdicts(store, c, repo, digest, key, entries);
    DecideIff(verdicts, e);
    forall k | 0 <= k < |entries|
      ensures verdicts[k] == Match <==> BundleEntrySigns(store, c, repo, digest, key, entries[k])
      ensures verdicts[k] == Skip <==> BundleEntryUnusable(store, c, repo, digest, key, entries[k])
      ensures verdicts[k] == Broken(e) <==> BundleEntryBroken(store, c, repo, digest, entries[k], e)
    {
      BundleVerdictMeans(store, c, repo, digest, key, entries[k]);
    }
    hide BundleVerdict, BundleEntrySigns, BundleEntryUnusable, BundleEntryBroken, Decide;
    forall k: nat ensures FirstMatch(verdicts, k) <==> BundleSignedAt(store, c, repo, digest, key, entries, k) {}
    forall k: nat
      ensures FirstBroken(verdicts, k, e) <==> BundleBrokenAt(store, c, repo, digest, key, entries, k, e) {}
  }

  /**
   The key verifies the image's signature if and only if the signature manifest holds an entry whose readable
   payload verifies and names this image, all earlier entries being unusable; or there is no signature
   manifest, and the bundle index holds such an entry.
   */
  lemma AnswerIff(store: Store, c: Crypto, repo: Repo, digest: string, key: Key)
    ensures Answer(store, c, repo, digest, key) == Success(true) <==>
      ValidDigest(digest) &&
      var legacy, index := store.resolve(repo, "sha256-" + digest[7..] + ".sig"),
                           store.resolve(repo, "sha256-" + digest[7..]);
      || (legacy.Success? && c.parseSignatures(legacy.value.payload).Some?
          && exists k: nat :: SignedAt(store, c, digest, key, c.parseSignatures(legacy.value.payload).value, k))
      || (legacy == Failure(NotFound) && index.Success? && c.parseIndex(index.value.payload).Some?
          && exists k: nat :: BundleSignedAt(store, c, repo, digest, key, c.parseIndex(index.value.payload).value, k))
  {
    if ValidDigest(digest) {
      var legacy, index := store.resolve(repo, "sha256-" + digest[7..] + ".sig"),
                           store.resolve(repo, "sha256-" + digest[7..]);
      assert SignatureTag(digest) == Some("sha256-" + digest[7..] + ".sig");
      assert BundleIndexTag(digest) == Some("sha256-" + digest[7..]);
      if legacy.Success? && c.parseSignatures(legacy.value.payload).Some? {
        LegacyDecides(store, c, digest, key, c.parseSignatures(legacy.value.payload).value, NotFound);
      }
      if index.Success? && c.parseIndex(index.value.payload).Some? {
        BundleDecides(store, c, repo, digest, key, c.parseIndex(index.value.payload).value, NotFound);
      }
      hide SignatureTag, BundleIndexTag, Decide, SignedAt, BrokenAt, BundleSignedAt, BundleBrokenAt, LegacyVerdicts,
        BundleVerdicts;
    }
  }

  /** And it is left open by an error if and only if a manifest or the first usable entry cannot be read. */
  lemma AnswerFailsIff(store: Store, c: Crypto, repo: Repo, digest: string, key: Key, e: StoreError)
    ensures Answer(store, c, repo, digest, key) == Failure(e) <==>
      ValidDigest(digest) &&
      var legacy, index := store.resolve(repo, "sha256-" + digest[7..] + ".sig"),
                           store.resolve(repo, "sha256-" + digest[7..]);
      || (legacy == Failure(e) && e != NotFound)
      || (legacy.Success? && c.parseSignatures(legacy.value.payload).Some?
          && exists k: nat :: BrokenAt(store, c, digest, key, c.parseSignatures(legacy.value.payload).value, k, e))
      || (legacy == Failure(NotFound) && index == Failure(e) && e != NotFound)
      || (legacy == Failure(NotFound) && index.Success? && c.parseIndex(index.value.payload).Some?
          && exists k: nat ::
               BundleBrokenAt(store, c, repo, digest, key, c.parseIndex(index.value.payload).value, k, e))
  {
    if ValidDigest(digest) {
      var legacy, index := store.resolve(repo, "sha256-" + digest[7..] + ".sig"),
                           store.resolve(repo, "sha256-" + digest[7..]);
      assert SignatureTag(digest) == Some("sha256-" + digest[7..] + ".sig");
      assert BundleIndexTag(digest) == Some("sha256-" + digest[7..]);
      if legacy.Success? && c.parseSignatures(legacy.value.payload).Some? {
        LegacyDecides(store, c, digest, key, c.parseSignatures(legacy.value.payload).value, e);
      }
      if index.Success? && c.parseIndex(index.value.payload).Some? {
        BundleDecides(store, c, repo, digest, key, c.parseIndex(index.value.payload).value, e);
      }
      hide SignatureTag, BundleIndexTag, Decide, SignedAt, BrokenAt, BundleSignedAt, BundleBrokenAt, LegacyVerdicts,
        BundleVerdicts;
    }
  }

  /** The loop over one bundle's signatures. */
  method SignaturesMatch(c: Crypto, digest: string, key: Key, payload: Bytes, signed: Bytes, signatures: seq<string>)
    returns (matched: bool)
    ensures matched <==> c.bundleClaims(payload, digest) && exists s :: s in signatures && c.verify(key, signed, s)
  {
    for j := 0 to |signatures|
      invariant forall k :: 0 <= k < j && c.verify(key, signed, signatures[k]) ==> !c.bundleClaims(payload, digest)
    {
      if !c.verify(key, signed, signatures[j]) { continue; }
      if !c.bundleClaims(payload, digest) { continue; }
      return true;
    }
    return false;
  }

  method BundleMatches(store: Store, c: Crypto, repo: Repo, digest: string, key: Key)
    returns (r: Result<bool, StoreError>)
    ensures r == BundleAnswer(store, c, repo, digest, key)
  {
    var tag := BundleIndexTag(digest);
    if tag.None? { return Success(false); }
    var index := store.resolve(repo, tag.value);
    if index.Failure? {
      return if index.error.NotFound? then Success(false) else Failure(index.error);
    }
    var parsed := c.parseIndex(index.value.payload);
    if parsed.None? { return Success(false); }
    var entries := parsed.value;
    ghost var verdicts := BundleVerdicts(store, c, repo, digest, key, entries);

    for i := 0 to |entries|
      invariant forall k :: 0 <= k < i ==> verdicts[k] == Skip
    {
      DecideSkips(verdicts, i);
      assert verdicts[i..] == [verdicts[i]] + verdicts[i + 1..];
      var referrer := store.resolve(repo, entries[i]);
      if referrer.Failure? {
        if referrer.error.NotFound? { continue; }
        return Failure(referrer.error);
      }
      var parts := c.parseReferrer(referrer.value.payload);
      if parts.None? || parts.value.0 != digest || parts.value.1 == "" { continue; }
      var document := OpenPayload(store, parts.value.1);
      if document.Failure? { return Failure(document.error); }
      if document.value.None? { continue; }
      var bundle := c.parseBundle(document.value.value);
      if bundle.None? { continue; }
      var payload := c.decode(bundle.value.payload);
      if payload.None? { continue; }
      var signed := c.pae(bundle.value.payloadType, payload.value);
      var matched := SignaturesMatch(c, digest, key, payload.value, signed, bundle.value.signatures);
      if matched { return Success(true); }
    }
    DecideSkips(verdicts, |entries|);
    return Success(false);
  }

  method Matches(store: Store, c: Crypto, repo: Repo, digest: string, key: Key) returns (r: Result<bool, StoreError>)
    ensures r == Answer(store, c, repo, digest, key)
  {
    var tag := SignatureTag(digest);
    if tag.None? { return Success(false); }
    var manifest := store.resolve(repo, tag.value);
    if manifest.Failure? {
      if manifest.error.NotFound? {
        r := BundleMatches(store, c, repo, digest, key);
        return;
      }
      return Failure(manifest.error);
    }
    var parsed := c.parseSignatures(manifest.value.payload);
    if parsed.None? || parsed.value == [] { return Success(false); }
    var entries := parsed.value;
    ghost var verdicts := LegacyVerdicts(store, c, digest, key, entries);

    for i := 0 to |entries|
      invariant forall k :: 0 <= k < i ==> verdicts[k] == Skip
    {
      DecideSkips(verdicts, i);
      assert verdicts[i..] == [verdicts[i]] + verdicts[i + 1..];
      var payload := OpenPayload(store, entries[i].payloadDigest);
      if payload.Failure? { return Failure(payload.error); }
      if payload.value.None? { continue; }
      if !c.verify(key, payload.value.value, entries[i].signature) { continue; }
      if !c.claims(payload.value.value, digest) { continue; }
      return Success(true);
    }
    DecideSkips(verdicts, |entries|);
    return Success(false);
  }

  // ------------------------------------------------------------------- scope

  datatype ScopeError = InvalidRepository | ListingFailed(error: StoreError)

  /** Every repository, or exactly the named one. */
  function ScanRepositories(store: Store,
                            parse: string -> Option<Repo>, repository: string): Result<seq<Repo>, ScopeError> {
    var trimmed := Trim(repository);
    if trimmed == "" then
      match store.catalog
      case Success(repos) => Success(repos)
      case Failure(e) => Failure(ListingFailed(e))
    else
      match parse(trimmed)
      case None => Failure(InvalidRepository)
      case Some(repo) => Success([repo])
  }

  datatype Image = Image(repo: Repo, tag: string)

  /** The non-accessory tags of one listing, in order. */
  ghost function Images(repo: Repo, tags: seq<string>): seq<Image> {
    if tags == [] then []
    else
      var last := tags[|tags| - 1];
      Images(repo, tags[..|tags| - 1]) + if IsArtifactTag(last) then [] else [Image(repo, last)]
  }

  /** All images of the repositories, one after the other; an unreadable listing holds none. */
  ghost function Catalogued(store: Store, repos: seq<Repo>): seq<Image> {
    if repos == [] then []
    else
      var last := repos[|repos| - 1];
      Catalogued(store, repos[..|repos| - 1])
      + if store.tags(last).Success? then Images(last, store.tags(last).value) else []
  }

  /** How many listings can be read before the first that cannot. */
  ghost function Readable(store: Store, repos: seq<Repo>): (n: nat)
    ensures n <= |repos| && forall i :: 0 <= i < n ==> store.tags(repos[i]).Success?
    ensures n < |repos| ==> store.tags(repos[n]).Failure?
  {
    if repos == [] then 0
    else
      var k := Readable(store, repos[..|repos| - 1]);
      if k < |repos| - 1 || store.tags(repos[k]).Failure? then k else k + 1
  }

  ghost predicate Protects(store: Store, c: Crypto, key: Key, image: Image) {
    var manifest := store.resolve(image.repo, image.tag);
    manifest.Success? && Answer(store, c, image.repo, manifest.value.digest, key) == Success(true)
  }

  ghost function Protected(store: Store, c: Crypto, key: Key, images: seq<Image>): nat {
    if images == [] then 0
    else
      Protected(store, c, key, images[..|images| - 1])
      + if Protects(store, c, key, images[|images| - 1]) then 1 else 0
  }

  datatype Usage = Usage(count: nat, capped: bool)

  function Limit(scanCap: int): nat { if scanCap < 0 then 0 else scanCap }

  /**
   The whole scan in one line: count among the first `scanCap` images that can be listed; a listing
   error matters only when the cap was not passed before it.
   */
  ghost function UsageOf(store: Store, c: Crypto, key: Key, repos: seq<Repo>, scanCap: int): Result<Usage, StoreError> {
    var readable := Readable(store, repos);
    var images := Catalogued(store, repos[..readable]);
    if |images| > Limit(scanCap) then Success(Usage(Protected(store, c, key, images[..Limit(scanCap)]), true))
    else if readable < |repos| then Failure(store.tags(repos[readable]).error)
    else Success(Usage(Protected(store, c, key, images), false))
  }

  ghost predicate Prefix<T>(a: seq<T>, b: seq<T>) { |a| <= |b| && a == b[..|a|] }

  lemma {:induction false} ImagesPrefix(repo: Repo, tags: seq<string>, j: nat)
    requires j <= |tags|
    ensures Prefix(Images(repo, tags[..j]), Images(repo, tags))
  {
    if j == |tags| {
      assert tags[..j] == tags;
    } else {
      ImagesPrefix(repo, tags[..|tags| - 1], j);
      assert tags[..|tags| - 1][..j] == tags[..j];
    }
  }

  lemma {:induction false} CataloguedPrefix(store: Store, repos: seq<Repo>, i: nat)
    requires i <= |repos|
    ensures Prefix(Catalogued(store, repos[..i]), Catalogued(store, repos))
  {
    if i == |repos| {
      assert repos[..i] == repos;
    } else {
      CataloguedPrefix(store, repos[..|repos| - 1], i);
      assert repos[..|repos| - 1][..i] == repos[..i];
    }
  }

  lemma CataloguedSnoc(store: Store, repos: seq<Repo>, i: nat)
    requires i < |repos| && store.tags(repos[i]).Success?
    ensures Catalogued(store, repos[..i + 1]) == Catalogued(store, repos[..i])
      + Images(repos[i], store.tags(repos[i]).value)
  {
    assert repos[..i + 1][..i] == repos[..i];
  }

  lemma PrefixThrough<T>(base: seq<T>, part: seq<T>, x: T, whole: seq<T>, all: seq<T>)
    requires Prefix(part + [x], whole) && Prefix(base + whole, all)
    ensures |base + part| < |all| && base + part == all[..|base + part|]
  {
    assert base + part == (base + whole)[..|base + part|] by {
      assert part == (part + [x])[..|part|] == whole[..|part|];
    }
    assert all[..|base + part|] == all[..|base + whole|][..|base + part|];
  }

  /** At the cap: the images seen so far and one more are the first ones of the readable catalog. */
  lemma PastTheCap(store: Store, repos: seq<Repo>, i: nat, j: nat)
    requires i < |repos| && store.tags(repos[i]).Success? && j < |store.tags(repos[i]).value|
    requires forall k :: 0 <= k < i ==> store.tags(repos[k]).Success?
    requires !IsArtifactTag(store.tags(repos[i]).value[j])
    ensures var seen := Catalogued(store, repos[..i]) + Images(repos[i], store.tags(repos[i]).value[..j]);
      var images := Catalogued(store, repos[..Readable(store, repos)]);
      |seen| < |images| && seen == images[..|seen|]
  {
    hide Catalogued, IsArtifactTag;
    var repo, tags, n := repos[i], store.tags(repos[i]).value, Readable(store, repos);
    assert i < n;
    ImagesPrefix(repo, tags, j + 1);
    assert Images(repo, tags[..j + 1]) == Images(repo, tags[..j]) + [Image(repo, tags[j])] by {
      assert tags[..j + 1][..j] == tags[..j];
    }
    CataloguedSnoc(store, repos, i);
    CataloguedPrefix(store, repos[..n], i + 1);
    assert repos[..n][..i + 1] == repos[..i + 1];
    PrefixThrough(Catalogued(store, repos[..i]), Images(repo, tags[..j]), Image(repo, tags[j]), Images(repo, tags),
                  Catalogued(store, repos[..n]));
  }

  lemma ImagesStep(repo: Repo, tags: seq<string>, j: nat)
    requires j < |tags|
    ensures Images(repo, tags[..j + 1]) == Images(repo, tags[..j])
      + if IsArtifactTag(tags[j]) then [] else [Image(repo, tags[j])]
  {
    assert tags[..j + 1][..j] == tags[..j];
  }

  lemma NothingYet(store: Store, repo: Repo)
    ensures Catalogued(store, []) == [] && Images(repo, []) == []
  {
  }

  method ScanImages(store: Store, c: Crypto, key: Key, repos: seq<Repo>, scanCap: int)
    returns (r: Result<Usage, StoreError>)
    ensures r == UsageOf(store, c, key, repos, scanCap)
  {
    hide Catalogued, Images, Answer, IsArtifactTag;
    var scanned, count, capped := 0, 0, false;
    ghost var seen: seq<Image> := [];
    assert repos[..0] == [];
    NothingYet(store, "");
    label scan: for i := 0 to |repos|
      invariant forall k :: 0 <= k < i ==> store.tags(repos[k]).Success?
      invariant seen == Catalogued(store, repos[..i]) && !capped
      invariant scanned == |seen| <= Limit(scanCap) && count == Protected(store, c, key, seen)
    {
      var ref := repos[i];
      var listing := store.tags(ref);
      if listing.Failure? {
        assert Readable(store, repos) == i;
        return Failure(listing.error);
      }
      var tags := listing.value;
      assert tags[..0] == [];
      NothingYet(store, ref);
      for j := 0 to |tags|
        invariant seen == Catalogued(store, repos[..i]) + Images(ref, tags[..j]) && !capped
        invariant scanned == |seen| <= Limit(scanCap) && count == Protected(store, c, key, seen)
      {
        ImagesStep(ref, tags, j);
        if IsArtifactTag(tags[j]) { continue; }
        if scanned >= scanCap {
          capped := true;
          PastTheCap(store, repos, i, j);
          break scan;
        }
        scanned := scanned + 1;
        ghost var before := seen;
        seen := seen + [Image(ref, tags[j])];
        assert seen[..|seen| - 1] == before;
        var manifest := store.resolve(ref, tags[j]);
        if manifest.Failure? { continue; }
        var matched := Matches(store, c, ref, manifest.value.digest, key);
        if matched.Failure? || !matched.value { continue; }
        count := count + 1;
      }
      assert tags[..|tags|] == tags;
      CataloguedSnoc(store, repos, i);
    }
    if !capped {
      assert repos[..|repos|] == repos && Readable(store, repos) == |repos|;
    }
    return Success(Usage(count, capped));
  }

  function Reported(usage: Result<Usage, StoreError>): Result<Usage, ScopeError> {
    match usage
    case Failure(e) => Failure(ListingFailed(e))
    case Success(found) => Success(found)
  }

  method CountManifestsSignedByKey(store: Store, c: Crypto, parse: string -> Option<Repo>, repository: string,
                                   key: Key, scanCap: int)
    returns (r: Result<Usage, ScopeError>)
    ensures Trim(repository) == "" && store.catalog.Failure? ==> r == Failure(ListingFailed(store.catalog.error))
    ensures Trim(repository) == "" && store.catalog.Success? ==>
      r == Reported(UsageOf(store, c, key, store.catalog.value, scanCap))
    ensures Trim(repository) != "" && parse(Trim(repository)).None? ==> r == Failure(InvalidRepository)
    ensures Trim(repository) != "" && parse(Trim(repository)).Some? ==>
      r == Reported(UsageOf(store, c, key, [parse(Trim(repository)).value], scanCap))
  {
    var repos := ScanRepositories(store, parse, repository);
    if repos.Failure? { return Failure(repos.error); }
    var usage := ScanImages(store, c, key, repos.value, scanCap);
    return Reported(usage);
  }

  // --------------------------------------------------- what the answer means

  ghost function Hits(store: Store, c: Crypto, key: Key, images: seq<Image>): set<nat> {
    set i: nat | i < |images| && Protects(store, c, key, images[i])
  }

  /** The count is the number of image positions that verify: an unreadable or broken one is no match. */
  lemma {:induction false} ProtectedCounts(store: Store, c: Crypto, key: Key, images: seq<Image>)
    ensures Protected(store, c, key, images) == |Hits(store, c, key, images)|
  {
    hide Answer;
    if images != [] {
      var init, n := images[..|images| - 1], |images| - 1;
      ProtectedCounts(store, c, key, init);
      assert Hits(store, c, key, images) ==
             Hits(store, c, key, init) + if Protects(store, c, key, images[n]) then {n} else {};
    }
  }

  lemma {:induction false} ProtectedMonotone(store: Store, c: Crypto, key: Key, images: seq<Image>, i: nat)
    requires i <= |images|
    ensures Protected(store, c, key, images[..i]) <= Protected(store, c, key, images)
    ensures Protected(store, c, key, images) - Protected(store, c, key, images[..i]) <= |images| - i
  {
    if i == |images| {
      assert images[..i] == images;
    } else {
      ProtectedMonotone(store, c, key, images[..|images| - 1], i);
      assert images[..|images| - 1][..i] == images[..i];
    }
  }

  /** A larger cap never counts fewer and never turns a complete count into a capped one. */
  lemma UsageMonotone(store: Store, c: Crypto, key: Key, repos: seq<Repo>, low: int, high: int)
    requires low <= high
    requires UsageOf(store, c, key, repos, low).Success? && UsageOf(store, c, key, repos, high).Success?
    ensures var less, more := UsageOf(store, c, key, repos, low).value, UsageOf(store, c, key, repos, high).value;
      less.count <= more.count && (more.capped ==> less.capped) && (!less.capped ==> more == less)
  {
    hide Protected;
    var images := Catalogued(store, repos[..Readable(store, repos)]);
    if |images| > Limit(high) {
      ProtectedMonotone(store, c, key, images[..Limit(high)], Limit(low));
      assert images[..Limit(high)][..Limit(low)] == images[..Limit(low)];
    } else if |images| > Limit(low) {
      ProtectedMonotone(store, c, key, images, Limit(low));
    }
  }

  /**
   With every listing readable: capped exactly when more images exist than the cap, exact when not
   capped, and otherwise "at least": never above the true total, and short by no more than the
   images left out.
   */
  lemma UsageWithoutErrors(store: Store, c: Crypto, key: Key, repos: seq<Repo>, scanCap: int)
    requires forall i :: 0 <= i < |repos| ==> store.tags(repos[i]).Success?
    ensures var r, images := UsageOf(store, c, key, repos, scanCap), Catalogued(store, repos);
      && r.Success? && (r.value.capped <==> |images| > Limit(scanCap))
      && r.value.count <= |Hits(store, c, key, images)| && r.value.count <= Limit(scanCap)
      && (!r.value.capped ==> r.value.count == |Hits(store, c, key, images)|)
      && (r.value.capped ==> |Hits(store, c, key, images)| - r.value.count <= |images| - Limit(scanCap))
      && (r.value.capped ==> r.value.count == |Hits(store, c, key, images[..Limit(scanCap)])|)
  {
    var images := Catalogued(store, repos);
    assert Readable(store, repos) == |repos| && repos[..|repos|] == repos;
    ProtectedCounts(store, c, key, images);
    ProtectedBounded(store, c, key, images);
    if |images| > Limit(scanCap) {
      ProtectedMonotone(store, c, key, images, Limit(scanCap));
      ProtectedCounts(store, c, key, images[..Limit(scanCap)]);
      ProtectedBounded(store, c, key, images[..Limit(scanCap)]);
    }
  }

  lemma ProtectedBounded(store: Store, c: Crypto, key: Key, images: seq<Image>)
    ensures Protected(store, c, key, images) <= |images|
  {
    ProtectedMonotone(store, c, key, images, 0);
    assert images[..0] == [];
  }

  /** A listing error surfaces exactly when the cap is not passed before the broken listing. */
  lemma ListingErrorIff(store: Store, c: Crypto, key: Key, repos: seq<Repo>, bad: nat, scanCap: int)
    requires bad < |repos| && store.tags(repos[bad]).Failure?
    requires forall i :: 0 <= i < bad ==> store.tags(repos[i]).Success?
    ensures UsageOf(store, c, key, repos, scanCap).Failure? <==> |Catalogued(store, repos[..bad])| <= Limit(scanCap)
    ensures UsageOf(store, c, key, repos, scanCap).Failure?
      ==> UsageOf(store, c, key, repos, scanCap).error == store.tags(repos[bad]).error
    ensures UsageOf(store, c, key, repos, scanCap).Success? ==>
      var images := Catalogued(store, repos[..bad]);
      |images| > Limit(scanCap) && UsageOf(store, c, key, repos, scanCap).value
        == Usage(|Hits(store, c, key, images[..Limit(scanCap)])|, true)
  {
    hide Protected, Catalogued;
    assert Readable(store, repos) == bad;
    var images := Catalogued(store, repos[..bad]);
    if |images| > Limit(scanCap) { ProtectedCounts(store, c, key, images[..Limit(scanCap)]); }
  }

  ghost function WithAccessory(store: Store, repo: Repo, at: nat, name: string): Store
    requires store.tags(repo).Success? && at <= |store.tags(repo).value|
  {
    var tags := store.tags(repo).value;
    store.(tags := r => if r == repo then Success(tags[..at] + [name] + tags[at..]) else store.tags(r))
  }

  lemma {:induction false} ImagesOfConcat(repo: Repo, a: seq<string>, b: seq<string>)
    ensures Images(repo, a + b) == Images(repo, a) + Images(repo, b)
  {
    if b == [] {
      assert a + b == a;
    } else {
      var init := b[..|b| - 1];
      ImagesOfConcat(repo, a, init);
      assert (a + b)[..|a + b| - 1] == a + init;
    }
  }

  lemma {:induction false} CataloguedOfConcat(store: Store, a: seq<Repo>, b: seq<Repo>)
    ensures Catalogued(store, a + b) == Catalogued(store, a) + Catalogued(store, b)
  {
    hide Images;
    if b == [] {
      assert a + b == a;
    } else {
      var init := b[..|b| - 1];
      CataloguedOfConcat(store, a, init);
      assert (a + b)[..|a + b| - 1] == a + init;
    }
  }

  /**
   Which images there are, and in which order: repository after repository, tag after tag, each tag that no
   digest's signature or bundle goes by.
   */
  lemma CatalogExact(store: Store, a: seq<Repo>, b: seq<Repo>, repo: Repo, front: seq<string>, name: string,
                     back: seq<string>)
    ensures Catalogued(store, a + [repo] + b)
      == Catalogued(store, a) + (if store.tags(repo).Success? then Images(repo, store.tags(repo).value) else [])
         + Catalogued(store, b)
    ensures Images(repo, front + [name] + back)
      == Images(repo, front)
         + (if exists d :: SignatureTag(d) == Some(name) || BundleIndexTag(d) == Some(name) then []
            else [Image(repo, name)])
         + Images(repo, back)
    ensures Catalogued(store, []) == [] && Images(repo, []) == []
  {
    CataloguedOfConcat(store, a + [repo], b);
    CataloguedOfConcat(store, a, [repo]);
    assert [repo][..0] == [] && [name][..0] == [];
    ImagesOfConcat(repo, front + [name], back);
    ImagesOfConcat(repo, front, [name]);
    ArtifactTagIff(name);
    hide IsArtifactTag, SignatureTag, BundleIndexTag;
  }

  lemma {:induction false} CataloguedAgrees(store: Store, other: Store, repos: seq<Repo>)
    requires forall r :: store.tags(r).Success? == other.tags(r).Success?
    requires forall r :: store.tags(r).Success? ==> Images(r, store.tags(r).value) == Images(r, other.tags(r).value)
    ensures Catalogued(store, repos) == Catalogued(other, repos) && Readable(store, repos) == Readable(other, repos)
  {
    if repos != [] { CataloguedAgrees(store, other, repos[..|repos| - 1]); }
  }

  /** Signing an image adds accessory tags to the catalog; they use up no cap and change no answer's scope. */
  lemma AccessoryTagsIgnored(store: Store, repo: Repo, at: nat, name: string, repos: seq<Repo>)
    requires store.tags(repo).Success? && at <= |store.tags(repo).value| && IsArtifactTag(name)
    ensures Catalogued(WithAccessory(store, repo, at, name), repos) == Catalogued(store, repos)
    ensures Readable(WithAccessory(store, repo, at, name), repos) == Readable(store, repos)
  {
    var other, tags := WithAccessory(store, repo, at, name), store.tags(repo).value;
    assert tags == tags[..at] + tags[at..];
    ImagesOfConcat(repo, tags[..at], tags[at..]);
    ImagesOfConcat(repo, tags[..at] + [name], tags[at..]);
    ImagesOfConcat(repo, tags[..at], [name]);
    assert Images(repo, [name]) == [];
    CataloguedAgrees(store, other, repos);
  }
}
