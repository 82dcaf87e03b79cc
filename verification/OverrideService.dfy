/** The admin operations over the stored override rows. */
module OverrideService {
  import opened Wrappers
  import opened Ordering
  import opened Text
  import opened Overrides

  function RepositoryOf(o: Override): string { o.repository }

  ghost predicate IsRow(rows: map<Key, Row>, tenant: string, feature: string, o: Override) {
    var key := Key(tenant, o.repository, feature);
    o.feature == feature && key in rows && rows[key] == Row(o.payload, o.updatedAt)
  }

  /** A listing of one tenant's rows for one feature: every row once, ascending by repository. */
  ghost predicate Lists(rows: map<Key, Row>, tenant: string, feature: string, listing: seq<Override>) {
    && StrictlySorted(RepositoryOf, listing)
    && (forall o :: o in listing <==> IsRow(rows, tenant, feature, o))
  }

  ghost function Found(rows: map<Key, Row>, key: Key): Result<Override, Problem> {
    if key in rows then Success(Override(key.repository, key.feature, rows[key].payload, rows[key].updatedAt))
    else Failure(NoOverride)
  }

  ghost predicate Addressed(env: Env, repository: string, feature: string) {
    ParseRepository(env, repository).Some? && FeatureNamed(feature).Some?
  }

  ghost function Refusal(env: Env, repository: string): Problem {
    if ParseRepository(env, repository).None? then InvalidRepository else UnknownFeature
  }

  class Service {
    const env: Env
    var rows: map<Key, Row>

    constructor (env: Env)
      ensures this.env == env && rows == map[]
    {
      this.env := env;
      rows := map[];
    }

    /** The store's query, ordered by repository. */
    method ListRows(tenant: string, feature: string) returns (listing: seq<Override>)
      ensures Lists(rows, tenant, feature, listing)
    {
      var found: seq<Override> := [];
      var pending := rows.Keys;
      while pending != {}
        invariant pending <= rows.Keys && DistinctKeys(RepositoryOf, found)
        invariant forall o :: o in found <==>
          (IsRow(rows, tenant, feature, o) && Key(tenant, o.repository, feature) !in pending)
        decreases |pending|
      {
        var key :| key in pending;
        pending := pending - {key};
        if key.tenant == tenant && key.feature == feature {
          var row := Override(key.repository, feature, rows[key].payload, rows[key].updatedAt);
          assert forall i :: 0 <= i < |found| ==> found[i] in found;
          found := found + [row];
        }
      }
      listing := SortBy(RepositoryOf, found);
      SortByStrict(RepositoryOf, found);
      assert forall o :: o in listing <==> o in multiset(listing);
      assert forall o :: o in found <==> o in multiset(found);
    }

    /** The list search over the rows agrees with the keyed lookup resolution uses. */
    method GetRepositoryOverride(tenant: string, repository: string, feature: string, fault: Fault)
      returns (r: Result<Override, Problem>)
      ensures r == if !Addressed(env, repository, feature) then Failure(Refusal(env, repository))
                   else if fault == ReadFails then Failure(StoreFailed)
                   else Found(rows, Key(tenant, Trim(repository), feature))
    {
      var ref := ParseRepository(env, repository);
      if ref.None? { return Failure(InvalidRepository); }
      if FeatureNamed(feature).None? { return Failure(UnknownFeature); }
      if fault == ReadFails { return Failure(StoreFailed); }
      var overrides := ListRows(tenant, feature);
      for i := 0 to |overrides|
        invariant forall k :: 0 <= k < i ==> overrides[k].repository != ref.value
      {
        if overrides[i].repository == ref.value {
          assert overrides[i] in overrides;
          return Success(overrides[i]);
        }
      }
      ghost var key := Key(tenant, ref.value, feature);
      if key in rows {
        assert IsRow(rows, tenant, feature, Override(ref.value, feature, rows[key].payload, rows[key].updatedAt));
      }
      return Failure(NoOverride);
    }

    method ListRepositoryOverrides(tenant: string, feature: string, fault: Fault)
      returns (r: Result<seq<Override>, Problem>)
      ensures FeatureNamed(feature).None? ==> r == Failure(UnknownFeature)
      ensures FeatureNamed(feature).Some? && fault == ReadFails ==> r == Failure(StoreFailed)
      ensures FeatureNamed(feature).Some? && fault != ReadFails ==> r.Success? && Lists(rows, tenant, feature, r.value)
    {
      if FeatureNamed(feature).None? { return Failure(UnknownFeature); }
      if fault == ReadFails { return Failure(StoreFailed); }
      var listing := ListRows(tenant, feature);
      return Success(listing);
    }

    /** The registered codec's Normalize. */
    method Normalize(feature: Feature, body: Body) returns (r: Result<Body, Problem>)
      ensures r == Encoded(env, feature, body)
    {
      match feature {
        case Trivy =>
          var request := env.trivy.strict(body);
          if request.None? { return Failure(Malformed); }
          var row := NormalizeTrivy(env, request.value);
          return if row.Failure? then Failure(row.error) else Success(env.trivy.encode(row.value));
        case Gitleaks =>
          var request := env.gitleaks.strict(body);
          if request.None? { return Failure(Malformed); }
          var row := NormalizeGitleaks(env, request.value);
          return if row.Failure? then Failure(row.error) else Success(env.gitleaks.encode(row.value));
        case Signing =>
          var request := env.signing.strict(body);
          if request.None? { return Failure(Malformed); }
          var row := NormalizeSigning(env, request.value);
          return if row.Failure? then Failure(row.error) else Success(env.signing.encode(row.value));
      }
    }

    /** A write whose read-back fails has still been stored. */
    method SetRepositoryOverride(tenant: string, repository: string, feature: string, body: Body, now: int,
                                 fault: Fault)
      returns (r: Result<Override, Problem>)
      modifies this
      ensures rows == Apply(env, old(rows), Set(tenant, repository, feature, body, now, fault))
      ensures !Addressed(env, repository, feature) ==> r == Failure(Refusal(env, repository))
      ensures Addressed(env, repository, feature) ==>
        match Encoded(env, FeatureNamed(feature).value, body)
        case Failure(p) => r == Failure(p)
        case Success(payload) =>
          var written := Override(Trim(repository), feature, payload, now);
          r == if fault == NoFault then Success(written) else Failure(StoreFailed)
    {
      var ref := ParseRepository(env, repository);
      if ref.None? { return Failure(InvalidRepository); }
      var codec := FeatureNamed(feature);
      if codec.None? { return Failure(UnknownFeature); }
      var normalized := Normalize(codec.value, body);
      if normalized.Failure? { return Failure(normalized.error); }
      if fault == WriteFails { return Failure(StoreFailed); }
      rows := rows[Key(tenant, ref.value, feature) := Row(normalized.value, now)];
      TrimIdempotent(repository);
      r := GetRepositoryOverride(tenant, ref.value, feature, fault);
    }

    method ClearRepositoryOverride(tenant: string, repository: string, feature: string, fault: Fault)
      returns (r: Result<bool, Problem>)
      modifies this
      ensures rows == Apply(env, old(rows), Clear(tenant, repository, feature, fault))
      ensures !Addressed(env, repository, feature) ==> r == Failure(Refusal(env, repository))
      ensures Addressed(env, repository, feature) ==>
        r == if fault == WriteFails then Failure(StoreFailed)
             else if Key(tenant, Trim(repository), feature) in old(rows) then Success(true) else Failure(NoOverride)
    {
      var ref := ParseRepository(env, repository);
      if ref.None? { return Failure(InvalidRepository); }
      if FeatureNamed(feature).None? { return Failure(UnknownFeature); }
      if fault == WriteFails { return Failure(StoreFailed); }
      var key := Key(tenant, ref.value, feature);
      var affected := key in rows;
      rows := rows - {key};
      return if affected then Success(true) else Failure(NoOverride);
    }
  }
}
