/** What the shared mark-and-sweep selection computes. */
module GcCandidates {
  import opened Ordering
  import opened GcProtocol

  /** The listing entry a candidate comes from. */
  predicate From(c: Candidate, b: BlobInfo, marks: set<Digest>, cutoff: int) {
    c == Candidate(b.digest, b.size, b.mtime) && Selected(b, marks, cutoff)
  }

  lemma {:induction false} SelectMembers(listing: seq<BlobInfo>, marks: set<Digest>, cutoff: int)
    ensures forall c :: c in Select(listing, marks, cutoff) <==>
                        exists i :: 0 <= i < |listing| && From(c, listing[i], marks, cutoff)
  {
    if listing != [] {
      var k := |listing| - 1;
      SelectMembers(listing[..k], marks, cutoff);
      forall c ensures c in Select(listing, marks, cutoff) <==>
                       exists i :: 0 <= i < |listing| && From(c, listing[i], marks, cutoff) {
        if c in Select(listing[..k], marks, cutoff) {
          var i :| 0 <= i < k && From(c, listing[..k][i], marks, cutoff);
          assert From(c, listing[i], marks, cutoff);
        }
        if i :| 0 <= i < |listing| && From(c, listing[i], marks, cutoff) {
          if i < k { assert From(c, listing[..k][i], marks, cutoff); }
        }
      }
    }
  }

  lemma {:induction false} SelectDistinct(listing: seq<BlobInfo>, marks: set<Digest>, cutoff: int)
    requires DistinctKeys(ListedDigest, listing)
    ensures DistinctKeys(DigestOf, Select(listing, marks, cutoff))
  {
    if listing != [] {
      var k := |listing| - 1;
      forall i, j | 0 <= i < j < k ensures ListedDigest(listing[..k][i]) != ListedDigest(listing[..k][j]) {
        assert listing[..k][i] == listing[i] && listing[..k][j] == listing[j];
      }
      SelectDistinct(listing[..k], marks, cutoff);
      SelectMembers(listing[..k], marks, cutoff);
      var rest := Select(listing[..k], marks, cutoff);
      forall i | 0 <= i < |rest| ensures rest[i].digest != listing[k].digest {
        assert rest[i] in rest;
        var j :| 0 <= j < k && From(rest[i], listing[..k][j], marks, cutoff);
        assert ListedDigest(listing[j]) != ListedDigest(listing[k]);
      }
    }
  }

  lemma CandidateMembers(listing: seq<BlobInfo>, marks: set<Digest>, now: int)
    ensures forall c :: c in Candidates(listing, marks, now) <==>
                        exists i :: 0 <= i < |listing| && From(c, listing[i], marks, now - GRACE_WINDOW)
  {
    var chosen := Select(listing, marks, now - GRACE_WINDOW);
    SelectMembers(listing, marks, now - GRACE_WINDOW);
    forall c ensures c in chosen <==> c in Candidates(listing, marks, now) {
      assert c in multiset(chosen) <==> c in multiset(Candidates(listing, marks, now));
    }
  }

  lemma CandidatesSorted(listing: seq<BlobInfo>, marks: set<Digest>, now: int)
    requires DistinctKeys(ListedDigest, listing)
    ensures StrictlySorted(DigestOf, Candidates(listing, marks, now))
  {
    SelectDistinct(listing, marks, now - GRACE_WINDOW);
    SortByStrict(DigestOf, Select(listing, marks, now - GRACE_WINDOW));
  }

  /** A digest is selected exactly when its listing entry is unmarked and older than the cutoff. */
  lemma DigestsOfCandidates(listing: seq<BlobInfo>, marks: set<Digest>, now: int, d: Digest)
    ensures d in Digests(Candidates(listing, marks, now)) <==>
            exists i :: 0 <= i < |listing| && listing[i].digest == d && Selected(listing[i], marks, now - GRACE_WINDOW)
  {
    CandidateMembers(listing, marks, now);
    var cs := Candidates(listing, marks, now);
    if d in Digests(cs) {
      var k :| 0 <= k < |cs| && cs[k].digest == d;
      assert cs[k] in cs;
      var i :| 0 <= i < |listing| && From(cs[k], listing[i], marks, now - GRACE_WINDOW);
    }
    if i :| 0 <= i < |listing| && listing[i].digest == d && Selected(listing[i], marks, now - GRACE_WINDOW) {
      var c := Candidate(d, listing[i].size, listing[i].mtime);
      assert From(c, listing[i], marks, now - GRACE_WINDOW);
      assert c in cs;
    }
  }

  /** Over a complete listing the selection is the garbage on disk: unmarked and out of the grace window. */
  lemma CandidatesAreGarbage(listing: seq<BlobInfo>, blobs: map<Digest, Blob>, marks: set<Digest>, now: int)
    requires Enumerates(listing, blobs)
    ensures Digests(Candidates(listing, marks, now)) == Garbage(blobs, marks, now)
    ensures forall c :: c in Candidates(listing, marks, now) ==>
                        c.digest in blobs && blobs[c.digest] == Blob(c.size, c.mtime)
  {
    forall d ensures d in Digests(Candidates(listing, marks, now)) <==> d in Garbage(blobs, marks, now) {
      DigestsOfCandidates(listing, marks, now, d);
    }
    CandidateMembers(listing, marks, now);
  }

  /** The result does not depend on the order in which the blob store lists its files. */
  lemma CandidatesCanonical(a: seq<BlobInfo>, b: seq<BlobInfo>, blobs: map<Digest, Blob>, marks: set<Digest>, now: int)
    requires Enumerates(a, blobs) && Enumerates(b, blobs)
    ensures Candidates(a, marks, now) == Candidates(b, marks, now)
    ensures StrictlySorted(DigestOf, Candidates(a, marks, now))
  {
    var xs, ys := Candidates(a, marks, now), Candidates(b, marks, now);
    CandidatesSorted(a, marks, now);
    CandidatesSorted(b, marks, now);
    CandidateMembers(a, marks, now);
    CandidateMembers(b, marks, now);
    forall c ensures c in xs <==> c in ys {
      if i :| 0 <= i < |a| && From(c, a[i], marks, now - GRACE_WINDOW) {
        var j :| 0 <= j < |b| && b[j].digest == a[i].digest;
        assert From(c, b[j], marks, now - GRACE_WINDOW);
      }
      if j :| 0 <= j < |b| && From(c, b[j], marks, now - GRACE_WINDOW) {
        var i :| 0 <= i < |a| && a[i].digest == b[j].digest;
        assert From(c, a[i], marks, now - GRACE_WINDOW);
      }
    }
    SortedSameMembers(DigestOf, xs, ys);
  }

  /** Later clocks and more files only add candidates; more marks, of any tenant's manifests, only remove them. */
  lemma CandidatesMonotone(small: seq<BlobInfo>, blobs: map<Digest, Blob>, large: seq<BlobInfo>,
                           more: map<Digest, Blob>,
                           manifests: map<ManifestKey, set<Digest>>, fewer: map<ManifestKey, set<Digest>>,
                           now: int, later: int)
    requires Enumerates(small, blobs) && Enumerates(large, more)
    requires forall d :: d in blobs ==> d in more && more[d] == blobs[d]
    requires forall k :: k in fewer ==> k in manifests && fewer[k] <= manifests[k]
    requires now <= later
    ensures Digests(Candidates(small, Marked(manifests), now)) <= Digests(Candidates(large, Marked(fewer), later))
  {
    CandidatesAreGarbage(small, blobs, Marked(manifests), now);
    CandidatesAreGarbage(large, more, Marked(fewer), later);
    assert Marked(fewer) <= Marked(manifests);
  }

  lemma DigestsSnoc(candidates: seq<Candidate>, i: nat)
    requires i < |candidates|
    ensures Digests(candidates[..i + 1]) == Digests(candidates[..i]) + {candidates[i].digest}
  {
    forall x ensures x in Digests(candidates[..i + 1]) <==> x in Digests(candidates[..i]) + {candidates[i].digest} {
      if x in Digests(candidates[..i]) {
        var j :| 0 <= j < i && candidates[..i][j].digest == x;
        assert candidates[..i + 1][j].digest == x;
      }
      if x in Digests(candidates[..i + 1]) {
        var j :| 0 <= j <= i && candidates[..i + 1][j].digest == x;
        if j < i { assert candidates[..i][j].digest == x; }
      }
      assert candidates[..i + 1][i].digest == candidates[i].digest;
    }
  }

  lemma NextDigest(cs: seq<Candidate>, n: nat)
    requires n < |cs| && StrictlySorted(DigestOf, cs)
    ensures cs[n].digest !in Digests(cs[..n])
    ensures Digests(cs[..n + 1]) == Digests(cs[..n]) + {cs[n].digest}
  {
    DigestsSnoc(cs, n);
    forall i | 0 <= i < n ensures cs[i].digest != cs[n].digest {
      assert Less(DigestOf(cs[i]), DigestOf(cs[n]));
      LessIrreflexive(cs[n].digest);
    }
  }
}
