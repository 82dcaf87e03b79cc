/** Three claims the collector's design makes that need a condition, each refuted by a run from an empty registry. */
module GcWitnesses {
  import opened Wrappers
  import opened GcProtocol
  import opened GcCandidates
  import opened GcSafety
  import opened GcExactness
  import opened Text

  const EMPTY := World(Registry(0, map[], map[], map[], map[]), Collector(true, map[], map[], None, map[]))

  /** Call "b" is one step from unlinking `d`, an old unreferenced file. */
  ghost predicate AboutToTake(w: World, d: Digest) {
    && w.reg == Registry(GRACE_WINDOW + 1, map[d := Blob(1, 0)], map[d := 1], map[], map[])
    && "b" in w.gc.calls && w.gc.calls["b"].Sweeping? && w.gc.calls["b"].tally == NO_TALLY
    && w.gc.calls["b"].report.candidates != [] && w.gc.calls["b"].report.candidates[0].digest == d
    && d in w.gc.calls["b"].snapshot.freshSet && w.gc.calls["b"].snapshot.now == w.reg.clock
    && w.gc.calls["b"].id == "r" && Freezable(w.gc, "r") && w.gc.calls["b"].report.candidates[0].size == 1
  }

  lemma OneFileIsGarbage(d: Digest)
    ensures Enumerates([BlobInfo(d, 1, 0)], map[d := Blob(1, 0)])
    ensures Digests(Candidates([BlobInfo(d, 1, 0)], {}, GRACE_WINDOW + 1)) == {d}
    ensures var cs := Candidates([BlobInfo(d, 1, 0)], {}, GRACE_WINDOW + 1);
      cs != [] && cs[0].digest == d && cs[0].size == 1
  {
    var listing, blobs := [BlobInfo(d, 1, 0)], map[d := Blob(1, 0)];
    assert listing[0].digest == d;
    CandidatesAreGarbage(listing, blobs, {}, GRACE_WINDOW + 1);
    var cs := Candidates(listing, {}, GRACE_WINDOW + 1);
    assert Garbage(blobs, {}, GRACE_WINDOW + 1) == {d};
    assert cs != [] by { assert d in Digests(cs); }
    assert cs[0].digest in Digests(cs);
    CandidateMembers(listing, {}, GRACE_WINDOW + 1);
    assert cs[0] in cs;
  }

  lemma OldFile(d: Digest) returns (run: seq<Step>)
    requires ValidDigest(d)
    ensures Run(EMPTY, run) == World(Registry(GRACE_WINDOW + 1, map[d := Blob(1, 0)], map[d := 1], map[], map[]),
      EMPTY.gc)
  {
    var commit, age := Outside(CommitBlob(d, 1, 0)), Outside(Advance(GRACE_WINDOW + 1));
    RunSnoc(EMPTY, [], commit);
    RunSnoc(EMPTY, [] + [commit], age);
    run := [] + [commit] + [age];
  }

  lemma ReachAboutToTake(d: Digest) returns (run: seq<Step>)
    requires ValidDigest(d)
    ensures AboutToTake(Run(EMPTY, run), d)
  {
    var start := OldFile(d);
    hide Next, NextCall, NextEnv, Unlinked;
    var listing := [BlobInfo(d, 1, 0)];
    OneFileIsGarbage(d);
    var w := Run(EMPTY, start);
    assert Marked(w.reg.manifests) == {};
    var preview, opening := Acts("a", PreviewActions(listing, "r")), Acts("b", OpeningActions(listing, "r"));
    PreviewResult(w, "a", listing, "r");
    var v := Run(w, preview);
    OpeningCalls(v.gc, v.reg, "b", listing, "r");
    QuietRun(v, "b", OpeningActions(listing, "r"));
    run := start + preview + opening;
    RunConcat(EMPTY, start, preview);
    RunConcat(EMPTY, start + preview, opening);
  }

  /**
   "The grace window protects every young file" fails: a file re-uploaded after the call listed
   its old copy is unlinked although it was written this instant.
   */
  lemma FreshUploadIsTaken(d: Digest) returns (run: seq<Step>)
    requires ValidDigest(d)
    ensures var w := Run(EMPTY, run);
      d in w.reg.blobs && w.reg.blobs[d].mtime == w.reg.clock && d in Unlinked(w, Act("b", Sweep(NoFault)))
  {
    run := ReachAboutToTake(d);
    var v := Run(EMPTY, run);
    var upload := Outside(CommitBlob(d, 1, v.reg.clock));
    RunSnoc(EMPTY, run, upload);
    run := run + [upload];
  }

  /**
   "A referenced blob is never unlinked" fails when a push's existence check and its write stand on
   either side of the unlink: the manifest is published over a file that is gone.
   */
  lemma PublishCanDangle(d: Digest, key: ManifestKey) returns (run: seq<Step>)
    requires ValidDigest(d)
    ensures !Referenced(Run(EMPTY, run).reg)
  {
    run := ReachAboutToTake(d);
    var w := Run(EMPTY, run);
    var check, sweep, write := Outside(PublishCheck("p", key, {d})), Act("b", Sweep(NoFault)),
      Outside(PublishWrite("p"));
    RunSnoc(EMPTY, run, check);
    RunSnoc(EMPTY, run + [check], sweep);
    RunSnoc(EMPTY, run + [check] + [sweep], write);
    var u := Next(w, check);
    assert u.reg.manifests == map[] && Unlinked(u, sweep) == {d};
    var v := Next(Next(u, sweep), write);
    assert d in v.reg.manifests[key] && d !in v.reg.blobs;
    run := run + [check] + [sweep] + [write];
  }

  /**
   "A report says what its deletion reclaimed" fails for a call that ends before it freezes the report: the
   file is gone, the report still reads as unused, and the byte is on no book.
   */
  lemma FailedSweepLeavesNoRecord(d: Digest) returns (run: seq<Step>)
    requires ValidDigest(d)
    ensures var w := Run(EMPTY, run);
      d !in w.reg.blobs && Freezable(w.gc, "r") && "b" !in w.gc.calls && TotalLost(EMPTY, run) > 0
  {
    run := ReachAboutToTake(d);
    var w := Run(EMPTY, run);
    var sweep, fail := Act("b", Sweep(NoFault)), Act("b", Fail);
    RunSnoc(EMPTY, run, sweep);
    RunSnoc(EMPTY, run + [sweep], fail);
    var u := Next(w, sweep);
    assert Unlinked(w, sweep) == {d};
    assert u.gc.calls["b"].tally.bytesReclaimed == 1;
    var v := Next(u, fail);
    assert (run + [sweep] + [fail])[..|run| + 1] == run + [sweep];
    run := run + [sweep] + [fail];
  }
}
