/** What a report may say about each candidate, which reports go, and what the error text counts. */
module GcOutcomes {
  import opened Ordering
  import opened Text
  import opened GcProtocol
  import opened GcCandidates
  import opened GcInvariants
  import opened GcSafety

  ghost predicate MidSweep(w: World, c: CallId) {
    c in w.gc.calls && w.gc.calls[c].Sweeping? && |w.gc.calls[c].tally.outcomes| < |w.gc.calls[c].report.candidates|
  }

  /** The candidate whose turn it is. */
  ghost function Turn(w: World, c: CallId): Digest
    requires MidSweep(w, c)
  {
    w.gc.calls[c].report.candidates[|w.gc.calls[c].tally.outcomes|].digest
  }

  ghost predicate ReferencedNow(r: Registry, d: Digest) { exists k :: k in r.manifests && d in r.manifests[k] }

  /** What the outcome of a turn means, with the snapshot and the manifests of that moment. */
  ghost predicate OutcomeMeans(w: World, c: CallId, f: Fault, o: Outcome)
    requires MidSweep(w, c)
  {
    var d := Turn(w, c);
    var sel, marked := SnapshotSelects(w.gc.calls[c].snapshot, d), ReferencedNow(w.reg, d);
    && (o == Retained <==> !sel || (f != RecheckFails && marked))
    && (o == Failed <==> sel && (f == RecheckFails || (!marked && f == UnlinkFails)))
    && (o == Missing <==> sel && !marked && f == NoFault && d !in w.reg.blobs)
    && (o == Deleted <==> sel && !marked && f == NoFault && d in w.reg.blobs)
  }

  lemma TurnFacts(w: World, c: CallId)
    requires MidSweep(w, c) && CallOk(w, w.gc.calls[c]) && ReportOk(w.reg, w.gc.calls[c].report)
    ensures ValidDigest(Turn(w, c))
    ensures Turn(w, c) in w.gc.calls[c].snapshot.freshSet <==> SnapshotSelects(w.gc.calls[c].snapshot, Turn(w, c))
  {
    var call, d := w.gc.calls[c], Turn(w, c);
    assert call.report.candidates[|call.tally.outcomes|] in call.report.candidates;
    DigestsOfCandidates(call.snapshot.listing, call.snapshot.marks, call.snapshot.now, d);
    hide Candidates, Digests, Accounted, ValidDigest, ListingOk;
  }

  lemma TurnMeans(w: World, c: CallId, f: Fault)
    requires Inv(w) && MidSweep(w, c)
    ensures OutcomeMeans(w, c, f, SweepOutcome(w.reg, w.gc.calls[c], f))
  {
    var call, d := w.gc.calls[c], Turn(w, c);
    assert CallOk(w, call);
    assert ReportOk(w.reg, call.report) by { assert ReportOk(w.reg, w.gc.created[call.id]); }
    hide Inv, CallOk, ReportOk;
    TurnFacts(w, c);
    assert d in Marked(w.reg.manifests) <==> ReferencedNow(w.reg, d);
    hide Marked, ReferencedNow, ValidDigest, SnapshotSelects;
  }

  lemma TurnBooks(w: World, c: CallId, f: Fault)
    requires MidSweep(w, c)
    ensures var (v, o) := (Next(w, Act(c, Sweep(f))), SweepOutcome(w.reg, w.gc.calls[c], f));
      && c in v.gc.calls && v.gc.calls[c].Sweeping?
      && v.gc.calls[c].tally.outcomes == w.gc.calls[c].tally.outcomes + [CandidateOutcome(Turn(w, c), o)]
      && v.reg == w.reg.(blobs := if o == Deleted then w.reg.blobs - {Turn(w, c)} else w.reg.blobs)
  {
    hide SweepOutcome;
    assert w.reg.blobs - {} == w.reg.blobs;
  }

  /**
   One candidate's turn, in every consistent state and with every fault: retained exactly when its own fresh
   snapshot does not select it or a manifest references it now; failed exactly when it is selected and the
   re-check fails, or the unlink does; missing exactly when there is no file left to unlink; and otherwise
   deleted, which is the one outcome that takes the file.
   */
  lemma TurnDecides(w: World, c: CallId, f: Fault)
    requires Inv(w) && MidSweep(w, c)
    ensures var v, before := Next(w, Act(c, Sweep(f))), w.gc.calls[c].tally.outcomes;
      && c in v.gc.calls && v.gc.calls[c].Sweeping? && |v.gc.calls[c].tally.outcomes| == |before| + 1
      && var after := v.gc.calls[c].tally.outcomes;
         && after[..|before|] == before && after[|before|].digest == Turn(w, c)
         && OutcomeMeans(w, c, f, after[|before|].outcome)
         && v.reg == w.reg.(blobs := if after[|before|].outcome == Deleted then w.reg.blobs - {Turn(w, c)}
                                     else w.reg.blobs)
  {
    TurnMeans(w, c, f);
    TurnBooks(w, c, f);
    hide Inv, Next, OutcomeMeans, SweepOutcome;
  }

  // ------------------------------------------------------------- error texts

  ghost predicate HasFailed(outcomes: seq<CandidateOutcome>) {
    exists i :: 0 <= i < |outcomes| && outcomes[i].outcome == Failed
  }

  /** Step `j` is a turn of call `c` in which a store access fails. */
  predicate Faulted(run: seq<Step>, c: CallId, j: nat) {
    j < |run| && run[j].Act? && run[j].call == c && run[j].action.Sweep? && run[j].action.fault != NoFault
  }

  ghost predicate HasFault(run: seq<Step>, c: CallId) { exists j: nat :: Faulted(run, c, j) }

  /** How a sweep came to the outcomes it has: afresh, as before, or by one more turn. */
  lemma SweepGrows(w: World, s: Step, c: CallId)
    requires c in Next(w, s).gc.calls && Next(w, s).gc.calls[c].Sweeping?
    ensures || Next(w, s).gc.calls[c].tally == NO_TALLY
            || (c in w.gc.calls && w.gc.calls[c].Sweeping? && Next(w, s).gc.calls[c].tally == w.gc.calls[c].tally)
            || (MidSweep(w, c) && s.Act? && s.call == c && s.action.Sweep?)
  {
    hide Candidates, Digests, Marked, Enumerates, Book, SweepOutcome, Prune;
    if s.Act? && s.call != c { OthersUntouched(w.gc, w.reg, s.call, s.action, c); }
  }

  lemma {:induction false} FailedHasFault(w0: World, run: seq<Step>, c: CallId)
    requires Initial(w0) && c in Run(w0, run).gc.calls && Run(w0, run).gc.calls[c].Sweeping?
    requires HasFailed(Run(w0, run).gc.calls[c].tally.outcomes)
    ensures HasFault(run, c)
  {
    assert run != [];
    var init, n := run[..|run| - 1], |run| - 1;
    var w := Run(w0, init);
    InvAlways(w0, init);
    SweepGrows(w, run[n], c);
    hide Inv, Next, Initial;
    if MidSweep(w, c) && run[n].Act? && run[n].call == c && run[n].action.Sweep? {
      TurnDecides(w, c, run[n].action.fault);
      assert run[n] == Act(c, Sweep(run[n].action.fault));
      if run[n].action.fault != NoFault {
        assert Faulted(run, c, n);
      } else {
        assert HasFailed(w.gc.calls[c].tally.outcomes) by { NotTheLast(w, c, Run(w0, run)); }
        FailedHasFault(w0, init, c);
        FaultStays(run, c);
      }
    } else if c in w.gc.calls && w.gc.calls[c].Sweeping? && HasFailed(w.gc.calls[c].tally.outcomes) {
      FailedHasFault(w0, init, c);
      FaultStays(run, c);
    }
  }

  lemma NotTheLast(w: World, c: CallId, v: World)
    requires MidSweep(w, c) && c in v.gc.calls && v.gc.calls[c].Sweeping?
    requires var (before, after) := (w.gc.calls[c].tally.outcomes, v.gc.calls[c].tally.outcomes);
      && |after| == |before| + 1 && after[..|before|] == before && OutcomeMeans(w, c, NoFault, after[|before|].outcome)
      && HasFailed(after)
    ensures HasFailed(w.gc.calls[c].tally.outcomes)
  {
    hide SnapshotSelects, ReferencedNow;
    var before, after := w.gc.calls[c].tally.outcomes, v.gc.calls[c].tally.outcomes;
    var i :| 0 <= i < |after| && after[i].outcome == Failed;
    assert i != |before| && before[i] == after[i];
  }

  lemma FaultStays(run: seq<Step>, c: CallId)
    requires run != [] && HasFault(run[..|run| - 1], c)
    ensures HasFault(run, c)
  {
    var j: nat :| Faulted(run[..|run| - 1], c, j);
    assert Faulted(run, c, j);
  }

  /** The report was frozen by a call that had a fault in one of its turns. */
  ghost predicate FrozenAfterFault(run: seq<Step>) {
    exists c: CallId, i: nat :: i < |run| && run[i] == Act(c, Freeze) && HasFault(run[..i], c)
  }

  /** What a frozen report tells the reader about failures. */
  ghost predicate TellsFailures(w: World, id: ReportId)
    requires StageOf(w.gc, id).Frozen?
  {
    var o := StageOf(w.gc, id).outcome;
    o.error == if HasFailed(o.outcomes) then UnlinksFailed(CountOf(o.outcomes, Failed), |w.gc.created[id].candidates|)
               else NoError
  }

  lemma CountFailed(outcomes: seq<CandidateOutcome>)
    ensures CountOf(outcomes, Failed) > 0 <==> HasFailed(outcomes)
  {
    if i :| 0 <= i < |outcomes| && outcomes[i].outcome == Failed { assert i in Positions(outcomes, Failed); }
    if CountOf(outcomes, Failed) > 0 {
      var i :| i in Positions(outcomes, Failed);
    }
  }

  /**
   Over every run: a frozen report's error is empty exactly when no outcome is Failed, and otherwise holds the
   number of Failed outcomes and of candidates; and a report with an error was frozen by a call in one of
   whose turns a store access failed, so a sweep without faults always freezes without an error.
   */
  lemma {:induction false} ErrorsTellFailures(w0: World, run: seq<Step>, id: ReportId)
    requires Initial(w0) && StageOf(Run(w0, run).gc, id).Frozen?
    ensures TellsFailures(Run(w0, run), id)
    ensures StageOf(Run(w0, run).gc, id).outcome.error != NoError ==> FrozenAfterFault(run)
  {
    FrozenTells(w0, run, id);
    if StageOf(Run(w0, run).gc, id).outcome.error != NoError {
      assert run != [];
      var init, n := run[..|run| - 1], |run| - 1;
      var w, v := Run(w0, init), Run(w0, run);
      InvAlways(w0, init);
      StageStep(w, run[n], id);
      if StageOf(w.gc, id).Frozen? {
        hide Inv, Next, Initial, TellsFailures;
        ErrorsTellFailures(w0, init, id);
        EarlierFreeze(run);
      } else {
        var c := FrozenBy(w, run[n], id);
        hide Inv, Next, Initial;
        FailedHasFault(w0, init, c);
        assert run[..n] == init;
      }
    }
  }

  lemma FrozenTells(w0: World, run: seq<Step>, id: ReportId)
    requires Initial(w0) && StageOf(Run(w0, run).gc, id).Frozen?
    ensures TellsFailures(Run(w0, run), id)
  {
    InvAlways(w0, run);
    CountFailed(StageOf(Run(w0, run).gc, id).outcome.outcomes);
    hide CountOf, HasFailed, GateInv, FilesInv, CallsInv;
  }

  lemma EarlierFreeze(run: seq<Step>)
    requires run != [] && FrozenAfterFault(run[..|run| - 1])
    ensures FrozenAfterFault(run)
  {
    var init := run[..|run| - 1];
    var c: CallId, i: nat :| i < |init| && init[i] == Act(c, Freeze) && HasFault(init[..i], c);
    assert init[..i] == run[..i] && run[i] == init[i];
  }

  /** A report becomes frozen by the freeze of one call, with that call's own tally. */
  lemma FrozenBy(w: World, s: Step, id: ReportId) returns (c: CallId)
    requires Inv(w) && !StageOf(w.gc, id).Frozen? && StageOf(Next(w, s).gc, id).Frozen?
    ensures s == Act(c, Freeze) && c in w.gc.calls && w.gc.calls[c].Sweeping?
    ensures var (o, call) := (StageOf(Next(w, s).gc, id).outcome, w.gc.calls[c]);
      && o.outcomes == call.tally.outcomes && o.deletedAt == call.snapshot.now
      && (o.error != NoError ==> HasFailed(o.outcomes))
  {
    c := s.call;
    ReportRows(w.gc, w.reg, c, s.action, id);
    assert CallOk(w, w.gc.calls[c]);
    CountFailed(w.gc.calls[c].tally.outcomes);
    hide CountOf, HasFailed, NextCall, Candidates, Digests, ReportOk, OutcomeOk;
  }

  // --------------------------------------------------------- which rows go

  /** A row goes exactly when a preview starts, and it is unused and its expiry has come. */
  lemma PrunedIff(w: World, s: Step, id: ReportId)
    requires id in w.gc.reports
    ensures id !in Next(w, s).gc.reports
      <==> (&& s.Act? && s.action.ComputeStart? && s.call !in w.gc.calls && w.gc.gate.None?
            && w.gc.reports[id].outcome.None? && w.gc.reports[id].report.expiresAt <= w.reg.clock)
  {
    hide Candidates, Digests, Marked, Enumerates, Book, SweepOutcome, Summary, NewReport;
  }

  /** So over every run a report is there at least until it expires, and for good once it is used. */
  lemma {:induction false} UnexpiredStays(w0: World, run: seq<Step>, id: ReportId)
    requires Inv(w0) && id in w0.gc.reports
    requires w0.gc.reports[id].outcome.Some? || Run(w0, run).reg.clock < w0.gc.reports[id].report.expiresAt
    ensures var v := Run(w0, run);
      id in v.gc.reports && v.gc.reports[id].report == w0.gc.reports[id].report
      && (w0.gc.reports[id].outcome.Some? ==> v.gc.reports[id] == w0.gc.reports[id])
  {
    if run != [] {
      var init, n := run[..|run| - 1], |run| - 1;
      NextGrows(Run(w0, init), run[n]);
      UnexpiredStays(w0, init, id);
      InvAlways(w0, init);
      hide Next, Inv;
      RowStays(Run(w0, init), run[n], id);
    }
  }

  lemma RowStays(w: World, s: Step, id: ReportId)
    requires Inv(w) && id in w.gc.reports
    requires w.gc.reports[id].outcome.Some? || w.reg.clock < w.gc.reports[id].report.expiresAt
    ensures var v := Next(w, s);
      id in v.gc.reports && v.gc.reports[id].report == w.gc.reports[id].report
      && (w.gc.reports[id].outcome.Some? ==> v.gc.reports[id] == w.gc.reports[id])
  {
    PrunedIff(w, s, id);
    hide NextCall, NextEnv, Unlinked, ReportOk, OutcomeOk;
    if s.Act? { ReportRows(w.gc, w.reg, s.call, s.action, id); }
  }

  /**
   Every report ever made expires exactly a day after its computation, lists only files more than a day old
   at that time, in digest order, and counts them and their bytes.
   */
  lemma ReportsAddUp(w0: World, run: seq<Step>, id: ReportId)
    requires Initial(w0) && id in Run(w0, run).gc.created
    ensures var r := Run(w0, run).gc.created[id];
      && r.expiresAt == r.computedAt + 24 * HOUR && r.graceCutoff == r.computedAt - 24 * HOUR
      && r.candidateCount == |r.candidates| && r.candidateBytes == Bytes(r.candidates)
      && StrictlySorted(DigestOf, r.candidates) && (forall c :: c in r.candidates ==> c.mtime < r.graceCutoff)
  {
    InvAlways(w0, run);
    hide CallsInv, GateInv, FilesInv;
  }

  /** A frozen report bears the time at which its call found it unexpired. */
  lemma {:induction false} FrozenInTime(w0: World, run: seq<Step>, id: ReportId)
    requires Initial(w0) && StageOf(Run(w0, run).gc, id).Frozen?
    ensures var (v, o) := (Run(w0, run), StageOf(Run(w0, run).gc, id).outcome);
      o.deletedAt < v.gc.created[id].expiresAt && o.deletedAt <= v.reg.clock
  {
    assert run != [];
    var init, n := run[..|run| - 1], |run| - 1;
    var w, v := Run(w0, init), Run(w0, run);
    InvAlways(w0, init);
    NextGrows(w, run[n]);
    StageStep(w, run[n], id);
    if StageOf(w.gc, id).Frozen? {
      FrozenInTime(w0, init, id);
    } else {
      var c := FrozenBy(w, run[n], id);
      assert CallOk(w, w.gc.calls[c]);
      FreezesOwn(w, c, id);
    }
  }

  lemma FreezesOwn(w: World, c: CallId, id: ReportId)
    requires Inv(w) && !StageOf(w.gc, id).Frozen? && StageOf(Next(w, Act(c, Freeze)).gc, id).Frozen?
    requires c in w.gc.calls && w.gc.calls[c].Sweeping?
    ensures id == w.gc.calls[c].id
  {
    ReportRows(w.gc, w.reg, c, Freeze, id);
    hide Candidates, Digests, Accounted, ReportOk, OutcomeOk;
  }

  ghost predicate AllDeleted(outcomes: seq<CandidateOutcome>) {
    forall i :: 0 <= i < |outcomes| ==> outcomes[i].outcome == Deleted
  }

  lemma {:induction false} DeletedWithinListed(candidates: seq<Candidate>, outcomes: seq<CandidateOutcome>)
    requires |outcomes| == |candidates|
    ensures DeletedBytes(candidates, outcomes) <= Bytes(candidates)
    ensures AllDeleted(outcomes) ==> DeletedBytes(candidates, outcomes) == Bytes(candidates)
  {
    if outcomes != [] {
      var k := |outcomes| - 1;
      DeletedWithinListed(candidates[..k], outcomes[..k]);
      FewerCandidates(candidates, outcomes[..k], k);
    }
  }

  lemma {:induction false} FewerCandidates(candidates: seq<Candidate>, outcomes: seq<CandidateOutcome>, k: nat)
    requires |outcomes| <= k <= |candidates|
    ensures DeletedBytes(candidates[..k], outcomes) == DeletedBytes(candidates, outcomes)
  {
    if outcomes != [] { FewerCandidates(candidates, outcomes[..|outcomes| - 1], k); }
  }

  /** No deletion reclaims more than its preview announced, and one that deletes everything exactly that. */
  lemma ReclaimedWithinPreview(w0: World, run: seq<Step>, id: ReportId)
    requires Initial(w0) && StageOf(Run(w0, run).gc, id).Frozen?
    ensures var (r, o) := (Run(w0, run).gc.created[id], StageOf(Run(w0, run).gc, id).outcome);
      o.bytesReclaimed <= r.candidateBytes && (AllDeleted(o.outcomes) ==> o.bytesReclaimed == r.candidateBytes)
  {
    FrozenReportsAddUp(w0, run, id);
    ReportsAddUp(w0, run, id);
    var (r, o) := (Run(w0, run).gc.created[id], StageOf(Run(w0, run).gc, id).outcome);
    DeletedWithinListed(r.candidates, o.outcomes);
  }
}
