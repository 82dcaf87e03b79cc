/** How much a collection takes: exactly the garbage its preview listed, byte for byte. */
module GcExactness {
  import opened Wrappers
  import opened Ordering
  import opened GcProtocol
  import opened GcCandidates
  import opened GcInvariants
  import opened Sums
  import opened Text

  // ----------------------------------------------------------- conservation

  function SizeOf(b: Blob): nat { b.size }

  ghost function DiskBytes(blobs: map<Digest, Blob>): nat { Total(blobs, SizeOf) }

  lemma DiskBytesMinus(blobs: map<Digest, Blob>, d: Digest)
    requires d in blobs
    ensures DiskBytes(blobs) == blobs[d].size + DiskBytes(blobs - {d})
  {
    TotalMinus(blobs, SizeOf, d);
  }

  /** What a step adds to its call's BytesReclaimed. */
  ghost function Booked(w: World, s: Step): nat {
    if s.Act? && s.action.Sweep? && s.call in w.gc.calls && w.gc.calls[s.call].Sweeping?
       && |w.gc.calls[s.call].tally.outcomes| < |w.gc.calls[s.call].report.candidates|
    then
      var call := w.gc.calls[s.call];
      var k := |call.tally.outcomes|;
      Book(call.tally, call.report.candidates[k], SweepOutcome(w.reg, call, s.action.fault)).bytesReclaimed
      - call.tally.bytesReclaimed
    else 0
  }

  /** What a step uploads that was not on disk. */
  ghost function Uploaded(w: World, s: Step): nat {
    if s.Outside? && s.env.CommitBlob? && s.env.digest in NextEnv(w.reg, s.env).blobs && s.env.digest !in w.reg.blobs
    then s.env.size else 0
  }

  ghost function TotalBooked(w: World, run: seq<Step>): nat {
    if run == [] then 0
    else TotalBooked(w, run[..|run| - 1]) + Booked(Run(w, run[..|run| - 1]), run[|run| - 1])
  }

  ghost function TotalUploaded(w: World, run: seq<Step>): nat {
    if run == [] then 0
    else TotalUploaded(w, run[..|run| - 1]) + Uploaded(Run(w, run[..|run| - 1]), run[|run| - 1])
  }

  lemma CommitBalances(w: World, d: Digest, size: nat, mtime: int)
    requires FilesInv(w.reg)
    ensures var s := Outside(CommitBlob(d, size, mtime));
      DiskBytes(Next(w, s).reg.blobs) == DiskBytes(w.reg.blobs) + Uploaded(w, s)
  {
    TotalPlus(w.reg.blobs, SizeOf, d, Blob(size, mtime));
    if d in w.reg.blobs {
      DiskBytesMinus(w.reg.blobs, d);
    } else {
      assert w.reg.blobs - {d} == w.reg.blobs;
    }
  }

  lemma SweepBalances(w: World, s: Step)
    requires Inv(w) && s.Act?
    ensures DiskBytes(Next(w, s).reg.blobs) + Booked(w, s) == DiskBytes(w.reg.blobs)
  {
    if d :| d in Unlinked(w, s) {
      var call := w.gc.calls[s.call];
      assert CallOk(w, call) && ReportOk(w.reg, call.report);
      var candidate := call.report.candidates[|call.tally.outcomes|];
      assert candidate in call.report.candidates;
      DiskBytesMinus(w.reg.blobs, d);
      assert Unlinked(w, s) == {d};
    } else {
      assert w.reg.blobs - {} == w.reg.blobs;
      assert Unlinked(w, s) == {};
    }
  }

  lemma StepBalances(w: World, s: Step)
    requires Inv(w)
    ensures DiskBytes(Next(w, s).reg.blobs) + Booked(w, s) == DiskBytes(w.reg.blobs) + Uploaded(w, s)
  {
    if s.Act? {
      SweepBalances(w, s);
    } else if s.env.CommitBlob? {
      CommitBalances(w, s.env.digest, s.env.size, s.env.mtime);
    }
  }

  /** Over every run, bytes on disk change by exactly what was uploaded less what sweeps booked as reclaimed. */
  lemma {:induction false} BytesConserved(w: World, run: seq<Step>)
    requires Inv(w)
    ensures DiskBytes(Run(w, run).reg.blobs) + TotalBooked(w, run) == DiskBytes(w.reg.blobs) + TotalUploaded(w, run)
  {
    hide Next, Inv, Booked, Uploaded;
    if run != [] {
      var k := |run| - 1;
      BytesConserved(w, run[..k]);
      InvAlways(w, run[..k]);
      StepBalances(Run(w, run[..k]), run[k]);
    }
  }

  // ---------------------------------------------------------- the byte ledger

  function Reclaimed(row: StoredReport): nat { if row.outcome.Some? then row.outcome.value.bytesReclaimed else 0 }

  /** BytesReclaimed of all frozen reports. */
  ghost function FrozenBytes(g: Collector): nat { Total(g.reports, Reclaimed) }

  /** What the sweep in flight, if any, has booked so far. */
  ghost function SweepingBytes(g: Collector): nat {
    if g.gate.Some? && g.gate.value in g.calls && g.calls[g.gate.value].Sweeping? then
      g.calls[g.gate.value].tally.bytesReclaimed
    else 0
  }

  predicate Freezable(g: Collector, id: ReportId) { id in g.reports && g.reports[id].outcome.None? }

  /** Bytes a step takes off the books for good: a sweep that fails, or finds its report gone or frozen. */
  ghost function Lost(w: World, s: Step): nat {
    if s.Act? && s.call in w.gc.calls && w.gc.calls[s.call].Sweeping? then
      var call := w.gc.calls[s.call];
      if s.action.Fail?
         || (s.action.Freeze? && |call.tally.outcomes| == |call.report.candidates| && !Freezable(w.gc, call.id))
      then call.tally.bytesReclaimed else 0
    else 0
  }

  ghost function TotalLost(w: World, run: seq<Step>): nat {
    if run == [] then 0
    else TotalLost(w, run[..|run| - 1]) + Lost(Run(w, run[..|run| - 1]), run[|run| - 1])
  }

  lemma SweeperHoldsGate(g: Collector, c: CallId)
    requires GateInv(g) && c in g.calls && g.calls[c].Sweeping?
    ensures g.gate == Some(c) && SweepingBytes(g) == g.calls[c].tally.bytesReclaimed
  {
    assert g.calls[c].HoldsGate();
  }

  lemma PrunedBytes(g: Collector, now: int)
    ensures Total(Prune(g.reports, now), Reclaimed) == FrozenBytes(g)
  {
    TotalSame(g.reports, Prune(g.reports, now), Reclaimed);
  }

  lemma RowBytes(g: Collector, id: ReportId, row: StoredReport)
    requires id in g.reports ==> Reclaimed(g.reports[id]) == 0
    ensures Total(g.reports[id := row], Reclaimed) == FrozenBytes(g) + Reclaimed(row)
  {
    TotalPlus(g.reports, Reclaimed, id, row);
    if id in g.reports {
      TotalMinus(g.reports, Reclaimed, id);
    } else {
      assert g.reports - {id} == g.reports;
    }
  }

  lemma StartLedger(w: World, c: CallId, a: Action)
    requires GateInv(w.gc) && c !in w.gc.calls
    ensures var h := NextCall(w.gc, w.reg, c, a);
      FrozenBytes(h) == FrozenBytes(w.gc) && SweepingBytes(h) == SweepingBytes(w.gc)
  {
    PrunedBytes(w.gc, w.reg.clock);
    hide Prune, Total;
  }

  /** A call that is not sweeping moves no bytes on the books. */
  lemma WaitingLedger(w: World, c: CallId, a: Action)
    requires GateInv(w.gc) && ReportsInv(w) && c in w.gc.calls && !w.gc.calls[c].Sweeping?
    ensures var h := NextCall(w.gc, w.reg, c, a);
      FrozenBytes(h) == FrozenBytes(w.gc) && SweepingBytes(h) == SweepingBytes(w.gc)
  {
    var call := w.gc.calls[c];
    if call.Creating? && a.Create? && a.id !in w.gc.created {
      RowBytes(w.gc, a.id, StoredReport(NewReport(call.now, call.candidates), None));
    }
    hide Total, Candidates, Marked, NewReport, Enumerates, Digests, ReportsInv;
  }

  lemma SweepingLedger(w: World, c: CallId, a: Action)
    requires GateInv(w.gc) && c in w.gc.calls && w.gc.calls[c].Sweeping?
    ensures var h := NextCall(w.gc, w.reg, c, a);
      FrozenBytes(h) + SweepingBytes(h) + Lost(w, Act(c, a))
      == FrozenBytes(w.gc) + SweepingBytes(w.gc) + Booked(w, Act(c, a))
  {
    var call := w.gc.calls[c];
    SweeperHoldsGate(w.gc, c);
    if a.Freeze? && |call.tally.outcomes| == |call.report.candidates| && Freezable(w.gc, call.id) {
      var row := w.gc.reports[call.id];
      RowBytes(w.gc, call.id, row.(outcome := Some(Summary(call.tally, |call.report.candidates|, call.snapshot.now))));
    }
    hide Total, GateInv, SweepOutcome;
  }

  lemma StepLedger(w: World, s: Step)
    requires Inv(w)
    ensures FrozenBytes(Next(w, s).gc) + SweepingBytes(Next(w, s).gc) + Lost(w, s)
            == FrozenBytes(w.gc) + SweepingBytes(w.gc) + Booked(w, s)
  {
    if s.Act? {
      if s.call !in w.gc.calls {
        StartLedger(w, s.call, s.action);
      } else if w.gc.calls[s.call].Sweeping? {
        SweepingLedger(w, s.call, s.action);
      } else {
        WaitingLedger(w, s.call, s.action);
      }
    }
    hide NextCall, FrozenBytes, SweepingBytes, Inv;
  }

  /**
   Over every run what sweeps booked is in frozen reports, in the sweep in flight, or was lost by sweeps that
   failed or found their report gone or frozen.
   */
  lemma {:induction false} BookedIsAccounted(w: World, run: seq<Step>)
    requires Inv(w)
    ensures FrozenBytes(Run(w, run).gc) + SweepingBytes(Run(w, run).gc) + TotalLost(w, run)
            == FrozenBytes(w.gc) + SweepingBytes(w.gc) + TotalBooked(w, run)
  {
    hide Next, Inv, Booked, Lost, FrozenBytes, SweepingBytes;
    if run != [] {
      var k := |run| - 1;
      BookedIsAccounted(w, run[..k]);
      InvAlways(w, run[..k]);
      StepLedger(Run(w, run[..k]), run[k]);
    }
  }

  /**
   From an empty registry, whatever happens: all bytes ever uploaded are on disk, in the BytesReclaimed of a
   frozen report, on the books of the sweep in flight, or lost by an unfinished one.
   */
  lemma ByteLedger(w0: World, run: seq<Step>)
    requires Initial(w0)
    ensures DiskBytes(Run(w0, run).reg.blobs) + FrozenBytes(Run(w0, run).gc) + SweepingBytes(Run(w0, run).gc)
            + TotalLost(w0, run) == TotalUploaded(w0, run)
  {
    BytesConserved(w0, run);
    BookedIsAccounted(w0, run);
  }

  /** One sweep step of the call for each fault. */
  function FaultySweeps(c: CallId, faults: seq<Fault>): (r: seq<Step>)
    ensures |r| == |faults|
  {
    seq(|faults|, i requires 0 <= i < |faults| => Act(c, Sweep(faults[i])))
  }

  /** `n` candidates later the call has booked exactly what the disk has lost. */
  ghost predicate SweptOn(w: World, v: World, c: CallId, n: nat)
    requires c in w.gc.calls && w.gc.calls[c].Sweeping?
  {
    && c in v.gc.calls && v.gc.calls[c].Sweeping? && v.gc.reports == w.gc.reports
    && var (before, after) := (w.gc.calls[c], v.gc.calls[c]);
       && after == before.(tally := after.tally) && |after.tally.outcomes| == |before.tally.outcomes| + n
       && DiskBytes(v.reg.blobs) + after.tally.bytesReclaimed == DiskBytes(w.reg.blobs) + before.tally.bytesReclaimed
  }

  lemma SweepStepBytes(w: World, c: CallId, fault: Fault)
    requires Inv(w) && c in w.gc.calls && w.gc.calls[c].Sweeping?
    requires |w.gc.calls[c].tally.outcomes| < |w.gc.calls[c].report.candidates|
    ensures SweptOn(w, Next(w, Act(c, Sweep(fault))), c, 1)
  {
    SweepBalances(w, Act(c, Sweep(fault)));
    hide Inv, DiskBytes, Unlinked, SweepOutcome;
  }

  lemma {:induction false} SweepsBytes(w: World, c: CallId, faults: seq<Fault>)
    requires Inv(w) && c in w.gc.calls && w.gc.calls[c].Sweeping?
    requires |w.gc.calls[c].tally.outcomes| + |faults| <= |w.gc.calls[c].report.candidates|
    ensures Inv(Run(w, FaultySweeps(c, faults))) && SweptOn(w, Run(w, FaultySweeps(c, faults)), c, |faults|)
  {
    hide Next, Inv, DiskBytes;
    InvAlways(w, FaultySweeps(c, faults));
    if faults != [] {
      var init, k := faults[..|faults| - 1], |faults| - 1;
      SweepsBytes(w, c, init);
      assert FaultySweeps(c, faults)[..k] == FaultySweeps(c, init);
      SweepStepBytes(Run(w, FaultySweeps(c, init)), c, faults[k]);
    }
  }

  lemma FreezeKeepsFiles(w: World, c: CallId)
    requires c in w.gc.calls && w.gc.calls[c].Sweeping? && Freezable(w.gc, w.gc.calls[c].id)
    requires |w.gc.calls[c].tally.outcomes| == |w.gc.calls[c].report.candidates|
    ensures var v, id := Next(w, Act(c, Freeze)), w.gc.calls[c].id;
      && v.reg.blobs == w.reg.blobs && id in v.gc.reports && v.gc.reports[id].outcome.Some?
      && v.gc.reports[id].outcome.value.bytesReclaimed == w.gc.calls[c].tally.bytesReclaimed
  {
    assert w.reg.blobs - {} == w.reg.blobs;
  }

  /** With nothing else happening, the disk shrinks by exactly the frozen BytesReclaimed, whatever failed on the way. */
  lemma DeleteReclaimsExactly(w: World, c: CallId, faults: seq<Fault>)
    requires Inv(w) && c in w.gc.calls && w.gc.calls[c].Sweeping? && w.gc.calls[c].tally == NO_TALLY
    requires |faults| == |w.gc.calls[c].report.candidates| && Freezable(w.gc, w.gc.calls[c].id)
    ensures var v, id := Run(w, FaultySweeps(c, faults) + [Act(c, Freeze)]), w.gc.calls[c].id;
      && id in v.gc.reports && v.gc.reports[id].outcome.Some?
      && DiskBytes(v.reg.blobs) + v.gc.reports[id].outcome.value.bytesReclaimed == DiskBytes(w.reg.blobs)
  {
    hide Next, Inv, DiskBytes, Run;
    SweepsBytes(w, c, faults);
    FreezeKeepsFiles(Run(w, FaultySweeps(c, faults)), c);
    RunSnoc(w, FaultySweeps(c, faults), Act(c, Freeze));
  }

  // ------------------------------------------------------- faithful preview

  function Acts(c: CallId, actions: seq<Action>): seq<Step> {
    if actions == [] then [] else [Act(c, actions[0])] + Acts(c, actions[1..])
  }

  /** The same actions seen by the collector alone, over an unchanging registry. */
  function RunCalls(g: Collector, r: Registry, c: CallId, actions: seq<Action>): Collector
    decreases actions
  {
    if actions == [] then g else RunCalls(NextCall(g, r, c, actions[0]), r, c, actions[1..])
  }

  function PreviewActions(listing: seq<BlobInfo>, id: ReportId): seq<Action> {
    [ComputeStart, List(listing), Mark, Create(id)]
  }

  function OpeningActions(listing: seq<BlobInfo>, id: ReportId): seq<Action> {
    [Fetch(id), CheckExpiry, Acquire, List(listing), Mark]
  }

  function Sweeps(c: CallId, n: nat): (r: seq<Step>) {
    if n == 0 then [] else Sweeps(c, n - 1) + [Act(c, Sweep(NoFault))]
  }

  function DeleteRun(c: CallId, listing: seq<BlobInfo>, id: ReportId, n: nat): seq<Step> {
    Acts(c, OpeningActions(listing, id)) + Sweeps(c, n) + [Act(c, Freeze)]
  }

  /** Preview at one instant, delete `wait` later, nothing else in between. */
  function PairRun(c: CallId, first: seq<BlobInfo>, second: seq<BlobInfo>, id: ReportId, wait: nat, n: nat): seq<Step> {
    Acts(c, PreviewActions(first, id)) + [Outside(Advance(wait))] + DeleteRun(c, second, id, n)
  }

  lemma {:induction false} QuietRun(w: World, c: CallId, actions: seq<Action>)
    requires forall i :: 0 <= i < |actions| ==> !actions[i].Sweep?
    ensures Run(w, Acts(c, actions)) == World(w.reg, RunCalls(w.gc, w.reg, c, actions))
    decreases actions
  {
    if actions != [] {
      var s := Act(c, actions[0]);
      assert w.reg.blobs - {} == w.reg.blobs;
      RunConcat(w, [s], Acts(c, actions[1..]));
      assert Run(w, [s]) == Next(w, s) by { assert [s][..0] == []; }
      QuietRun(Next(w, s), c, actions[1..]);
    }
  }

  lemma RunCallsCons(g: Collector, r: Registry, c: CallId, a: Action, rest: seq<Action>)
    ensures RunCalls(g, r, c, [a] + rest) == RunCalls(NextCall(g, r, c, a), r, c, rest)
  {
    assert ([a] + rest)[1..] == rest;
  }

  lemma PreviewCalls(g: Collector, r: Registry, c: CallId, listing: seq<BlobInfo>, id: ReportId)
    requires c !in g.calls && g.gate.None? && id !in g.created && Enumerates(listing, r.blobs)
    ensures var report := NewReport(r.clock, Candidates(listing, Marked(r.manifests), r.clock));
      RunCalls(g, r, c, PreviewActions(listing, id))
      == g.(reports := Prune(g.reports, r.clock)[id := StoredReport(report, None)], created := g.created[id := report])
  {
    hide Candidates, Marked, Prune, NewReport, Enumerates;
    var g1 := NextCall(g, r, c, ComputeStart);
    var g2 := NextCall(g1, r, c, List(listing));
    var g3 := NextCall(g2, r, c, Mark);
    var g4 := NextCall(g3, r, c, Create(id));
    assert g4.calls == g.calls;
    RunCallsCons(g3, r, c, Create(id), []);
    RunCallsCons(g2, r, c, Mark, [Create(id)]);
    RunCallsCons(g1, r, c, List(listing), [Mark, Create(id)]);
    RunCallsCons(g, r, c, ComputeStart, [List(listing), Mark, Create(id)]);
    assert PreviewActions(listing, id) == [ComputeStart] + ([List(listing)] + ([Mark] + ([Create(id)] + [])));
  }

  lemma AdmittedCall(g: Collector, r: Registry, c: CallId, id: ReportId)
    requires c !in g.calls && g.gate.None? && g.deleteEnabled
    requires id in g.reports && g.reports[id].outcome.None? && r.clock < g.reports[id].report.expiresAt
    ensures NextCall(NextCall(NextCall(g, r, c, Fetch(id)), r, c, CheckExpiry), r, c, Acquire)
            == Enter(g, c, Listing(Deletion(id, g.reports[id].report), r.clock)).(gate := Some(c))
  {
    var report := g.reports[id].report;
    assert NextCall(g, r, c, Fetch(id)) == Enter(g, c, Fetched(id, report));
    assert NextCall(Enter(g, c, Fetched(id, report)), r, c, CheckExpiry) == Enter(g, c, Ready(id, report, r.clock));
  }

  lemma OpeningCalls(g: Collector, r: Registry, c: CallId, listing: seq<BlobInfo>, id: ReportId)
    requires c !in g.calls && g.gate.None? && g.deleteEnabled && Enumerates(listing, r.blobs)
    requires id in g.reports && g.reports[id].outcome.None? && r.clock < g.reports[id].report.expiresAt
    ensures var call := AfterMark(Deletion(id, g.reports[id].report), r.clock, listing, Marked(r.manifests));
      RunCalls(g, r, c, OpeningActions(listing, id)) == g.(gate := Some(c), calls := g.calls[c := call])
  {
    hide Candidates, Marked, Prune, NewReport, Enumerates;
    var g1 := NextCall(g, r, c, Fetch(id));
    var g2 := NextCall(g1, r, c, CheckExpiry);
    var g3 := NextCall(g2, r, c, Acquire);
    AdmittedCall(g, r, c, id);
    var g4 := NextCall(g3, r, c, List(listing));
    RunCallsCons(g4, r, c, Mark, []);
    RunCallsCons(g3, r, c, List(listing), [Mark]);
    RunCallsCons(g2, r, c, Acquire, [List(listing), Mark]);
    RunCallsCons(g1, r, c, CheckExpiry, [Acquire, List(listing), Mark]);
    RunCallsCons(g, r, c, Fetch(id), [CheckExpiry, Acquire, List(listing), Mark]);
    assert OpeningActions(listing, id) == [Fetch(id)] + ([CheckExpiry]
      + ([Acquire] + ([List(listing)] + ([Mark] + []))));
  }

  /** Every candidate of the report is still garbage to the call that sweeps it. */
  ghost predicate AllDue(r: Registry, call: Call) {
    && call.Sweeping? && StrictlySorted(DigestOf, call.report.candidates) && call.tally == NO_TALLY
    && forall x :: x in call.report.candidates ==>
         x.digest in call.snapshot.freshSet && ValidDigest(x.digest)
         && x.digest !in Marked(r.manifests) && x.digest in r.blobs
  }

  ghost predicate AllDeleted(outcomes: seq<CandidateOutcome>) {
    forall i :: 0 <= i < |outcomes| ==> outcomes[i].outcome == Deleted
  }

  /** `v` is `w` with the first `n` candidates of call `c` unlinked and booked. */
  ghost predicate Swept(w: World, v: World, c: CallId, n: nat)
    requires c in w.gc.calls && w.gc.calls[c].Sweeping? && n <= |w.gc.calls[c].report.candidates|
  {
    && v.reg == w.reg.(blobs := w.reg.blobs - Digests(w.gc.calls[c].report.candidates[..n]))
    && c in v.gc.calls && v.gc == w.gc.(calls := w.gc.calls[c := v.gc.calls[c]])
    && v.gc.calls[c].Sweeping? && v.gc.calls[c] == w.gc.calls[c].(tally := v.gc.calls[c].tally)
    && |v.gc.calls[c].tally.outcomes| == n && AllDeleted(v.gc.calls[c].tally.outcomes)
  }

  lemma SweptOnce(w: World, v: World, c: CallId, n: nat)
    requires c in w.gc.calls && AllDue(w.reg, w.gc.calls[c]) && n < |w.gc.calls[c].report.candidates|
    requires Swept(w, v, c, n)
    ensures Swept(w, Next(v, Act(c, Sweep(NoFault))), c, n + 1)
  {
    var cs := w.gc.calls[c].report.candidates;
    var call := v.gc.calls[c];
    NextDigest(cs, n);
    assert cs[n] in cs;
    assert SweepOutcome(v.reg, call, NoFault) == Deleted;
    assert Unlinked(v, Act(c, Sweep(NoFault))) == {cs[n].digest};
    assert v.reg.blobs - {cs[n].digest} == w.reg.blobs - Digests(cs[..n + 1]);
  }

  lemma NoneSwept(w: World, c: CallId)
    requires c in w.gc.calls && AllDue(w.reg, w.gc.calls[c])
    ensures Swept(w, w, c, 0)
  {
    var call := w.gc.calls[c];
    assert call.report.candidates[..0] == [] && Digests([]) == {} && w.reg.blobs - {} == w.reg.blobs;
    assert w.gc.calls[c := call] == w.gc.calls;
  }

  lemma {:induction false} SweptAll(w: World, c: CallId, n: nat)
    requires c in w.gc.calls && AllDue(w.reg, w.gc.calls[c]) && n <= |w.gc.calls[c].report.candidates|
    ensures Swept(w, Run(w, Sweeps(c, n)), c, n)
  {
    hide Next, Swept, AllDue, Run;
    if n == 0 {
      NoneSwept(w, c);
      RunNil(w);
    } else {
      SweptAll(w, c, n - 1);
      SweptOnce(w, Run(w, Sweeps(c, n - 1)), c, n - 1);
      RunSnoc(w, Sweeps(c, n - 1), Act(c, Sweep(NoFault)));
    }
  }

  /** The report is frozen with every candidate deleted, and no call is left. */
  ghost predicate Finished(g: Collector, h: Collector, id: ReportId) {
    && h.gate.None? && h.calls == g.calls && h.created == g.created && h.deleteEnabled == g.deleteEnabled
    && id in g.reports && id in h.reports && h.reports[id].outcome.Some?
    && |h.reports[id].outcome.value.outcomes| == |g.reports[id].report.candidates|
    && AllDeleted(h.reports[id].outcome.value.outcomes)
  }

  lemma FreezeFinishes(g: Collector, w: World, v: World, c: CallId, id: ReportId, call: Call)
    requires c !in g.calls && g.gate.None? && id in g.reports && g.reports[id].outcome.None?
    requires w.gc == g.(gate := Some(c), calls := g.calls[c := call])
    requires call.Sweeping? && call.id == id && call.report == g.reports[id].report
    requires Swept(w, v, c, |call.report.candidates|)
    ensures Finished(g, Next(v, Act(c, Freeze)).gc, id)
    ensures Next(v, Act(c, Freeze)).reg == w.reg.(blobs := w.reg.blobs - Digests(call.report.candidates))
  {
    assert v.reg.blobs - {} == v.reg.blobs;
    assert v.gc.calls - {c} == g.calls;
    assert call.report.candidates[..|call.report.candidates|] == call.report.candidates;
  }

  lemma ReportDue(r: Registry, call: Call, since: int)
    requires call.Sweeping? && StrictlySorted(DigestOf, call.report.candidates) && call.tally == NO_TALLY
    requires Digests(call.report.candidates) == Garbage(r.blobs, Marked(r.manifests), since)
    requires Garbage(r.blobs, Marked(r.manifests), since) <= call.snapshot.freshSet
    requires forall d :: d in r.blobs ==> ValidDigest(d)
    ensures AllDue(r, call)
  {
    forall x | x in call.report.candidates ensures x.digest in Garbage(r.blobs, Marked(r.manifests), since) {
      var i :| 0 <= i < |call.report.candidates| && call.report.candidates[i] == x;
    }
  }

  /** A delete whose report lists the garbage of an earlier instant unlinks exactly that. */
  lemma DeleteResult(w: World, c: CallId, listing: seq<BlobInfo>, id: ReportId, since: int)
    requires Inv(w) && c !in w.gc.calls && w.gc.gate.None? && w.gc.deleteEnabled && Enumerates(listing, w.reg.blobs)
    requires id in w.gc.reports && w.gc.reports[id].outcome.None? && w.reg.clock < w.gc.reports[id].report.expiresAt
    requires since <= w.reg.clock
    requires Digests(w.gc.reports[id].report.candidates) == Garbage(w.reg.blobs, Marked(w.reg.manifests), since)
    ensures var v := Run(w, DeleteRun(c, listing, id, |w.gc.reports[id].report.candidates|));
      && v.reg == w.reg.(blobs := w.reg.blobs - Garbage(w.reg.blobs, Marked(w.reg.manifests), since))
      && Finished(w.gc, v.gc, id)
  {
    hide Next, NextCall, NextEnv, Unlinked, Run, RunCalls, Swept, Candidates;
    var report := w.gc.reports[id].report;
    var n := |report.candidates|;
    var marks := Marked(w.reg.manifests);
    var opening := Acts(c, OpeningActions(listing, id));
    OpeningCalls(w.gc, w.reg, c, listing, id);
    QuietRun(w, c, OpeningActions(listing, id));
    var w1 := Run(w, opening);
    var call := w1.gc.calls[c];
    CandidatesAreGarbage(listing, w.reg.blobs, marks, w.reg.clock);
    ReportDue(w.reg, call, since);
    hide AllDue, Inv, Garbage, Enumerates;
    SweptAll(w1, c, n);
    var w2 := Run(w1, Sweeps(c, n));
    FreezeFinishes(w.gc, w1, w2, c, id, call);
    RunConcat(w, opening, Sweeps(c, n));
    RunSnoc(w, opening + Sweeps(c, n), Act(c, Freeze));
  }

  /** The state a quiet preview-and-delete leaves behind. */
  ghost predicate ExactlySwept(w: World, v: World, id: ReportId, wait: nat) {
    var garbage := Garbage(w.reg.blobs, Marked(w.reg.manifests), w.reg.clock);
    && v.reg == w.reg.(clock := w.reg.clock + wait, blobs := w.reg.blobs - garbage)
    && id in v.gc.created && Digests(v.gc.created[id].candidates) == garbage
    && id in v.gc.reports && v.gc.reports[id].outcome.Some? && AllDeleted(v.gc.reports[id].outcome.value.outcomes)
    && |v.gc.reports[id].outcome.value.outcomes| == |v.gc.created[id].candidates|
    && v.gc.gate.None? && v.gc.calls == w.gc.calls && v.gc.deleteEnabled == w.gc.deleteEnabled
    && v.gc.created.Keys == w.gc.created.Keys + {id}
  }

  /** A quiet preview: the report of the garbage on disk is stored, nothing else has moved. */
  ghost predicate Previewed(w: World, v: World, id: ReportId) {
    && v.reg == w.reg && v.gc.gate.None? && v.gc.calls == w.gc.calls && v.gc.deleteEnabled == w.gc.deleteEnabled
    && v.gc.created.Keys == w.gc.created.Keys + {id}
    && id in v.gc.reports && v.gc.reports[id].outcome.None? && v.gc.reports[id].report == v.gc.created[id]
    && v.gc.created[id].expiresAt == w.reg.clock + REPORT_TTL
    && Digests(v.gc.created[id].candidates) == Garbage(w.reg.blobs, Marked(w.reg.manifests), w.reg.clock)
  }

  lemma PreviewResult(w: World, c: CallId, listing: seq<BlobInfo>, id: ReportId)
    requires c !in w.gc.calls && w.gc.gate.None? && id !in w.gc.created && Enumerates(listing, w.reg.blobs)
    ensures var v := Run(w, Acts(c, PreviewActions(listing, id)));
      Previewed(w, v, id)
      && v.gc.created[id].candidates == Candidates(listing, Marked(w.reg.manifests), w.reg.clock)
  {
    PreviewCalls(w.gc, w.reg, c, listing, id);
    QuietRun(w, c, PreviewActions(listing, id));
    CandidatesAreGarbage(listing, w.reg.blobs, Marked(w.reg.manifests), w.reg.clock);
  }

  lemma DeleteAfterPreview(w: World, w1: World, c: CallId, listing: seq<BlobInfo>, id: ReportId, wait: nat)
    requires Inv(w1) && Previewed(w, w1, id) && c !in w.gc.calls && w.gc.deleteEnabled
    requires Enumerates(listing, w.reg.blobs) && wait < REPORT_TTL
    ensures var w2 := Next(w1, Outside(Advance(wait)));
      ExactlySwept(w, Run(w2, DeleteRun(c, listing, id, |w1.gc.created[id].candidates|)), id, wait)
  {
    var w2 := Next(w1, Outside(Advance(wait)));
    InvKept(w1, Outside(Advance(wait)));
    assert w2.gc == w1.gc && w2.reg.blobs == w.reg.blobs && w2.reg.manifests == w.reg.manifests;
    DeleteResult(w2, c, listing, id, w.reg.clock);
    var w3 := Run(w2, DeleteRun(c, listing, id, |w1.gc.created[id].candidates|));
    assert Finished(w2.gc, w3.gc, id) && w3.gc.created == w1.gc.created;
  }

  /**
   An undisturbed preview is exact: the delete unlinks all the garbage of the preview's own instant
   and nothing else, although more may have become garbage by the time it runs.
   */
  lemma PreviewIsExact(w: World, c: CallId, first: seq<BlobInfo>, second: seq<BlobInfo>, id: ReportId, wait: nat)
    requires Inv(w) && c !in w.gc.calls && w.gc.gate.None? && w.gc.deleteEnabled && id !in w.gc.created
    requires Enumerates(first, w.reg.blobs) && Enumerates(second, w.reg.blobs) && wait < REPORT_TTL
    ensures var n := |Candidates(first, Marked(w.reg.manifests), w.reg.clock)|;
      ExactlySwept(w, Run(w, PairRun(c, first, second, id, wait, n)), id, wait)
  {
    var n := |Candidates(first, Marked(w.reg.manifests), w.reg.clock)|;
    var preview := Acts(c, PreviewActions(first, id));
    var tick := Outside(Advance(wait));
    PreviewResult(w, c, first, id);
    InvAlways(w, preview);
    DeleteAfterPreview(w, Run(w, preview), c, second, id, wait);
    RunSnoc(w, preview, tick);
    RunConcat(w, preview + [tick], DeleteRun(c, second, id, n));
  }

  /** From `v` to `u` went exactly the files that were young at the first preview and old at the second. */
  ghost predicate TookTheNewlyAged(w: World, v: World, u: World) {
    forall d :: d in v.reg.blobs && d !in u.reg.blobs <==>
      d in w.reg.blobs && d !in Marked(w.reg.manifests)
      && w.reg.clock - GRACE_WINDOW <= w.reg.blobs[d].mtime < v.reg.clock - GRACE_WINDOW
  }

  lemma NewlyAged(w: World, v1: World, v: World, u: World, id: ReportId, id2: ReportId, pause: nat, wait: nat,
                  wait2: nat)
    requires ExactlySwept(w, v1, id, wait) && ExactlySwept(v, u, id2, wait2)
    requires v.reg == v1.reg.(clock := v1.reg.clock + pause)
    ensures TookTheNewlyAged(w, v, u)
  {
  }

  /**
   After one exact pair, the next one, begun at any later time, takes only what crossed the cutoff
   since the first preview.
   */
  lemma SecondPairTakesTheNewlyAged(w: World, v1: World, id: ReportId, wait: nat, v: World, pause: nat, c: CallId,
                                    first: seq<BlobInfo>, second: seq<BlobInfo>, id2: ReportId, wait2: nat)
    requires ExactlySwept(w, v1, id, wait) && Inv(v)
    requires v == World(v1.reg.(clock := v1.reg.clock + pause), v1.gc)
    requires c !in v.gc.calls && v.gc.deleteEnabled && id2 !in v.gc.created && wait2 < REPORT_TTL
    requires Enumerates(first, v.reg.blobs) && Enumerates(second, v.reg.blobs)
    ensures var n := |Candidates(first, Marked(v.reg.manifests), v.reg.clock)|;
      TookTheNewlyAged(w, v, Run(v, PairRun(c, first, second, id2, wait2, n)))
  {
    var n := |Candidates(first, Marked(v.reg.manifests), v.reg.clock)|;
    PreviewIsExact(v, c, first, second, id2, wait2);
    NewlyAged(w, v1, v, Run(v, PairRun(c, first, second, id2, wait2, n)), id, id2, pause, wait, wait2);
  }
}
