/**
 The collector's two service calls as the source runs them, each a refinement of the protocol:
 the call's own store accesses, with whatever the rest of the registry does in between, form a
 run of the state machine, so every law of its runs is a law of these methods.
 */
module GcService {
  import opened Wrappers
  import opened Ordering
  import opened GcProtocol
  import opened GcCandidates
  import opened GcInvariants
  import opened GcExactness
  import opened Text

  datatype GcError = Unsupported | NotFound | Conflict | Expired | Cancelled | StoreFailed

  /** A step of the environment or of some other call. */
  predicate Foreign(me: CallId, s: Step) { s.Act? ==> s.call != me }

  predicate AllForeign(me: CallId, steps: seq<Step>) {
    forall i :: 0 <= i < |steps| ==> Foreign(me, steps[i])
  }

  /** A step that may add a file or take one away. */
  predicate TouchesFiles(s: Step) {
    (s.Outside? && s.env.CommitBlob?) || (s.Act? && s.action.Sweep?)
  }

  predicate NoneTouchesFiles(steps: seq<Step>) {
    forall i :: 0 <= i < |steps| ==> !TouchesFiles(steps[i])
  }

  lemma {:induction false} SameFiles(w: World, steps: seq<Step>)
    requires NoneTouchesFiles(steps)
    ensures Run(w, steps).reg.blobs == w.reg.blobs
  {
    if steps != [] {
      var init := steps[..|steps| - 1];
      assert forall i :: 0 <= i < |init| ==> init[i] == steps[i];
      SameFiles(w, init);
      hide NextCall;
    }
  }

  /** What happens around a call: the steps taken between its store accesses, and which of those fail. */
  datatype Surroundings = Surroundings(
    beforeClock: seq<Step>, beforeGate: seq<Step>, beforeList: seq<Step>, beforeMark: seq<Step>,
    beforeSweep: seq<seq<Step>>, beforeWrite: seq<Step>,
    readFails: bool, cancelled: bool, pruneFails: bool, listFails: bool, marksFail: bool,
    sweepFaults: seq<Fault>, writeFails: bool, rereadFails: bool)
  {
    function SweepSteps(i: nat): seq<Step> { if i < |beforeSweep| then beforeSweep[i] else [] }

    function SweepFault(i: nat): Fault { if i < |sweepFaults| then sweepFaults[i] else NoFault }

    ghost predicate Around(me: CallId) {
      && AllForeign(me, beforeClock) && AllForeign(me, beforeGate) && AllForeign(me, beforeList)
      && AllForeign(me, beforeMark) && AllForeign(me, beforeWrite) && forall i: nat :: AllForeign(me, SweepSteps(i))
    }

    /** Nobody else adds or removes a file; anything may fail. */
    ghost predicate Still() {
      && NoneTouchesFiles(beforeClock) && NoneTouchesFiles(beforeGate) && NoneTouchesFiles(beforeList)
      && NoneTouchesFiles(beforeMark) && NoneTouchesFiles(beforeWrite)
      && forall i: nat :: NoneTouchesFiles(SweepSteps(i))
    }

    /** Nothing else happens and nothing fails. */
    ghost predicate Quiet() {
      && beforeClock == [] && beforeGate == [] && beforeList == [] && beforeMark == [] && beforeWrite == []
      && (forall i: nat :: SweepSteps(i) == [] && SweepFault(i) == NoFault)
      && !readFails && !cancelled && !pruneFails && !listFails && !marksFail && !writeFails && !rereadFails
    }
  }

  // ---------------------------------------------------------------- framing

  /** The world with call `me` standing at `call`. */
  ghost function With(w: World, me: CallId, call: Call): World {
    w.(gc := Enter(w.gc, me, call))
  }

  lemma EnterCommutes(g: Collector, me: CallId, call: Call, c: CallId, other: Call)
    requires c != me
    ensures Enter(Enter(g, me, call), c, other) == Enter(Enter(g, c, other), me, call)
  {
    assert g.calls[me := call][c := other] == g.calls[c := other][me := call];
  }

  lemma LeaveCommutes(g: Collector, me: CallId, call: Call, c: CallId)
    requires c != me
    ensures Leave(Enter(g, me, call), c) == Enter(Leave(g, c), me, call)
  {
    assert g.calls[me := call] - {c} == (g.calls - {c})[me := call];
  }

  lemma FrameStart(g: Collector, r: Registry, c: CallId, a: Action, me: CallId, call: Call)
    requires c != me && c !in g.calls
    ensures NextCall(Enter(g, me, call), r, c, a) == Enter(NextCall(g, r, c, a), me, call)
  {
    EnterCommutes(g, me, call, c, Listing(Preview, r.clock));
    if a.Fetch? && a.id in g.reports { EnterCommutes(g, me, call, c, Fetched(a.id, g.reports[a.id].report)); }
  }

  lemma FrameSweep(g: Collector, r: Registry, c: CallId, a: Action, me: CallId, call: Call)
    requires c != me && c in g.calls && g.calls[c].Sweeping?
    ensures NextCall(Enter(g, me, call), r, c, a) == Enter(NextCall(g, r, c, a), me, call)
  {
    hide Book, Summary, SweepOutcome;
    LeaveCommutes(g, me, call, c);
    var h := NextCall(g, r, c, a);
    if c in h.calls { EnterCommutes(g, me, call, c, h.calls[c]); }
  }

  lemma FrameResume(g: Collector, r: Registry, c: CallId, a: Action, me: CallId, call: Call)
    requires c != me && c in g.calls && !g.calls[c].Sweeping?
    ensures NextCall(Enter(g, me, call), r, c, a) == Enter(NextCall(g, r, c, a), me, call)
  {
    hide Enumerates, AfterMark, NewReport;
    LeaveCommutes(g, me, call, c);
    var h := NextCall(g, r, c, a);
    if c in h.calls { EnterCommutes(g, me, call, c, h.calls[c]); }
  }

  lemma FrameCall(g: Collector, r: Registry, c: CallId, a: Action, me: CallId, call: Call)
    requires c != me && me !in g.calls
    ensures NextCall(Enter(g, me, call), r, c, a) == Enter(NextCall(g, r, c, a), me, call)
    ensures me !in NextCall(g, r, c, a).calls
    ensures g.gate == Some(me) ==> NextCall(g, r, c, a).gate == Some(me)
  {
    OthersUntouched(g, r, c, a, me);
    if c !in g.calls {
      FrameStart(g, r, c, a, me, call);
    } else if g.calls[c].Sweeping? {
      FrameSweep(g, r, c, a, me, call);
    } else {
      FrameResume(g, r, c, a, me, call);
    }
  }

  lemma FrameStep(w: World, s: Step, me: CallId, call: Call)
    requires Foreign(me, s) && me !in w.gc.calls
    ensures Next(With(w, me, call), s) == With(Next(w, s), me, call)
    ensures me !in Next(w, s).gc.calls
    ensures w.gc.gate == Some(me) ==> Next(w, s).gc.gate == Some(me)
  {
    if s.Act? {
      FrameCall(w.gc, w.reg, s.call, s.action, me, call);
      assert Unlinked(With(w, me, call), s) == Unlinked(w, s);
    }
  }

  lemma {:induction false} FrameRun(w: World, steps: seq<Step>, me: CallId, call: Call)
    requires AllForeign(me, steps) && me !in w.gc.calls
    ensures Run(With(w, me, call), steps) == With(Run(w, steps), me, call)
    ensures me !in Run(w, steps).gc.calls
    ensures w.gc.gate == Some(me) ==> Run(w, steps).gc.gate == Some(me)
  {
    if steps != [] {
      var k := |steps| - 1;
      FrameRun(w, steps[..k], me, call);
      FrameStep(Run(w, steps[..k]), steps[k], me, call);
    }
  }

  /** An own step that takes no file away, after `run`. */
  lemma OwnStep(w: World, start: World, run: seq<Step>, me: CallId, call: Call, a: Action)
    requires With(w, me, call) == Run(start, run) && !a.Sweep?
    ensures Run(start, run + [Act(me, a)]) == World(w.reg, NextCall(Enter(w.gc, me, call), w.reg, me, a))
  {
    RunSnoc(start, run, Act(me, a));
    assert w.reg.blobs - {} == w.reg.blobs;
  }

  lemma EnterAgain(g: Collector, me: CallId, call: Call, next: Call)
    ensures Enter(Enter(g, me, call), me, next) == Enter(g, me, next)
  {
    assert g.calls[me := call][me := next] == g.calls[me := next];
  }

  lemma LeaveEntered(g: Collector, me: CallId, call: Call)
    requires me !in g.calls
    ensures Leave(Enter(g, me, call), me) == g.(gate := if g.gate == Some(me) then None else g.gate)
  {
    assert g.calls[me := call] - {me} == g.calls;
  }

  /** A failed store access or a cancelled wait ends the call and frees the gate if it holds it. */
  lemma Abandoned(w: World, start: World, run: seq<Step>, me: CallId, call: Call)
    requires With(w, me, call) == Run(start, run) && me !in w.gc.calls
    ensures Run(start, run + [Act(me, Fail)])
            == World(w.reg, w.gc.(gate := if w.gc.gate == Some(me) then None else w.gc.gate))
  {
    OwnStep(w, start, run, me, call, Fail);
    LeaveEntered(w.gc, me, call);
  }

  lemma ListStep(w: World, start: World, run: seq<Step>, me: CallId, purpose: Purpose, now: int, listing: seq<BlobInfo>)
    requires With(w, me, Listing(purpose, now)) == Run(start, run) && Enumerates(listing, w.reg.blobs)
    ensures With(w, me, Marking(purpose, now, listing)) == Run(start, run + [Act(me, List(listing))])
  {
    OwnStep(w, start, run, me, Listing(purpose, now), List(listing));
    EnterAgain(w.gc, me, Listing(purpose, now), Marking(purpose, now, listing));
  }

  lemma MarkStep(w: World, start: World, run: seq<Step>, me: CallId, purpose: Purpose, now: int, listing: seq<BlobInfo>)
    requires With(w, me, Marking(purpose, now, listing)) == Run(start, run)
    ensures With(w, me, AfterMark(purpose, now, listing, Marked(w.reg.manifests))) == Run(start, run + [Act(me, Mark)])
  {
    OwnStep(w, start, run, me, Marking(purpose, now, listing), Mark);
    EnterAgain(w.gc, me, Marking(purpose, now, listing), AfterMark(purpose, now, listing, Marked(w.reg.manifests)));
  }

  lemma ExpiryStep(w: World, start: World, run: seq<Step>, me: CallId, id: ReportId, report: Report)
    requires With(w, me, Fetched(id, report)) == Run(start, run) && me !in w.gc.calls && w.gc.gate != Some(me)
    ensures w.reg.clock < report.expiresAt ==>
      With(w, me, Ready(id, report, w.reg.clock)) == Run(start, run + [Act(me, CheckExpiry)])
    ensures w.reg.clock >= report.expiresAt ==> w == Run(start, run + [Act(me, CheckExpiry)])
  {
    OwnStep(w, start, run, me, Fetched(id, report), CheckExpiry);
    EnterAgain(w.gc, me, Fetched(id, report), Ready(id, report, w.reg.clock));
    LeaveEntered(w.gc, me, Fetched(id, report));
  }

  lemma AcquireStep(w: World, start: World, run: seq<Step>, me: CallId, id: ReportId, report: Report, now: int)
    requires With(w, me, Ready(id, report, now)) == Run(start, run) && w.gc.gate.None?
    ensures With(World(w.reg, w.gc.(gate := Some(me))), me, Listing(Deletion(id, report), now))
            == Run(start, run + [Act(me, Acquire)])
  {
    OwnStep(w, start, run, me, Ready(id, report, now), Acquire);
    EnterAgain(w.gc, me, Ready(id, report, now), Listing(Deletion(id, report), now));
  }

  lemma FreezeStep(w: World, start: World, run: seq<Step>, me: CallId, call: Call)
    requires With(w, me, call) == Run(start, run) && me !in w.gc.calls && w.gc.gate == Some(me)
    requires call.Sweeping? && |call.tally.outcomes| == |call.report.candidates|
    ensures var frozen := Summary(call.tally, |call.report.candidates|, call.snapshot.now);
      var released := w.gc.(gate := None);
      Run(start, run + [Act(me, Freeze)]) == World(w.reg,
        if call.id in w.gc.reports && w.gc.reports[call.id].outcome.None?
        then released.(reports := w.gc.reports[call.id := w.gc.reports[call.id].(outcome := Some(frozen))])
        else released)
  {
    OwnStep(w, start, run, me, call, Freeze);
    LeaveEntered(w.gc, me, call);
  }

  lemma StartStep(w: World, me: CallId)
    requires me !in w.gc.calls && w.gc.gate.None?
    ensures Run(w, [Act(me, ComputeStart)])
            == With(World(w.reg, w.gc.(gate := Some(me), reports := Prune(w.gc.reports, w.reg.clock))),
                    me, Listing(Preview, w.reg.clock))
  {
    assert [] + [Act(me, ComputeStart)] == [Act(me, ComputeStart)];
    RunSnoc(w, [], Act(me, ComputeStart));
    assert w.reg.blobs - {} == w.reg.blobs;
  }

  lemma CreateStep(w: World, start: World, run: seq<Step>, me: CallId, now: int, candidates: seq<Candidate>,
                   id: ReportId)
    requires With(w, me, Creating(now, candidates)) == Run(start, run) && me !in w.gc.calls && w.gc.gate == Some(me)
    requires id !in w.gc.created
    ensures var report := NewReport(now, candidates);
      Run(start, run + [Act(me, Create(id))])
      == World(w.reg, w.gc.(gate := None, reports := w.gc.reports[id := StoredReport(report, None)],
                            created := w.gc.created[id := report]))
  {
    OwnStep(w, start, run, me, Creating(now, candidates), Create(id));
    LeaveEntered(w.gc, me, Creating(now, candidates));
  }

  lemma FetchStep(w: World, me: CallId, id: ReportId)
    requires me !in w.gc.calls && w.gc.deleteEnabled && id in w.gc.reports && w.gc.reports[id].outcome.None?
    ensures Run(w, [Act(me, Fetch(id))]) == With(w, me, Fetched(id, w.gc.reports[id].report))
  {
    assert [] + [Act(me, Fetch(id))] == [Act(me, Fetch(id))];
    RunSnoc(w, [], Act(me, Fetch(id)));
    assert w.reg.blobs - {} == w.reg.blobs;
  }

  /** The sweep's own step, once its outcome has been carried out on the files. */
  lemma SweepStep(w: World, v: World, start: World, run: seq<Step>, me: CallId, call: Call, fault: Fault)
    requires call.Sweeping? && |call.tally.outcomes| < |call.report.candidates|
    requires With(w, me, call) == Run(start, run) && v.gc == w.gc
    requires var candidate := call.report.candidates[|call.tally.outcomes|];
      var o := SweepOutcome(w.reg, call, fault);
      v.reg == w.reg.(blobs := if o == Deleted then w.reg.blobs - {candidate.digest} else w.reg.blobs)
    ensures var candidate := call.report.candidates[|call.tally.outcomes|];
      With(v, me, call.(tally := Book(call.tally, candidate, SweepOutcome(w.reg, call, fault))))
      == Run(start, run + [Act(me, Sweep(fault))])
  {
    RunSnoc(start, run, Act(me, Sweep(fault)));
    assert w.reg.blobs - {} == w.reg.blobs;
    var candidate := call.report.candidates[|call.tally.outcomes|];
    EnterAgain(w.gc, me, call, call.(tally := Book(call.tally, candidate, SweepOutcome(w.reg, call, fault))));
  }

  /** What a quiet sweep has left of the files after `n` candidates. */
  ghost function SweptQuietly(from: Registry, candidates: seq<Candidate>, freshSet: set<Digest>, n: nat): Registry
    requires n <= |candidates|
  {
    from.(blobs := from.blobs - (Digests(candidates[..n]) * freshSet))
  }

  /** Freshly selected digests are files on disk that nothing references. */
  ghost predicate Sweepable(from: Registry, candidates: seq<Candidate>, freshSet: set<Digest>) {
    && StrictlySorted(DigestOf, candidates)
    && forall d :: d in freshSet ==> ValidDigest(d) && d in from.blobs && d !in Marked(from.manifests)
  }

  lemma NothingSwept(from: Registry, candidates: seq<Candidate>, freshSet: set<Digest>)
    ensures SweptQuietly(from, candidates, freshSet, 0) == from
  {
    assert Digests(candidates[..0]) == {} && from.blobs - {} == from.blobs;
  }

  lemma AllSwept(from: Registry, candidates: seq<Candidate>, freshSet: set<Digest>)
    ensures SweptQuietly(from, candidates, freshSet, |candidates|)
            == from.(blobs := from.blobs - (Digests(candidates) * freshSet))
  {
    assert candidates[..|candidates|] == candidates;
  }

  lemma AccountsOpen(candidates: seq<Candidate>)
    ensures Accounted(candidates, NO_TALLY)
  {
    assert Positions([], Deleted) == {} && Positions([], Failed) == {};
  }

  /** Undisturbed, a candidate's turn deletes it if it was freshly selected. */
  lemma QuietOutcome(from: Registry, call: Call, freshSet: set<Digest>, sofar: Registry)
    requires call.Sweeping? && |call.tally.outcomes| < |call.report.candidates| && call.snapshot.freshSet == freshSet
    requires Sweepable(from, call.report.candidates, freshSet)
    requires sofar == SweptQuietly(from, call.report.candidates, freshSet, |call.tally.outcomes|)
    ensures var n := |call.tally.outcomes|;
      var c := call.report.candidates[n];
      var outcome := SweepOutcome(sofar, call, NoFault);
      SweptQuietly(from, call.report.candidates, freshSet, n + 1)
        == sofar.(blobs := if outcome == Deleted then sofar.blobs - {c.digest} else sofar.blobs)
  {
    SweptOneMore(from, call.report.candidates, freshSet, |call.tally.outcomes|);
    hide Digests, Marked;
  }

  lemma SweptOneMore(from: Registry, candidates: seq<Candidate>, freshSet: set<Digest>, n: nat)
    requires n < |candidates| && Sweepable(from, candidates, freshSet)
    ensures var d := candidates[n].digest;
      var sofar := SweptQuietly(from, candidates, freshSet, n);
      && sofar == from.(blobs := sofar.blobs) && (d in freshSet ==> d in sofar.blobs)
      && SweptQuietly(from, candidates, freshSet, n + 1)
         == sofar.(blobs := if d in freshSet then sofar.blobs - {d} else sofar.blobs)
  {
    NextDigest(candidates, n);
    var d := candidates[n].digest;
    if d in freshSet {
      assert Digests(candidates[..n + 1]) * freshSet == Digests(candidates[..n]) * freshSet + {d};
      assert from.blobs - (Digests(candidates[..n]) * freshSet) - {d}
          == from.blobs - (Digests(candidates[..n + 1]) * freshSet);
    } else {
      assert Digests(candidates[..n + 1]) * freshSet == Digests(candidates[..n]) * freshSet;
    }
  }

  /** Report `id` is stored, unused, and the delete flag is on. */
  ghost predicate Reported(w: World, id: ReportId) {
    w.gc.deleteEnabled && id in w.gc.reports && w.gc.reports[id].outcome.None?
  }

  ghost function Gated(w: World, gate: Option<CallId>): World {
    w.(gc := w.gc.(gate := gate))
  }

  lemma SweeperKnowsReport(w: World, start: World, run: seq<Step>, me: CallId, call: Call)
    requires Inv(start) && With(w, me, call) == Run(start, run) && call.Sweeping?
    ensures call.id in w.gc.reports ==> w.gc.reports[call.id].report == call.report
  {
    InvAlways(start, run);
    assert CallOk(With(w, me, call), With(w, me, call).gc.calls[me]);
  }

  /** The next candidate's recorded size is that of its file. */
  lemma UnlinkedSize(w: World, start: World, run: seq<Step>, me: CallId, call: Call)
    requires Inv(start) && With(w, me, call) == Run(start, run) && call.Sweeping?
    requires |call.tally.outcomes| < |call.report.candidates|
    ensures var c := call.report.candidates[|call.tally.outcomes|];
      c.digest in w.reg.blobs ==> DiskBytes(w.reg.blobs) == c.size + DiskBytes(w.reg.blobs - {c.digest})
  {
    InvAlways(start, run);
    var v, c := With(w, me, call), call.report.candidates[|call.tally.outcomes|];
    assert CallOk(v, v.gc.calls[me]) && ReportOk(v.reg, call.report) && FilesInv(v.reg);
    assert c in call.report.candidates;
    if c.digest in w.reg.blobs { DiskBytesMinus(w.reg.blobs, c.digest); }
  }

  lemma CandidatesSortedFrom(start: World, run: seq<Step>, me: CallId, call: Call)
    requires Inv(start) && me in Run(start, run).gc.calls && Run(start, run).gc.calls[me] == call && call.Creating?
    ensures StrictlySorted(DigestOf, call.candidates)
  {
    InvAlways(start, run);
    assert CallOk(Run(start, run), call);
  }

  lemma OutcomeFrom(report: Report, t: Tally, now: int)
    requires Accounted(report.candidates, t) && |t.outcomes| == |report.candidates|
    ensures OutcomeOk(report, Summary(t, |report.candidates|, now))
  {
  }

  lemma QuietlySweepable(w: World, id: ReportId, s: Snapshot)
    requires Inv(w) && id in w.gc.reports
    requires Enumerates(s.listing, w.reg.blobs) && s.marks == Marked(w.reg.manifests)
    requires s.freshSet == Digests(Candidates(s.listing, s.marks, s.now))
    ensures Sweepable(w.reg, w.gc.reports[id].report.candidates, s.freshSet)
    ensures s.freshSet == Garbage(w.reg.blobs, Marked(w.reg.manifests), s.now)
  {
    CandidatesAreGarbage(s.listing, w.reg.blobs, s.marks, s.now);
  }

  lemma WaiterHoldsNoGate(w: World, me: CallId, call: Call)
    requires Inv(With(w, me, call)) && !call.HoldsGate()
    ensures w.gc.gate != Some(me)
  {
  }

  // ------------------------------------------------- the selection's loops

  /** The two loops and the sort of gcCandidates. */
  method SelectCandidates(listing: seq<BlobInfo>, marked: seq<Digest>, now: int)
    returns (candidates: seq<Candidate>, cutoff: int)
    ensures cutoff == now - GRACE_WINDOW
    ensures candidates == Candidates(listing, set i | 0 <= i < |marked| :: marked[i], now)
  {
    cutoff := now - GRACE_WINDOW;
    var markSet: set<Digest> := {};
    for i := 0 to |marked|
      invariant markSet == set j | 0 <= j < i :: marked[j]
    {
      markSet := markSet + {marked[i]};
    }
    candidates := [];
    for i := 0 to |listing|
      invariant candidates == Select(listing[..i], markSet, cutoff)
    {
      assert listing[..i + 1][..i] == listing[..i];
      var blob := listing[i];
      if blob.digest in markSet { continue; }
      if !(blob.mtime < cutoff) { continue; }
      candidates := candidates + [Candidate(blob.digest, blob.size, blob.mtime)];
    }
    assert listing[..|listing|] == listing;
    candidates := SortBy(DigestOf, candidates);
  }

  method TotalSize(candidates: seq<Candidate>) returns (total: nat)
    ensures total == Bytes(candidates)
  {
    total := 0;
    for i := 0 to |candidates|
      invariant total == Bytes(candidates[..i])
    {
      assert candidates[..i + 1][..i] == candidates[..i];
      total := total + candidates[i].size;
    }
    assert candidates[..|candidates|] == candidates;
  }

  // ------------------------------------------------------------ the service

  class Service {
    const deleteEnabled: bool
    var reg: Registry
    var reports: map<ReportId, StoredReport>
    var created: map<ReportId, Report>
    var gate: Option<CallId>
    var calls: map<CallId, Call> // the other calls in flight

    constructor (deleteEnabled: bool, clock: int)
      ensures this.deleteEnabled == deleteEnabled && Initial(State())
    {
      this.deleteEnabled := deleteEnabled;
      reg := Registry(clock, map[], map[], map[], map[]);
      reports, created, gate, calls := map[], map[], None, map[];
    }

    ghost predicate Valid()
      reads this
    {
      Inv(State())
    }

    function State(): World
      reads this
    {
      World(reg, Collector(deleteEnabled, reports, created, gate, calls))
    }

    /** Other requests and the passage of time. */
    method Interleave(steps: seq<Step>, ghost me: CallId, ghost call: Call)
      requires AllForeign(me, steps) && me !in calls
      modifies this
      ensures State() == Run(old(State()), steps) && me !in calls
      ensures With(State(), me, call) == Run(old(With(State(), me, call)), steps)
      ensures old(gate) == Some(me) ==> gate == Some(me)
      ensures steps == [] ==> State() == old(State())
      ensures NoneTouchesFiles(steps) ==> reg.blobs == old(reg).blobs
    {
      for i := 0 to |steps|
        invariant State() == Run(old(State()), steps[..i])
      {
        var w := Next(State(), steps[i]);
        assert steps[..i + 1][..i] == steps[..i];
        assert w.gc.deleteEnabled == deleteEnabled;
        reg, reports, created, gate, calls := w.reg, w.gc.reports, w.gc.created, w.gc.gate, w.gc.calls;
      }
      assert steps[..|steps|] == steps;
      FrameRun(old(State()), steps, me, call);
      if NoneTouchesFiles(steps) { SameFiles(old(State()), steps); }
    }

    /** The blob store walks its directory in some order of its own. */
    method ListBlobs() returns (listing: seq<BlobInfo>)
      ensures Enumerates(listing, reg.blobs)
    {
      listing := [];
      var left := reg.blobs.Keys;
      while left != {}
        invariant left <= reg.blobs.Keys
        invariant DistinctKeys(ListedDigest, listing)
        invariant forall i :: 0 <= i < |listing| ==>
          listing[i].digest in reg.blobs && listing[i].digest !in left
          && reg.blobs[listing[i].digest] == Blob(listing[i].size, listing[i].mtime)
        invariant forall d :: d in reg.blobs && d !in left ==> exists i :: 0 <= i < |listing| && listing[i].digest == d
        decreases left
      {
        var d :| d in left;
        ghost var before := listing;
        listing := listing + [BlobInfo(d, reg.blobs[d].size, reg.blobs[d].mtime)];
        left := left - {d};
        forall e | e in reg.blobs && e !in left ensures exists i :: 0 <= i < |listing| && listing[i].digest == e {
          if e == d {
            assert listing[|before|].digest == e;
          } else {
            var i :| 0 <= i < |before| && before[i].digest == e;
            assert listing[i].digest == e;
          }
        }
      }
    }

    /** SELECT DISTINCT digest over every manifest of every tenant. */
    method ListReferencedBlobDigests() returns (marked: seq<Digest>)
      ensures (set i | 0 <= i < |marked| :: marked[i]) == Marked(reg.manifests)
    {
      marked := [];
      var left := Marked(reg.manifests);
      while left != {}
        invariant left <= Marked(reg.manifests)
        invariant forall x :: x in marked <==> x in Marked(reg.manifests) && x !in left
        decreases left
      {
        var d :| d in left;
        marked := marked + [d];
        left := left - {d};
      }
    }

    /**
     gcCandidates: list the files, then read the marks, then select. `call` is where the protocol's
     record of this call stands afterwards.
     */
    method GcCandidates(me: CallId, purpose: Purpose, now: int, around: Surroundings, ghost start: World,
                        ghost before: seq<Step>)
      returns (candidates: Option<seq<Candidate>>, ghost run: seq<Step>, ghost call: Call,
               ghost seen: (seq<BlobInfo>, set<Digest>))
      requires me !in calls && gate == Some(me) && around.Around(me)
      requires With(State(), me, Listing(purpose, now)) == Run(start, before)
      modifies this
      ensures me !in calls && gate == Some(me) && call.HoldsGate()
      ensures With(State(), me, call) == Run(start, run)
      ensures candidates.Some? ==>
        call == AfterMark(purpose, now, seen.0, seen.1) && candidates.value == Candidates(seen.0, seen.1, now)
      ensures around.Quiet() ==> candidates.Some? && State() == old(State())
      ensures around.Quiet() ==> Enumerates(seen.0, old(reg).blobs) && seen.1 == Marked(old(reg).manifests)
      ensures around.Still() ==> reg.blobs == old(reg).blobs
    {
      hide Next, NextCall, NextEnv, Unlinked, Run, Candidates, Enumerates, Digests;
      run, call, candidates, seen := before, Listing(purpose, now), None, ([], {});
      Interleave(around.beforeList, me, call);
      RunConcat(start, run, around.beforeList);
      run := run + around.beforeList;
      if around.listFails { return; }
      var listing := ListBlobs();
      ListStep(State(), start, run, me, purpose, now, listing);
      run, call := run + [Act(me, List(listing))], Marking(purpose, now, listing);
      Interleave(around.beforeMark, me, call);
      RunConcat(start, run, around.beforeMark);
      run := run + around.beforeMark;
      if around.marksFail { return; }
      var marked := ListReferencedBlobDigests();
      ghost var marks := Marked(reg.manifests);
      MarkStep(State(), start, run, me, purpose, now, listing);
      run, call := run + [Act(me, Mark)], AfterMark(purpose, now, listing, marks);
      var selected, cutoff := SelectCandidates(listing, marked, now);
      candidates, seen := Some(selected), (listing, marks);
    }

    /** One digest's re-check and unlink. */
    method RecheckAndUnlink(digest: Digest, fault: Fault) returns (outcome: Outcome)
      modifies this`reg
      ensures outcome ==
        if fault == RecheckFails then Failed
        else if digest in Marked(old(reg.manifests)) then Retained
        else if fault == UnlinkFails then Failed
        else if digest !in old(reg.blobs) then Missing
        else Deleted
      ensures reg == old(reg).(blobs := if outcome == Deleted then old(reg.blobs) - {digest} else old(reg.blobs))
    {
      if fault == RecheckFails { return Failed; }
      if exists k :: k in reg.manifests && digest in reg.manifests[k] { return Retained; }
      if fault == UnlinkFails { return Failed; }
      if digest !in reg.blobs { return Missing; }
      reg := reg.(blobs := reg.blobs - {digest});
      return Deleted;
    }

    /** One candidate's turn in the delete loop. */
    method SweepCandidate(candidate: Candidate, freshSet: set<Digest>, fault: Fault,
                          ghost call: Call) returns (outcome: Outcome)
      requires call.Sweeping? && |call.tally.outcomes| < |call.report.candidates| && call.snapshot.freshSet == freshSet
      requires candidate == call.report.candidates[|call.tally.outcomes|]
      modifies this`reg
      ensures outcome == SweepOutcome(old(reg), call, fault)
      ensures outcome == Deleted ==> candidate.digest in old(reg).blobs
      ensures reg == if outcome == Deleted then old(reg).(blobs := old(reg).blobs - {candidate.digest}) else old(reg)
    {
      if candidate.digest !in freshSet { return Retained; }
      if !ValidDigest(candidate.digest) { return Failed; }
      outcome := RecheckAndUnlink(candidate.digest, fault);
    }

    /** freshSet. */
    method DigestSet(candidates: seq<Candidate>) returns (digests: set<Digest>)
      ensures digests == Digests(candidates)
    {
      digests := {};
      for i := 0 to |candidates|
        invariant digests == Digests(candidates[..i])
      {
        DigestsSnoc(candidates, i);
        digests := digests + {candidates[i].digest};
      }
      assert candidates[..|candidates|] == candidates;
    }

    /** The delete loop over the report's candidates. */
    method SweepReport(me: CallId, report: Report, freshSet: set<Digest>, around: Surroundings,
                       ghost begun: Call, ghost start: World, ghost before: seq<Step>)
      returns (t: Tally, ghost run: seq<Step>)
      requires me !in calls && gate == Some(me) && around.Around(me)
      requires begun.Sweeping? && begun.report == report && begun.snapshot.freshSet == freshSet
      requires begun.tally == NO_TALLY
      requires Inv(start) && With(State(), me, begun) == Run(start, before)
      modifies this
      ensures me !in calls && gate == Some(me)
      ensures With(State(), me, begun.(tally := t)) == Run(start, run)
      ensures Accounted(report.candidates, t) && |t.outcomes| == |report.candidates|
      // Undisturbed by other writers, whatever fails: the disk shrinks by exactly the bytes booked.
      ensures around.Still() ==> DiskBytes(reg.blobs) + t.bytesReclaimed == DiskBytes(old(reg).blobs)
      ensures around.Quiet() && Sweepable(old(reg), report.candidates, freshSet) ==>
        State() == old(State()).(reg := old(reg).(blobs := old(reg).blobs - (Digests(report.candidates) * freshSet)))
    {
      hide Next, NextCall, NextEnv, Unlinked, Run, Accounted, SweptQuietly, DiskBytes, Inv, SweepOutcome, Sweepable;
      AccountsOpen(report.candidates);
      var outcomes: seq<CandidateOutcome> := [];
      var deletedCount: nat, bytesReclaimed: nat, failureCount: nat := 0, 0, 0;
      ghost var call := begun;
      run := before;
      NothingSwept(reg, report.candidates, freshSet);
      for i := 0 to |report.candidates|
        invariant me !in calls && gate == Some(me) && |outcomes| == i
        invariant call == begun.(tally := Tally(outcomes, deletedCount, bytesReclaimed, failureCount))
        invariant With(State(), me, call) == Run(start, run)
        invariant Accounted(report.candidates, call.tally)
        invariant around.Still() ==> DiskBytes(reg.blobs) + bytesReclaimed == DiskBytes(old(reg).blobs)
        invariant around.Quiet() && Sweepable(old(reg), report.candidates, freshSet) ==>
          State() == old(State()).(reg := SweptQuietly(old(reg), report.candidates, freshSet, i))
      {
        Interleave(around.SweepSteps(i), me, call);
        RunConcat(start, run, around.SweepSteps(i));
        run := run + around.SweepSteps(i);
        ghost var w := State();
        if around.Quiet() && Sweepable(old(reg), report.candidates, freshSet) {
          QuietOutcome(old(reg), call, freshSet, reg);
        }
        var candidate := report.candidates[i];
        UnlinkedSize(w, start, run, me, call);
        var outcome := SweepCandidate(candidate, freshSet, around.SweepFault(i), call);
        if outcome == Failed { failureCount := failureCount + 1; }
        if outcome == Deleted {
          deletedCount := deletedCount + 1;
          bytesReclaimed := bytesReclaimed + candidate.size;
        }
        outcomes := outcomes + [CandidateOutcome(candidate.digest, outcome)];

        BookKeepsAccount(report.candidates, call.tally, outcome);
        SweepStep(w, State(), start, run, me, call, around.SweepFault(i));
        run := run + [Act(me, Sweep(around.SweepFault(i)))];
        call := begun.(tally := Tally(outcomes, deletedCount, bytesReclaimed, failureCount));
      }
      AllSwept(old(reg), report.candidates, freshSet);
      t := Tally(outcomes, deletedCount, bytesReclaimed, failureCount);
    }

    method ComputeGCReport(me: CallId, newID: ReportId, around: Surroundings)
      returns (r: Result<Report, GcError>, ghost run: seq<Step>)
      requires Valid() && me !in calls && around.Around(me)
      modifies this
      // The call is a run of the protocol, interleaved with everything else that happened.
      ensures Valid() && me !in calls && State() == Run(old(State()), run)
      // The stored preview, in digest order.
      ensures r.Success? ==> newID in reports && reports[newID] == StoredReport(r.value, None)
      ensures r.Success? ==> r.value == NewReport(r.value.computedAt, r.value.candidates)
      ensures r.Success? ==> StrictlySorted(DigestOf, r.value.candidates)
      // Undisturbed, it lists exactly the garbage, touches no file and drops only expired previews.
      ensures around.Quiet() && old(gate).None? && newID !in old(created) ==>
        && r.Success? && reg == old(reg) && gate.None? && calls == old(calls)
        && r.value.computedAt == old(reg).clock
        && Digests(r.value.candidates) == Garbage(old(reg).blobs, Marked(old(reg).manifests), old(reg).clock)
        && reports == Prune(old(reports), old(reg).clock)[newID := StoredReport(r.value, None)]
    {
      hide Next, NextCall, NextEnv, Unlinked, Run, Inv, Candidates, Garbage, Digests;
      ghost var start := State();
      RunNil(start);
      if gate.Some? || around.cancelled { return Failure(Cancelled), []; }
      if around.pruneFails { return Failure(StoreFailed), []; }
      var now := reg.clock;
      StartStep(start, me);
      gate := Some(me);
      reports := Prune(reports, now);
      run := [Act(me, ComputeStart)];
      var selected, run2, call, seen := GcCandidates(me, Preview, now, around, start, run);
      run := run2;
      if selected.None? {
        Abandoned(State(), start, run, me, call);
        gate := None;
        run := run + [Act(me, Fail)];
        InvAlways(start, run);
        return Failure(StoreFailed), run;
      }
      CandidatesSortedFrom(start, run, me, call);
      if around.Quiet() { CandidatesAreGarbage(seen.0, start.reg.blobs, seen.1, now); }
      var result, run3 := StorePreview(me, newID, now, selected.value, around, call, start, run);
      InvAlways(start, run3);
      return result, run3;
    }

    /** Persisting a preview and letting go of the gate. */
    method StorePreview(me: CallId, newID: ReportId, now: int, candidates: seq<Candidate>, around: Surroundings,
                        ghost call: Call, ghost start: World, ghost before: seq<Step>)
      returns (r: Result<Report, GcError>, ghost run: seq<Step>)
      requires me !in calls && gate == Some(me) && around.Around(me)
      requires call == Creating(now, candidates) && With(State(), me, call) == Run(start, before)
      modifies this
      ensures me !in calls && State() == Run(start, run)
      ensures r.Success? ==> newID in reports && reports[newID] == StoredReport(r.value, None)
      ensures r.Success? ==> r.value == NewReport(now, candidates)
      ensures around.Quiet() && newID !in old(created) ==>
        && r.Success? && reg == old(reg) && gate.None? && calls == old(calls)
        && reports == old(reports)[newID := StoredReport(r.value, None)]
    {
      hide Next, NextCall, NextEnv, Unlinked, Run, Candidates;
      var candidateBytes := TotalSize(candidates);
      Interleave(around.beforeWrite, me, call);
      RunConcat(start, before, around.beforeWrite);
      run := before + around.beforeWrite;
      if around.writeFails || newID in created {
        Abandoned(State(), start, run, me, call);
        gate := None;
        return Failure(StoreFailed), run + [Act(me, Fail)];
      }
      var report := Report(now, now + REPORT_TTL, now - GRACE_WINDOW, |candidates|, candidateBytes, candidates);
      CreateStep(State(), start, run, me, now, candidates, newID);
      created := created[newID := report];
      reports := reports[newID := StoredReport(report, None)];
      gate := None;
      return Success(report), run + [Act(me, Create(newID))];
    }

    /** Flag, report, single use and expiry. */
    method ReadReport(me: CallId, reportID: ReportId, around: Surroundings)
      returns (r: Result<(Report, int), GcError>, ghost run: seq<Step>)
      requires Valid() && me !in calls && around.Around(me)
      modifies this
      ensures me !in calls
      ensures r.Failure? ==> State() == Run(old(State()), run)
      ensures r.Success? ==> With(State(), me, Ready(reportID, r.value.0, r.value.1)) == Run(old(State()), run)
      ensures r.Success? ==> Reported(old(State()), reportID) && r.value.0 == old(reports)[reportID].report
      ensures !deleteEnabled ==> r == Failure(Unsupported)
      ensures deleteEnabled && !around.readFails && reportID !in old(reports) ==> r == Failure(NotFound)
      ensures deleteEnabled && !around.readFails && reportID in old(reports) && old(reports)[reportID].outcome.Some?
              ==> r == Failure(Conflict) && run == []
      ensures r == Failure(Unsupported) || r == Failure(NotFound) ==> run == []
      ensures around.Quiet() && Reported(old(State()), reportID) ==>
        && State() == old(State())
        && r == if old(reg).clock < old(reports)[reportID].report.expiresAt
                then Success((old(reports)[reportID].report, old(reg).clock)) else Failure(Expired)
      ensures around.Still() ==> reg.blobs == old(reg).blobs
    {
      hide Next, NextCall, NextEnv, Unlinked, Candidates, Enumerates, Digests, Accounted, Prune;
      ghost var start := State();
      if !deleteEnabled { return Failure(Unsupported), []; }
      if around.readFails { return Failure(StoreFailed), []; }
      if reportID !in reports { return Failure(NotFound), []; }
      var detail := reports[reportID];
      if detail.outcome.Some? { return Failure(Conflict), []; }
      var report := detail.report;
      FetchStep(start, me, reportID);
      run := [Act(me, Fetch(reportID))];

      Interleave(around.beforeClock, me, Fetched(reportID, report));
      RunConcat(start, run, around.beforeClock);
      run := run + around.beforeClock;
      InvAlways(start, run);
      WaiterHoldsNoGate(State(), me, Fetched(reportID, report));
      var now := reg.clock;
      ExpiryStep(State(), start, run, me, reportID, report);
      run := run + [Act(me, CheckExpiry)];
      if !(now < report.expiresAt) { return Failure(Expired), run; }
      return Success((report, now)), run;
    }

    /** Waiting for the gate. */
    method AcquireGate(me: CallId, reportID: ReportId, report: Report, now: int, around: Surroundings,
                       ghost start: World, ghost before: seq<Step>)
      returns (acquired: bool, ghost run: seq<Step>)
      requires me !in calls && around.Around(me)
      requires Inv(start) && With(State(), me, Ready(reportID, report, now)) == Run(start, before)
      modifies this
      ensures me !in calls
      ensures !acquired ==> State() == Run(start, run)
      ensures acquired ==>
        gate == Some(me) && With(State(), me, Listing(Deletion(reportID, report), now)) == Run(start, run)
      ensures around.Quiet() && old(gate).None? ==> acquired && State() == Gated(old(State()), Some(me))
      ensures around.Still() ==> reg.blobs == old(reg).blobs
    {
      hide Next, NextCall, NextEnv, Unlinked, Inv, Run;
      Interleave(around.beforeGate, me, Ready(reportID, report, now));
      RunConcat(start, before, around.beforeGate);
      run := before + around.beforeGate;
      assert Inv(Run(start, run)) by { InvAlways(start, run); }
      WaiterHoldsNoGate(State(), me, Ready(reportID, report, now));
      if gate.Some? || around.cancelled {
        Abandoned(State(), start, run, me, Ready(reportID, report, now));
        return false, run + [Act(me, Fail)];
      }
      AcquireStep(State(), start, run, me, reportID, report, now);
      gate := Some(me);
      return true, run + [Act(me, Acquire)];
    }

    /** Everything before the selection: flag, report, single use, expiry, gate. */
    method Admit(me: CallId, reportID: ReportId, around: Surroundings)
      returns (r: Result<(Report, int), GcError>, ghost run: seq<Step>)
      requires Valid() && me !in calls && around.Around(me)
      modifies this
      ensures me !in calls
      ensures r.Failure? ==> State() == Run(old(State()), run)
      ensures r.Success? ==> gate == Some(me)
      ensures r.Success? ==>
        With(State(), me, Listing(Deletion(reportID, r.value.0), r.value.1)) == Run(old(State()), run)
      ensures r.Success? ==> Reported(old(State()), reportID) && r.value.0 == old(reports)[reportID].report
      ensures !deleteEnabled ==> r == Failure(Unsupported)
      ensures deleteEnabled && !around.readFails && reportID !in old(reports) ==> r == Failure(NotFound)
      ensures deleteEnabled && !around.readFails && reportID in old(reports) && old(reports)[reportID].outcome.Some?
              ==> r == Failure(Conflict) && run == []
      ensures r == Failure(Unsupported) || r == Failure(NotFound) ==> run == []
      ensures around.Quiet() && Reported(old(State()), reportID) && old(gate).None? ==>
        if old(reg).clock < old(reports)[reportID].report.expiresAt
        then r.Success? && r.value.1 == old(reg).clock && State() == Gated(old(State()), Some(me))
        else r == Failure(Expired) && State() == old(State())
      ensures around.Still() ==> reg.blobs == old(reg).blobs
    {
      hide Next, NextCall, NextEnv, Unlinked, Inv, Run;
      var read, run1 := ReadReport(me, reportID, around);
      if read.Failure? { return read, run1; }
      var (report, now) := read.value;
      var acquired, run2 := AcquireGate(me, reportID, report, now, around, old(State()), run1);
      return if acquired then read else Failure(Cancelled), run2;
    }

    /** Freezing the report and letting go of the gate. */
    method Conclude(me: CallId, id: ReportId, report: Report, now: int, t: Tally, around: Surroundings,
                    ghost call: Call, ghost start: World, ghost before: seq<Step>)
      returns (r: Result<StoredReport, GcError>, ghost run: seq<Step>)
      requires me !in calls && gate == Some(me) && around.Around(me)
      requires call.Sweeping? && call.id == id && call.report == report && call.snapshot.now == now && call.tally == t
      requires Accounted(report.candidates, t) && |t.outcomes| == |report.candidates|
      requires Inv(start) && With(State(), me, call) == Run(start, before)
      modifies this
      ensures me !in calls && State() == Run(start, run)
      ensures r.Success? ==> id in reports && r.value == reports[id]
      ensures r.Success? ==> r.value.report == report && r.value.outcome == Some(Summary(t, |report.candidates|, now))
      ensures r.Failure? ==> r.error == Conflict || r.error == StoreFailed
      ensures around.Quiet() ==> reg == old(reg)
      ensures around.Quiet() && Reported(old(State()), id) ==> r.Success?
      ensures around.Still() ==> reg.blobs == old(reg).blobs
    {
      hide Next, NextCall, NextEnv, Unlinked, Run, Inv;
      Interleave(around.beforeWrite, me, call);
      RunConcat(start, before, around.beforeWrite);
      run := before + around.beforeWrite;
      SweeperKnowsReport(State(), start, run, me, call);
      if around.writeFails {
        Abandoned(State(), start, run, me, call);
        gate := None;
        return Failure(StoreFailed), run + [Act(me, Fail)];
      }
      FreezeStep(State(), start, run, me, call);
      run := run + [Act(me, Freeze)];
      r := Failure(Conflict);
      if id in reports && reports[id].outcome.None? {
        var frozen := DeleteOutcome(now, t.deletedCount, t.bytesReclaimed,
                                    if t.failureCount == 0 then NoError
                                    else UnlinksFailed(t.failureCount, |report.candidates|),
                                    t.outcomes);
        reports := reports[id := reports[id].(outcome := Some(frozen))];
        r := if around.rereadFails then Failure(StoreFailed) else Success(reports[id]);
      }
      gate := None;
    }

    method DeleteByGCReport(me: CallId, reportID: ReportId, around: Surroundings)
      returns (r: Result<StoredReport, GcError>, ghost run: seq<Step>)
      requires Valid() && me !in calls && around.Around(me)
      modifies this
      // The call is a run of the protocol, interleaved with everything else that happened.
      ensures Valid() && me !in calls && State() == Run(old(State()), run)
      // Flag, existence, single use: refused before anything is touched.
      ensures !deleteEnabled ==> r == Failure(Unsupported)
      ensures deleteEnabled && !around.readFails && reportID !in old(reports) ==> r == Failure(NotFound)
      ensures deleteEnabled && !around.readFails && reportID in old(reports) && old(reports)[reportID].outcome.Some?
              ==> r == Failure(Conflict) && run == []
      ensures r == Failure(Unsupported) || r == Failure(NotFound) ==> run == []
      // Success hands back the frozen report: every candidate accounted for, totals that add up.
      ensures r.Success? ==> Reported(old(State()), reportID) && reportID in reports && r.value == reports[reportID]
      ensures r.Success? ==> r.value.outcome.Some? && OutcomeOk(r.value.report, r.value.outcome.value)
      ensures r.Success? ==> r.value.report == old(reports)[reportID].report
      // Undisturbed by other writers, whatever fails: the disk shrinks by exactly the reported BytesReclaimed.
      ensures r.Success? && around.Still() ==>
        DiskBytes(reg.blobs) + r.value.outcome.value.bytesReclaimed == DiskBytes(old(reg).blobs)
      // Undisturbed, it goes through unless expired, and unlinks the reported files that are garbage now and no other.
      ensures around.Quiet() && Reported(old(State()), reportID) && old(gate).None? ==>
        var report := old(reports)[reportID].report;
        if old(reg).clock < report.expiresAt then
          r.Success? && reg == old(reg).(blobs := old(reg).blobs
            - (Digests(report.candidates) * Garbage(old(reg).blobs, Marked(old(reg).manifests), old(reg).clock)))
        else r == Failure(Expired) && State() == old(State())
    {
      hide Next, NextCall, NextEnv, Unlinked, Run, Inv, OutcomeOk, Accounted, Candidates, Garbage, Digests, Sweepable,
        DiskBytes;
      ghost var start := State();
      var admitted, run1 := Admit(me, reportID, around);
      run := run1;
      InvAlways(start, run);
      if admitted.Failure? { return Failure(admitted.error), run; }
      var (report, now) := admitted.value;
      var selected, run2, call, seen := GcCandidates(me, Deletion(reportID, report), now, around, start, run);
      run := run2;
      if selected.None? {
        Abandoned(State(), start, run, me, call);
        gate := None;
        run := run + [Act(me, Fail)];
        InvAlways(start, run);
        return Failure(StoreFailed), run;
      }
      var freshSet := DigestSet(selected.value);
      if around.Quiet() && start.gc.gate.None? { QuietlySweepable(start, reportID, call.snapshot); }
      var t, run3 := SweepReport(me, report, freshSet, around, call, start, run);
      var result, run4 := Conclude(me, reportID, report, now, t, around, call.(tally := t), start, run3);
      InvAlways(start, run4);
      OutcomeFrom(report, t, now);
      return result, run4;
    }
  }
}
