/**
 The blob garbage collector as a state machine: registry contents, stored
 reports, the single-flight gate, and any number of concurrent calls, each
 advancing one store access at a time between steps of the environment.
 */
module GcProtocol {
  import opened Wrappers
  import opened Ordering
  import opened Text

  type Digest = string
  type CallId = string
  type ReportId = string
  type PushId = string

  // Times are nanoseconds.
  const HOUR: int := 3_600_000_000_000
  const GRACE_WINDOW: int := 24 * HOUR
  const REPORT_TTL: int := 24 * HOUR

  // ---------------------------------------------------------------- data

  datatype Blob = Blob(size: nat, mtime: int)

  datatype BlobInfo = BlobInfo(digest: Digest, size: nat, mtime: int)

  datatype Candidate = Candidate(digest: Digest, size: nat, mtime: int)

  datatype Outcome = Deleted | Retained | Missing | Failed

  datatype CandidateOutcome = CandidateOutcome(digest: Digest, outcome: Outcome)

  /** The immutable part of a report row and its candidate rows. */
  datatype Report = Report(computedAt: int, expiresAt: int, graceCutoff: int,
                           candidateCount: nat, candidateBytes: nat, candidates: seq<Candidate>)

  datatype ErrorText = NoError | UnlinksFailed(failed: nat, total: nat)

  datatype DeleteOutcome = DeleteOutcome(deletedAt: int, deletedCount: nat, bytesReclaimed: nat,
                                         error: ErrorText, outcomes: seq<CandidateOutcome>)

  /** A report row: status "reported" while `outcome` is None, "deleted" once it is set. */
  datatype StoredReport = StoredReport(report: Report, outcome: Option<DeleteOutcome>)

  datatype ManifestKey = ManifestKey(tenant: string, repository: string, digest: Digest)

  datatype Push = Push(key: ManifestKey, refs: set<Digest>)

  // ------------------------------------------------- mark and sweep, purely

  function DigestOf(c: Candidate): string { c.digest }

  function ListedDigest(b: BlobInfo): string { b.digest }

  predicate Selected(b: BlobInfo, marks: set<Digest>, cutoff: int) {
    b.digest !in marks && b.mtime < cutoff
  }

  function Select(listing: seq<BlobInfo>, marks: set<Digest>, cutoff: int): (r: seq<Candidate>) {
    if listing == [] then []
    else
      var last := listing[|listing| - 1];
      Select(listing[..|listing| - 1], marks, cutoff)
      + if Selected(last, marks, cutoff) then [Candidate(last.digest, last.size, last.mtime)] else []
  }

  function Candidates(listing: seq<BlobInfo>, marks: set<Digest>, now: int): (r: seq<Candidate>) {
    SortBy(DigestOf, Select(listing, marks, now - GRACE_WINDOW))
  }

  function Digests(candidates: seq<Candidate>): set<Digest> {
    set i | 0 <= i < |candidates| :: candidates[i].digest
  }

  function Bytes(candidates: seq<Candidate>): nat {
    if candidates == [] then 0
    else Bytes(candidates[..|candidates| - 1]) + candidates[|candidates| - 1].size
  }

  /** The rule itself: on disk, unmarked, and older than the grace cutoff. */
  function Garbage(blobs: map<Digest, Blob>, marks: set<Digest>, now: int): set<Digest> {
    set d | d in blobs && d !in marks && blobs[d].mtime < now - GRACE_WINDOW
  }

  function NewReport(now: int, candidates: seq<Candidate>): Report {
    Report(now, now + REPORT_TTL, now - GRACE_WINDOW, |candidates|, Bytes(candidates), candidates)
  }

  // ------------------------------------------------------ delete accounting

  /** The delete loop's running variables. */
  datatype Tally = Tally(outcomes: seq<CandidateOutcome>, deletedCount: nat,
                         bytesReclaimed: nat, failureCount: nat)

  const NO_TALLY := Tally([], 0, 0, 0)

  function Book(t: Tally, c: Candidate, o: Outcome): Tally {
    Tally(t.outcomes + [CandidateOutcome(c.digest, o)],
          t.deletedCount + (if o == Deleted then 1 else 0),
          t.bytesReclaimed + (if o == Deleted then c.size else 0),
          t.failureCount + (if o == Failed then 1 else 0))
  }

  function CountOf(outcomes: seq<CandidateOutcome>, o: Outcome): nat {
    |Positions(outcomes, o)|
  }

  function Positions(outcomes: seq<CandidateOutcome>, o: Outcome): set<nat> {
    set i: nat | i < |outcomes| && outcomes[i].outcome == o
  }

  /** Sizes of the candidates whose outcome is Deleted, added up. */
  function DeletedBytes(candidates: seq<Candidate>, outcomes: seq<CandidateOutcome>): nat
    requires |outcomes| <= |candidates|
  {
    if outcomes == [] then 0
    else
      var k := |outcomes| - 1;
      DeletedBytes(candidates, outcomes[..k])
      + if outcomes[k].outcome == Deleted then candidates[k].size else 0
  }

  /** One outcome per candidate so far, in candidate order, and counters that add them up. */
  predicate Accounted(candidates: seq<Candidate>, t: Tally) {
    && |t.outcomes| <= |candidates|
    && (forall i :: 0 <= i < |t.outcomes| ==> t.outcomes[i].digest == candidates[i].digest)
    && t.deletedCount == CountOf(t.outcomes, Deleted)
    && t.bytesReclaimed == DeletedBytes(candidates, t.outcomes)
    && t.failureCount == CountOf(t.outcomes, Failed)
  }

  function Summary(t: Tally, total: nat, now: int): DeleteOutcome {
    DeleteOutcome(now, t.deletedCount, t.bytesReclaimed,
                  if t.failureCount > 0 then UnlinksFailed(t.failureCount, total) else NoError,
                  t.outcomes)
  }

  // ------------------------------------------------------------- the world

  /** Files, manifests and pushes; `sizes` records the size of every content ever committed. */
  datatype Registry = Registry(clock: int, blobs: map<Digest, Blob>, sizes: map<Digest, nat>,
                               manifests: map<ManifestKey, set<Digest>>, pushes: map<PushId, Push>)

  datatype Purpose = Preview | Deletion(id: ReportId, report: Report)

  /** Where a call in flight stands: the local variables it has so far. */
  datatype Call =
    | Fetched(id: ReportId, report: Report)
    | Ready(id: ReportId, report: Report, now: int)
    | Listing(purpose: Purpose, now: int)
    | Marking(purpose: Purpose, now: int, listing: seq<BlobInfo>)
    | Creating(now: int, candidates: seq<Candidate>)
    | Sweeping(id: ReportId, report: Report, snapshot: Snapshot, tally: Tally)
  {
    predicate HoldsGate() { !Fetched? && !Ready? }
  }

  /** A delete call's own recomputation: what it listed, what was marked, and what that selects. */
  datatype Snapshot = Snapshot(now: int, listing: seq<BlobInfo>, marks: set<Digest>, freshSet: set<Digest>)

  /** Report rows, the gate and the calls in flight; `created` records every report ever made. */
  datatype Collector = Collector(deleteEnabled: bool, reports: map<ReportId, StoredReport>,
                                 created: map<ReportId, Report>, gate: Option<CallId>, calls: map<CallId, Call>)

  datatype World = World(reg: Registry, gc: Collector)

  function Marked(manifests: map<ManifestKey, set<Digest>>): set<Digest> {
    set k, d | k in manifests && d in manifests[k] :: d
  }

  predicate Enumerates(listing: seq<BlobInfo>, blobs: map<Digest, Blob>) {
    && DistinctKeys(ListedDigest, listing)
    && (forall i :: 0 <= i < |listing| ==>
          listing[i].digest in blobs && blobs[listing[i].digest] == Blob(listing[i].size, listing[i].mtime))
    && (forall d :: d in blobs ==> exists i :: 0 <= i < |listing| && listing[i].digest == d)
  }

  function Prune(reports: map<ReportId, StoredReport>, now: int): map<ReportId, StoredReport> {
    map id | id in reports && !(reports[id].outcome.None? && reports[id].report.expiresAt <= now) :: reports[id]
  }

  // ------------------------------------------------------------------ steps

  datatype Env =
    | CommitBlob(digest: Digest, size: nat, mtime: int)
    | PublishCheck(push: PushId, key: ManifestKey, refs: set<Digest>)
    | PublishWrite(push: PushId)
    | PublishAbort(push: PushId)
    | DeleteManifests(keys: set<ManifestKey>)
    | Advance(span: nat)

  datatype Fault = NoFault | RecheckFails | UnlinkFails

  datatype Action =
    | ComputeStart
    | Fetch(id: ReportId)
    | CheckExpiry
    | Acquire
    | List(listing: seq<BlobInfo>)
    | Mark
    | Create(id: ReportId)
    | Sweep(fault: Fault)
    | Freeze
    | Fail // a store error or a cancelled context ends the call

  datatype Step = Outside(env: Env) | Act(call: CallId, action: Action)

  function NextEnv(r: Registry, e: Env): Registry {
    match e
    case CommitBlob(d, size, mtime) =>
      // The upload file is renamed over any file of the same content and keeps its own mtime.
      if ValidDigest(d) && mtime <= r.clock && (d in r.sizes ==> r.sizes[d] == size)
      then r.(blobs := r.blobs[d := Blob(size, mtime)], sizes := r.sizes[d := size]) else r
    case PublishCheck(p, key, refs) =>
      if p !in r.pushes && refs <= r.blobs.Keys then r.(pushes := r.pushes[p := Push(key, refs)]) else r
    case PublishWrite(p) =>
      if p in r.pushes
      then r.(manifests := r.manifests[r.pushes[p].key := r.pushes[p].refs], pushes := r.pushes - {p}) else r
    case PublishAbort(p) => r.(pushes := r.pushes - {p})
    case DeleteManifests(keys) => r.(manifests := r.manifests - keys)
    case Advance(span) => r.(clock := r.clock + span)
  }

  function Leave(g: Collector, c: CallId): Collector {
    g.(calls := g.calls - {c}, gate := if g.gate == Some(c) then None else g.gate)
  }

  function Enter(g: Collector, c: CallId, call: Call): Collector {
    g.(calls := g.calls[c := call])
  }

  /** A store access by call `c`, as seen by the reports, the gate and the calls. */
  function NextCall(g: Collector, r: Registry, c: CallId, a: Action): Collector {
    if c !in g.calls then Start(g, r, c, a)
    else if a.Fail? then Leave(g, c)
    else Resume(g, r, c, g.calls[c], a)
  }

  function Start(g: Collector, r: Registry, c: CallId, a: Action): Collector {
    match a
    case ComputeStart =>
      if g.gate.None?
      then Enter(g, c, Listing(Preview, r.clock)).(gate := Some(c), reports := Prune(g.reports, r.clock)) else g
    case Fetch(id) =>
      if g.deleteEnabled && id in g.reports && g.reports[id].outcome.None?
      then Enter(g, c, Fetched(id, g.reports[id].report)) else g
    case _ => g
  }

  /** The next store access of a call, from the local variables it has so far. */
  function Resume(g: Collector, r: Registry, c: CallId, call: Call, a: Action): Collector {
    match call
    case Fetched(id, report) =>
      if !a.CheckExpiry? then g
      else if r.clock < report.expiresAt then Enter(g, c, Ready(id, report, r.clock))
      else Leave(g, c)
    case Ready(id, report, now) =>
      if a.Acquire? && g.gate.None?
      then Enter(g, c, Listing(Deletion(id, report), now)).(gate := Some(c)) else g
    case Listing(purpose, now) =>
      if a.List? && Enumerates(a.listing, r.blobs) then Enter(g, c, Marking(purpose, now, a.listing)) else g
    case Marking(purpose, now, listing) =>
      if a.Mark? then Enter(g, c, AfterMark(purpose, now, listing, Marked(r.manifests))) else g
    case Creating(now, candidates) =>
      if a.Create? && a.id !in g.created then StoreReport(g, c, a.id, NewReport(now, candidates)) else g
    case Sweeping(id, report, snapshot, tally) =>
      if a.Sweep? && |tally.outcomes| < |report.candidates| then
        Enter(g, c, call.(tally := Book(tally, report.candidates[|tally.outcomes|], SweepOutcome(r, call, a.fault))))
      else if a.Freeze? && |tally.outcomes| == |report.candidates| then
        FreezeReport(g, c, id, Summary(tally, |report.candidates|, snapshot.now))
      else g
  }

  /** Both reads of the selection are in: preview and delete part ways. */
  function AfterMark(purpose: Purpose, now: int, listing: seq<BlobInfo>, marks: set<Digest>): Call {
    var selected := Candidates(listing, marks, now);
    match purpose
    case Preview => Creating(now, selected)
    case Deletion(id, report) => Sweeping(id, report, Snapshot(now, listing, marks, Digests(selected)), NO_TALLY)
  }

  function StoreReport(g: Collector, c: CallId, id: ReportId, report: Report): Collector {
    Leave(g, c).(reports := g.reports[id := StoredReport(report, None)], created := g.created[id := report])
  }

  /** The compare-and-set on the report row; zero rows updated is a conflict error. */
  function FreezeReport(g: Collector, c: CallId, id: ReportId, frozen: DeleteOutcome): Collector {
    if id in g.reports && g.reports[id].outcome.None?
    then Leave(g, c).(reports := g.reports[id := g.reports[id].(outcome := Some(frozen))])
    else Leave(g, c)
  }

  /** One candidate's turn: re-check, then unlink. */
  function SweepOutcome(r: Registry, call: Call, fault: Fault): Outcome
    requires call.Sweeping? && |call.tally.outcomes| < |call.report.candidates|
  {
    var d := call.report.candidates[|call.tally.outcomes|].digest;
    if d !in call.snapshot.freshSet then Retained
    else if !ValidDigest(d) then Failed
    else if fault == RecheckFails then Failed
    else if d in Marked(r.manifests) then Retained
    else if fault == UnlinkFails then Failed
    else if d !in r.blobs then Missing
    else Deleted
  }

  /** The files a step takes off the disk. */
  function Unlinked(w: World, s: Step): set<Digest> {
    if s.Act? && s.action.Sweep? && s.call in w.gc.calls && w.gc.calls[s.call].Sweeping? then
      var call := w.gc.calls[s.call];
      if |call.tally.outcomes| < |call.report.candidates| && SweepOutcome(w.reg, call, s.action.fault) == Deleted
      then {call.report.candidates[|call.tally.outcomes|].digest} else {}
    else {}
  }

  function Next(w: World, s: Step): World {
    match s
    case Outside(e) => World(NextEnv(w.reg, e), w.gc)
    case Act(c, a) => World(w.reg.(blobs := w.reg.blobs - Unlinked(w, s)), NextCall(w.gc, w.reg, c, a))
  }

  /** Any sequence of steps; a step that is not enabled changes nothing. */
  function Run(w: World, run: seq<Step>): World {
    if run == [] then w else Next(Run(w, run[..|run| - 1]), run[|run| - 1])
  }

  /** An empty registry no call is working on. */
  predicate Initial(w: World) {
    && w.reg.blobs == map[] && w.reg.sizes == map[] && w.reg.manifests == map[] && w.reg.pushes == map[]
    && w.gc.reports == map[] && w.gc.created == map[] && w.gc.gate == None && w.gc.calls == map[]
  }

  lemma RunNil(w: World)
    ensures Run(w, []) == w
  {
  }

  lemma RunSnoc(w: World, run: seq<Step>, s: Step)
    ensures Run(w, run + [s]) == Next(Run(w, run), s)
  {
    assert (run + [s])[..|run|] == run;
  }

  lemma {:induction false} RunConcat(w: World, a: seq<Step>, b: seq<Step>)
    ensures Run(w, a + b) == Run(Run(w, a), b)
  {
    if b == [] {
      assert a + b == a;
    } else {
      var k := |b| - 1;
      RunConcat(w, a, b[..k]);
      assert (a + b)[..|a + b| - 1] == a + b[..k];
    }
  }
}
