/** What every step of the collector and of its environment keeps. */
module GcInvariants {
  import opened Wrappers
  import opened Ordering
  import opened GcProtocol
  import opened GcCandidates
  import opened Text

  // ------------------------------------------------------------- invariants

  /** Every file is a committed content of its digest. */
  ghost predicate FilesInv(r: Registry) {
    forall d :: d in r.blobs ==>
      ValidDigest(d) && r.blobs[d].mtime <= r.clock && d in r.sizes && r.sizes[d] == r.blobs[d].size
  }

  /** The gate admits one caller, and exactly the one recorded as its holder. */
  ghost predicate GateInv(g: Collector) {
    && (forall c :: c in g.calls && g.calls[c].HoldsGate() ==> g.gate == Some(c))
    && (g.gate.Some? ==> g.gate.value in g.calls && g.calls[g.gate.value].HoldsGate())
  }

  ghost predicate CandidatesOk(r: Registry, candidates: seq<Candidate>, cutoff: int) {
    && StrictlySorted(DigestOf, candidates)
    && forall c :: c in candidates ==>
         ValidDigest(c.digest) && c.digest in r.sizes && r.sizes[c.digest] == c.size && c.mtime < cutoff
  }

  ghost predicate ReportOk(r: Registry, report: Report) {
    && report == NewReport(report.computedAt, report.candidates) && report.computedAt <= r.clock
    && CandidatesOk(r, report.candidates, report.graceCutoff)
  }

  /** A frozen outcome: one entry per candidate in order, and totals that follow from the entries. */
  ghost predicate OutcomeOk(report: Report, o: DeleteOutcome) {
    exists t :: Accounted(report.candidates, t) && |t.outcomes| == |report.candidates|
                && o == Summary(t, |report.candidates|, o.deletedAt)
  }

  ghost predicate ReportsInv(w: World) {
    && (forall id :: id in w.gc.created ==> ReportOk(w.reg, w.gc.created[id]))
    && (forall id :: id in w.gc.reports ==> id in w.gc.created && w.gc.reports[id].report == w.gc.created[id])
    && (forall id :: id in w.gc.reports && w.gc.reports[id].outcome.Some? ==>
          OutcomeOk(w.gc.reports[id].report, w.gc.reports[id].outcome.value))
  }

  ghost predicate ListingOk(r: Registry, listing: seq<BlobInfo>) {
    && DistinctKeys(ListedDigest, listing)
    && forall i :: 0 <= i < |listing| ==>
         ValidDigest(listing[i].digest) && listing[i].digest in r.sizes && r.sizes[listing[i].digest] == listing[i].size
  }

  /** The call works from a report that was once stored under `id`, and was unexpired at `now`. */
  ghost predicate Known(g: Collector, id: ReportId, report: Report) {
    id in g.created && g.created[id] == report
  }

  ghost predicate PurposeOk(g: Collector, p: Purpose, now: int) {
    p.Deletion? ==> Known(g, p.id, p.report) && now < p.report.expiresAt
  }

  ghost predicate CallOk(w: World, call: Call) {
    match call
    case Fetched(id, report) => Known(w.gc, id, report)
    case Ready(id, report, now) => now <= w.reg.clock && Known(w.gc, id, report) && now < report.expiresAt
    case Listing(purpose, now) => now <= w.reg.clock && PurposeOk(w.gc, purpose, now)
    case Marking(purpose, now, listing) =>
      now <= w.reg.clock && PurposeOk(w.gc, purpose, now) && ListingOk(w.reg, listing)
    case Creating(now, candidates) => now <= w.reg.clock && CandidatesOk(w.reg, candidates, now - GRACE_WINDOW)
    case Sweeping(id, report, snapshot, tally) =>
      && snapshot.now <= w.reg.clock && Known(w.gc, id, report) && snapshot.now < report.expiresAt
      && ListingOk(w.reg, snapshot.listing)
      && snapshot.freshSet == Digests(Candidates(snapshot.listing, snapshot.marks, snapshot.now))
      && Accounted(report.candidates, tally)
  }

  ghost predicate CallsInv(w: World) {
    forall c :: c in w.gc.calls ==> CallOk(w, w.gc.calls[c])
  }

  ghost predicate Inv(w: World) {
    FilesInv(w.reg) && GateInv(w.gc) && ReportsInv(w) && CallsInv(w)
  }

  // ------------------------------------------------------------ preservation

  /** Bookkeeping only grows. */
  ghost predicate Grows(w: World, v: World) {
    && w.reg.clock <= v.reg.clock
    && (forall d :: d in w.reg.sizes ==> d in v.reg.sizes && v.reg.sizes[d] == w.reg.sizes[d])
    && (forall id :: id in w.gc.created ==> id in v.gc.created && v.gc.created[id] == w.gc.created[id])
  }

  lemma NextGrows(w: World, s: Step)
    ensures Grows(w, Next(w, s))
  {
  }

  lemma CallOkGrows(w: World, v: World, call: Call)
    requires Grows(w, v) && CallOk(w, call)
    ensures CallOk(v, call)
  {
  }

  lemma FilesKept(w: World, s: Step)
    requires FilesInv(w.reg)
    ensures FilesInv(Next(w, s).reg)
  {
  }

  lemma GateKept(g: Collector, r: Registry, c: CallId, a: Action)
    requires GateInv(g)
    ensures GateInv(NextCall(g, r, c, a))
  {
    hide Enumerates, Candidates, Digests, Marked, Prune, Book, SweepOutcome, NewReport, Summary;
  }

  lemma CountSnoc(outcomes: seq<CandidateOutcome>, entry: CandidateOutcome, x: Outcome)
    ensures CountOf(outcomes + [entry], x) == CountOf(outcomes, x) + if entry.outcome == x then 1 else 0
  {
    var k := |outcomes|;
    if entry.outcome == x {
      assert Positions(outcomes + [entry], x) == Positions(outcomes, x) + {k};
    } else {
      assert Positions(outcomes + [entry], x) == Positions(outcomes, x);
    }
  }

  lemma BookKeepsAccount(candidates: seq<Candidate>, t: Tally, o: Outcome)
    requires Accounted(candidates, t) && |t.outcomes| < |candidates|
    ensures Accounted(candidates, Book(t, candidates[|t.outcomes|], o))
  {
    hide CountOf;
    var entry := CandidateOutcome(candidates[|t.outcomes|].digest, o);
    assert (t.outcomes + [entry])[..|t.outcomes|] == t.outcomes;
    CountSnoc(t.outcomes, entry, Deleted);
    CountSnoc(t.outcomes, entry, Failed);
  }

  lemma AfterMarkOk(w: World, purpose: Purpose, now: int, listing: seq<BlobInfo>, marks: set<Digest>)
    requires CallOk(w, Marking(purpose, now, listing))
    ensures CallOk(w, AfterMark(purpose, now, listing, marks))
  {
    CandidatesSorted(listing, marks, now);
    CandidateMembers(listing, marks, now);
  }

  lemma ListedOk(r: Registry, listing: seq<BlobInfo>)
    requires FilesInv(r) && Enumerates(listing, r.blobs)
    ensures ListingOk(r, listing)
  {
  }

  lemma ResumedCallOk(w: World, c: CallId, a: Action)
    requires FilesInv(w.reg) && c in w.gc.calls && CallOk(w, w.gc.calls[c])
    ensures var v := NextCall(w.gc, w.reg, c, a); c in v.calls ==> CallOk(w, v.calls[c])
  {
    hide Accounted, Candidates, Digests, SweepOutcome, Marked, Enumerates, ListingOk, CandidatesOk, FilesInv;
    var call := w.gc.calls[c];
    if call.Listing? && a.List? {
      if Enumerates(a.listing, w.reg.blobs) { ListedOk(w.reg, a.listing); }
    } else if call.Marking? && a.Mark? {
      AfterMarkOk(w, call.purpose, call.now, call.listing, Marked(w.reg.manifests));
    } else if call.Sweeping? && a.Sweep? && |call.tally.outcomes| < |call.report.candidates| {
      BookKeepsAccount(call.report.candidates, call.tally, SweepOutcome(w.reg, call, a.fault));
    }
  }

  /** A call's step touches no other call's variables. */
  lemma OthersUntouched(g: Collector, r: Registry, c: CallId, a: Action, other: CallId)
    requires other != c
    ensures other in NextCall(g, r, c, a).calls <==> other in g.calls
    ensures other in g.calls ==> NextCall(g, r, c, a).calls[other] == g.calls[other]
  {
  }

  lemma CallsKept(w: World, s: Step)
    requires Inv(w)
    ensures CallsInv(Next(w, s))
  {
    var v := Next(w, s);
    NextGrows(w, s);
    forall c | c in v.gc.calls ensures CallOk(v, v.gc.calls[c]) {
      if s.Act? && s.call == c {
        if c in w.gc.calls { ResumedCallOk(w, c, s.action); }
      } else if s.Act? {
        OthersUntouched(w.gc, w.reg, s.call, s.action, c);
      }
      CallOkGrows(w, v, v.gc.calls[c]);
    }
  }

  lemma ReportOkGrows(w: World, v: World, report: Report)
    requires Grows(w, v) && ReportOk(w.reg, report)
    ensures ReportOk(v.reg, report)
  {
  }

  /** What a call's step may do to the report rows. */
  lemma ReportRows(g: Collector, r: Registry, c: CallId, a: Action, id: ReportId)
    ensures var v := NextCall(g, r, c, a);
      (id in v.reports ==>
        || (id in g.reports && v.reports[id] == g.reports[id])
        || (a.Create? && c in g.calls && g.calls[c].Creating? && id !in g.created && v.reports[id].outcome.None?
            && id in v.created && v.reports[id].report == v.created[id])
        || (a.Freeze? && c in g.calls && g.calls[c].Sweeping? && id in g.reports && g.reports[id].outcome.None?
            && g.calls[c].id == id && |g.calls[c].tally.outcomes| == |g.calls[c].report.candidates|
            && v.reports[id] == StoredReport(g.reports[id].report,
                 Some(Summary(g.calls[c].tally, |g.calls[c].report.candidates|, g.calls[c].snapshot.now)))))
  {
  }

  lemma CreatedRow(g: Collector, r: Registry, c: CallId, a: Action, id: ReportId)
    requires id in NextCall(g, r, c, a).created && id !in g.created
    ensures c in g.calls && g.calls[c].Creating?
    ensures NextCall(g, r, c, a).created[id] == NewReport(g.calls[c].now, g.calls[c].candidates)
  {
  }

  lemma CreatedKept(w: World, s: Step, id: ReportId)
    requires Inv(w) && id in Next(w, s).gc.created
    ensures ReportOk(Next(w, s).reg, Next(w, s).gc.created[id])
  {
    hide NextCall, NextEnv, Unlinked;
    NextGrows(w, s);
    if id in w.gc.created {
      ReportOkGrows(w, Next(w, s), w.gc.created[id]);
    } else {
      CreatedRow(w.gc, w.reg, s.call, s.action, id);
      assert CallOk(w, w.gc.calls[s.call]);
      ReportOkGrows(w, Next(w, s), Next(w, s).gc.created[id]);
    }
  }

  lemma RowKept(w: World, c: CallId, a: Action, id: ReportId)
    requires Inv(w) && id in NextCall(w.gc, w.reg, c, a).reports
    ensures var g := NextCall(w.gc, w.reg, c, a);
      && id in g.created && g.reports[id].report == g.created[id]
      && (g.reports[id].outcome.Some? ==> OutcomeOk(g.reports[id].report, g.reports[id].outcome.value))
  {
    NextGrows(w, Act(c, a));
    ReportRows(w.gc, w.reg, c, a, id);
    if id in w.gc.reports && w.gc.reports[id] != NextCall(w.gc, w.reg, c, a).reports[id] {
      assert CallOk(w, w.gc.calls[c]);
    }
  }

  lemma ReportsKept(w: World, s: Step)
    requires Inv(w)
    ensures ReportsInv(Next(w, s))
  {
    hide NextCall, NextEnv, Unlinked, ReportOk, OutcomeOk;
    forall id | id in Next(w, s).gc.created ensures ReportOk(Next(w, s).reg, Next(w, s).gc.created[id]) {
      CreatedKept(w, s, id);
    }
    if s.Act? {
      forall id | id in Next(w, s).gc.reports
        ensures id in Next(w, s).gc.created && Next(w, s).gc.reports[id].report == Next(w, s).gc.created[id]
        ensures Next(w, s).gc.reports[id].outcome.Some? ==>
          OutcomeOk(Next(w, s).gc.reports[id].report, Next(w, s).gc.reports[id].outcome.value)
      {
        RowKept(w, s.call, s.action, id);
      }
    }
  }

  lemma InvKept(w: World, s: Step)
    requires Inv(w)
    ensures Inv(Next(w, s))
  {
    FilesKept(w, s);
    if s.Act? { GateKept(w.gc, w.reg, s.call, s.action); }
    CallsKept(w, s);
    ReportsKept(w, s);
  }

  /** Every state any interleaving reaches is consistent, and every frozen report adds up. */
  lemma {:induction false} InvAlways(w: World, run: seq<Step>)
    requires Inv(w)
    ensures Inv(Run(w, run))
  {
    if run != [] {
      InvAlways(w, run[..|run| - 1]);
      InvKept(Run(w, run[..|run| - 1]), run[|run| - 1]);
    }
  }
}
