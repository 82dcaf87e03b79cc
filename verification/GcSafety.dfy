/** What the collector never does, over every interleaving of calls and environment. */
module GcSafety {
  import opened Wrappers
  import opened Ordering
  import opened GcProtocol
  import opened GcCandidates
  import opened GcInvariants
  import opened Text

  // ------------------------------------------------------ under-deletion

  /** Digest `d` is out of its grace window and unmarked in the snapshot. */
  ghost predicate SnapshotSelects(s: Snapshot, d: Digest) {
    && d !in s.marks
    && exists i :: 0 <= i < |s.listing| && s.listing[i].digest == d && s.listing[i].mtime < s.now - GRACE_WINDOW
  }

  /** Call `c` may unlink `d`: previewed in its report, selected afresh, unreferenced right now. */
  ghost predicate Entitled(w: World, c: CallId, d: Digest) {
    && c in w.gc.calls && w.gc.calls[c].Sweeping?
    && var call := w.gc.calls[c];
       && call.id in w.gc.created && d in Digests(w.gc.created[call.id].candidates)
       && call.snapshot.now < w.gc.created[call.id].expiresAt
       && SnapshotSelects(call.snapshot, d)
       && d !in Marked(w.reg.manifests)
  }

  lemma UnlinkedEntitled(w: World, s: Step, d: Digest)
    requires Inv(w) && d in Unlinked(w, s)
    ensures s.Act? && Entitled(w, s.call, d) && w.gc.gate == Some(s.call)
  {
    var call := w.gc.calls[s.call];
    assert CallOk(w, call);
    assert call.HoldsGate();
    assert d == call.report.candidates[|call.tally.outcomes|].digest;
    DigestsOfCandidates(call.snapshot.listing, call.snapshot.marks, call.snapshot.now, d);
  }

  lemma FilesOnlyUnlinked(w: World, s: Step, d: Digest)
    requires d in w.reg.blobs && d !in Next(w, s).reg.blobs
    ensures d in Unlinked(w, s)
  {
  }

  /** Only a sweep takes files away, and only ones it is entitled to. */
  lemma DeleteOnlyUnderDeletes(w0: World, run: seq<Step>, s: Step, d: Digest)
    requires Initial(w0)
    requires d in Run(w0, run).reg.blobs && d !in Next(Run(w0, run), s).reg.blobs
    ensures s.Act? && Entitled(Run(w0, run), s.call, d)
  {
    InvAlways(w0, run);
    var w := Run(w0, run);
    FilesOnlyUnlinked(w, s, d);
    UnlinkedEntitled(w, s, d);
  }

  // --------------------------------------------------- referenced blobs stay

  ghost predicate Referenced(r: Registry) {
    forall k, d :: k in r.manifests && d in r.manifests[k] ==> d in r.blobs
  }

  /** A publication that takes effect finds its files: what its writer could check. */
  ghost predicate WriteBacked(w: World, s: Step) {
    s.Outside? && s.env.PublishWrite? && s.env.push in w.reg.pushes ==>
      w.reg.pushes[s.env.push].refs <= w.reg.blobs.Keys
  }

  ghost predicate WritesBacked(w: World, run: seq<Step>) {
    forall i :: 0 <= i < |run| ==> WriteBacked(Run(w, run[..i]), run[i])
  }

  ghost predicate AlwaysReferenced(w: World, run: seq<Step>) {
    forall i :: 0 <= i <= |run| ==> Referenced(Run(w, run[..i]).reg)
  }

  /** No step of any call breaks a reference; of the others only a publication over missing files does. */
  lemma ReferencedStep(w: World, s: Step)
    requires Inv(w) && Referenced(w.reg)
    ensures Referenced(Next(w, s).reg) <==> WriteBacked(w, s)
  {
    if s.Act? {
      forall d | d in Unlinked(w, s) ensures d !in Marked(w.reg.manifests) { UnlinkedEntitled(w, s, d); }
    } else if !WriteBacked(w, s) {
      var push := w.reg.pushes[s.env.push];
      var d :| d in push.refs && d !in w.reg.blobs;
      assert d in Next(w, s).reg.manifests[push.key];
    }
  }

  /**
   Over every run, with every fault: every digest any manifest references has its file on disk all along if
   and only if every publication that takes effect finds its files at that moment.
   */
  lemma {:induction false} ReferencedIffWritesBacked(w0: World, run: seq<Step>)
    requires Inv(w0) && Referenced(w0.reg)
    ensures AlwaysReferenced(w0, run) <==> WritesBacked(w0, run)
  {
    hide Next, Inv, Referenced, WriteBacked;
    if run == [] {
      assert run[..0] == [];
    } else {
      var k := |run| - 1;
      ReferencedIffWritesBacked(w0, run[..k]);
      InvAlways(w0, run[..k]);
      assert forall i :: 0 <= i <= k ==> run[..k][..i] == run[..i];
      assert run[..k + 1] == run;
      if Referenced(Run(w0, run[..k]).reg) { ReferencedStep(Run(w0, run[..k]), run[k]); }
      assert AlwaysReferenced(w0, run) <==> AlwaysReferenced(w0, run[..k]) && Referenced(Run(w0, run).reg) by {
        LastPrefix(w0, run);
      }
      assert WritesBacked(w0, run) <==> WritesBacked(w0, run[..k]) && WriteBacked(Run(w0, run[..k]), run[k]) by {
        LastPrefix(w0, run);
      }
    }
  }

  lemma LastPrefix(w0: World, run: seq<Step>)
    requires run != []
    ensures var k := |run| - 1;
      && (AlwaysReferenced(w0, run) <==> AlwaysReferenced(w0, run[..k]) && Referenced(Run(w0, run).reg))
      && (WritesBacked(w0, run) <==> WritesBacked(w0, run[..k]) && WriteBacked(Run(w0, run[..k]), run[k]))
  {
    hide Run, Referenced, WriteBacked;
    var k := |run| - 1;
    assert forall i :: 0 <= i <= k ==> run[..k][..i] == run[..i];
    assert run[..k + 1] == run;
    if AlwaysReferenced(w0, run) {
      forall i | 0 <= i <= k ensures Referenced(Run(w0, run[..k][..i]).reg) {
        assert Referenced(Run(w0, run[..i]).reg);
      }
      assert Referenced(Run(w0, run[..k + 1]).reg);
    }
    if AlwaysReferenced(w0, run[..k]) && Referenced(Run(w0, run).reg) {
      forall i | 0 <= i <= k + 1 ensures Referenced(Run(w0, run[..i]).reg) {
        if i <= k { assert Referenced(Run(w0, run[..k][..i]).reg); }
      }
    }
    if WritesBacked(w0, run) {
      forall i | 0 <= i < k ensures WriteBacked(Run(w0, run[..k][..i]), run[..k][i]) {
        assert WriteBacked(Run(w0, run[..i]), run[i]);
      }
    }
    if WritesBacked(w0, run[..k]) && WriteBacked(Run(w0, run[..k]), run[k]) {
      forall i | 0 <= i < k + 1 ensures WriteBacked(Run(w0, run[..i]), run[i]) {
        if i < k { assert WriteBacked(Run(w0, run[..k][..i]), run[..k][i]); }
      }
    }
  }

  /** The step puts the content of `d` on disk. */
  ghost predicate Restores(w: World, s: Step, d: Digest) {
    Commits(s, d) && d in Next(w, s).reg.blobs
  }

  /** Step `j` unlinked `d` while push `p` was under way, and it was not committed again since. */
  ghost predicate TakenFrom(w0: World, run: seq<Step>, p: PushId, d: Digest, j: nat) {
    && j < |run| && d in Unlinked(Run(w0, run[..j]), run[j])
    && (forall k :: j <= k <= |run| ==> p in Run(w0, run[..k]).reg.pushes)
    && (forall k :: j < k < |run| ==> !Restores(Run(w0, run[..k]), run[k], d))
  }

  lemma TakenFromLonger(w0: World, run: seq<Step>, p: PushId, d: Digest, j: nat)
    requires run != [] && TakenFrom(w0, run[..|run| - 1], p, d, j)
    requires p in Run(w0, run).reg.pushes && !Restores(Run(w0, run[..|run| - 1]), run[|run| - 1], d)
    ensures TakenFrom(w0, run, p, d, j)
  {
    hide Run, Restores, Unlinked;
    var init, n := run[..|run| - 1], |run| - 1;
    assert init[..j] == run[..j] && init[j] == run[j];
    forall k | j <= k <= n + 1 ensures p in Run(w0, run[..k]).reg.pushes {
      if k <= n { assert init[..k] == run[..k]; } else { assert run[..k] == run; }
    }
    forall k | j < k < n + 1 ensures !Restores(Run(w0, run[..k]), run[k], d) {
      if k < n { assert init[..k] == run[..k] && init[k] == run[k]; } else { assert run[..k] == init; }
    }
  }

  lemma TakenFromShorter(w0: World, run: seq<Step>, p: PushId, d: Digest, j: nat)
    requires run != [] && j < |run| - 1 && TakenFrom(w0, run, p, d, j)
    ensures TakenFrom(w0, run[..|run| - 1], p, d, j)
    ensures p in Run(w0, run[..|run| - 1]).reg.pushes && !Restores(Run(w0, run[..|run| - 1]), run[|run| - 1], d)
  {
    hide Run, Restores, Unlinked;
    var init, n := run[..|run| - 1], |run| - 1;
    assert forall k :: 0 <= k <= n ==> init[..k] == run[..k];
  }

  /** A push's files vanish by a sweep after its check and come back by a commit. */
  lemma PushStep(w: World, s: Step, p: PushId, d: Digest)
    requires p in Next(w, s).reg.pushes && d in Next(w, s).reg.pushes[p].refs
    ensures p in w.reg.pushes && d in w.reg.pushes[p].refs && d in w.reg.blobs && d !in Next(w, s).reg.blobs
            ==> d in Unlinked(w, s)
    ensures !(p in w.reg.pushes && d in w.reg.pushes[p].refs) ==> d in Next(w, s).reg.blobs
    ensures d in Unlinked(w, s) ==> p in w.reg.pushes && d !in Next(w, s).reg.blobs && !Restores(w, s, d)
    ensures d !in w.reg.blobs ==> (d in Next(w, s).reg.blobs <==> Restores(w, s, d))
  {
    hide NextCall;
    if s.Outside? { hide Unlinked; }
  }

  lemma {:induction false} MissingWasTaken(w0: World, run: seq<Step>, p: PushId, d: Digest) returns (j: nat)
    requires w0.reg.pushes == map[] && p in Run(w0, run).reg.pushes && d in Run(w0, run).reg.pushes[p].refs
    requires d !in Run(w0, run).reg.blobs
    ensures TakenFrom(w0, run, p, d, j)
  {
    assert run != [];
    var init, n := run[..|run| - 1], |run| - 1;
    var w, s := Run(w0, init), run[n];
    assert Run(w0, run) == Next(w, s);
    hide Next, Unlinked, Restores, Run, TakenFrom;
    PushStep(w, s, p, d);
    if d in w.reg.blobs {
      j := n;
      TakenJustNow(w0, run, p, d);
    } else {
      j := MissingWasTaken(w0, init, p, d);
      TakenFromLonger(w0, run, p, d, j);
    }
  }

  lemma TakenJustNow(w0: World, run: seq<Step>, p: PushId, d: Digest)
    requires run != [] && d in Unlinked(Run(w0, run[..|run| - 1]), run[|run| - 1])
    requires p in Run(w0, run[..|run| - 1]).reg.pushes && p in Run(w0, run).reg.pushes
    ensures TakenFrom(w0, run, p, d, |run| - 1)
  {
    hide Run, Unlinked, Restores;
    assert run[..|run|] == run;
  }

  lemma {:induction false} TakenStaysMissing(w0: World, run: seq<Step>, p: PushId, d: Digest, j: nat)
    requires TakenFrom(w0, run, p, d, j)
    ensures d !in Run(w0, run).reg.blobs
  {
    var n := |run| - 1;
    if j == n {
      UnlinkedGone(Run(w0, run[..n]), run[n], d);
    } else {
      TakenFromShorter(w0, run, p, d, j);
      TakenStaysMissing(w0, run[..n], p, d, j);
      StaysGone(Run(w0, run[..n]), run[n], d);
    }
  }

  lemma UnlinkedGone(w: World, s: Step, d: Digest)
    requires d in Unlinked(w, s)
    ensures d !in Next(w, s).reg.blobs
  {
  }

  lemma StaysGone(w: World, s: Step, d: Digest)
    requires d !in w.reg.blobs && !Restores(w, s, d)
    ensures d !in Next(w, s).reg.blobs
  {
    hide NextCall;
  }

  /** A file of a push under way is missing exactly when it was unlinked after the push's check and not restored. */
  lemma MissingIffTaken(w0: World, run: seq<Step>, p: PushId, d: Digest)
    requires w0.reg.pushes == map[] && p in Run(w0, run).reg.pushes && d in Run(w0, run).reg.pushes[p].refs
    ensures d !in Run(w0, run).reg.blobs <==> exists j: nat :: TakenFrom(w0, run, p, d, j)
  {
    hide Run, TakenFrom;
    if d !in Run(w0, run).reg.blobs {
      var j := MissingWasTaken(w0, run, p, d);
    }
    if j: nat :| TakenFrom(w0, run, p, d, j) { TakenStaysMissing(w0, run, p, d, j); }
  }

  /** Step `i` publishes a push that lost a file between its check and now. */
  ghost predicate PublishesOverTaken(w0: World, run: seq<Step>, i: nat) {
    && i < |run| && run[i].Outside? && run[i].env.PublishWrite?
    && var (w, p) := (Run(w0, run[..i]), run[i].env.push);
       p in w.reg.pushes && exists d, j: nat :: d in w.reg.pushes[p].refs && TakenFrom(w0, run[..i], p, d, j)
  }

  /**
   The same by cause, from an empty registry: a referenced file is ever missing if and only if some push is
   published that had a file unlinked after its check and not committed again.
   */
  lemma ReferencedIffNoneTaken(w0: World, run: seq<Step>)
    requires Initial(w0)
    ensures AlwaysReferenced(w0, run) <==> forall i: nat :: !PublishesOverTaken(w0, run, i)
  {
    hide Run, TakenFrom, Next, Unlinked;
    ReferencedIffWritesBacked(w0, run);
    forall i | 0 <= i < |run| ensures WriteBacked(Run(w0, run[..i]), run[i]) <==> !PublishesOverTaken(w0, run, i) {
      var w := Run(w0, run[..i]);
      if run[i].Outside? && run[i].env.PublishWrite? && run[i].env.push in w.reg.pushes {
        var p := run[i].env.push;
        forall d | d in w.reg.pushes[p].refs
          ensures d !in w.reg.blobs <==> exists j: nat :: TakenFrom(w0, run[..i], p, d, j)
        {
          MissingIffTaken(w0, run[..i], p, d);
        }
      }
    }
  }

  /** What may happen when a publication is one step: any store access of any call, or a whole publish. */
  datatype Move = Single(step: Step) | Publish(push: PushId, key: ManifestKey, refs: set<Digest>)

  predicate WholePublishes(m: Move) {
    m.Single? && m.step.Outside? ==> !m.step.env.PublishCheck? && !m.step.env.PublishWrite?
  }

  function Steps(m: Move): seq<Step> {
    match m
    case Single(s) => [s]
    case Publish(p, key, refs) => [Outside(PublishCheck(p, key, refs)), Outside(PublishWrite(p))]
  }

  ghost function RunMoves(w: World, moves: seq<Move>): World {
    if moves == [] then w else Run(RunMoves(w, moves[..|moves| - 1]), Steps(moves[|moves| - 1]))
  }

  lemma MoveKeeps(w: World, m: Move)
    requires Inv(w) && Referenced(w.reg) && w.reg.pushes == map[] && WholePublishes(m)
    ensures var v := Run(w, Steps(m)); Inv(v) && Referenced(v.reg) && v.reg.pushes == map[]
  {
    hide Inv, Referenced, NextCall, Unlinked;
    InvAlways(w, Steps(m));
    match m
    case Single(s) =>
      assert Run(w, [s]) == Next(w, s) by { assert [s][..0] == []; }
      ReferencedStep(w, s);
    case Publish(p, key, refs) =>
      var check, write := Outside(PublishCheck(p, key, refs)), Outside(PublishWrite(p));
      RunSnoc(w, [], check);
      RunSnoc(w, [check], write);
      assert [] + [check] == [check] && [check] + [write] == Steps(m);
      ReferencedStep(w, check);
      InvKept(w, check);
      ReferencedStep(Next(w, check), write);
  }

  /**
   When no store access falls between a push's existence checks and its write, every digest that any
   manifest references has its file on disk, over every run and with every fault.
   */
  lemma {:induction false} WholePublishesKeepReferenced(w0: World, moves: seq<Move>)
    requires Initial(w0) && forall i :: 0 <= i < |moves| ==> WholePublishes(moves[i])
    ensures var v := RunMoves(w0, moves); Inv(v) && Referenced(v.reg) && v.reg.pushes == map[]
  {
    if moves == [] {
      InvAlways(w0, []);
    } else {
      var init := moves[..|moves| - 1];
      assert forall i :: 0 <= i < |init| ==> init[i] == moves[i];
      WholePublishesKeepReferenced(w0, init);
      MoveKeeps(RunMoves(w0, init), moves[|moves| - 1]);
    }
  }

  // ------------------------------------------------------- the grace window

  lemma EntriesDiffer(listing: seq<BlobInfo>, i: nat, j: nat)
    requires DistinctKeys(ListedDigest, listing) && i < |listing| && j < |listing| && i != j
    ensures listing[i].digest != listing[j].digest
  {
    if i < j {
      assert ListedDigest(listing[i]) != ListedDigest(listing[j]);
    } else {
      assert ListedDigest(listing[j]) != ListedDigest(listing[i]);
    }
  }

  ghost function ListingOf(call: Call): seq<BlobInfo> {
    if call.Marking? then call.listing else if call.Sweeping? then call.snapshot.listing else []
  }

  /** The call has seen file `d` with this modification time. */
  ghost predicate Saw(call: Call, d: Digest, mtime: int) {
    var listing := ListingOf(call);
    exists i :: 0 <= i < |listing| && listing[i].digest == d && listing[i].mtime == mtime
  }

  /**
   The re-check looks at references and not at the file's age, so a file inside the grace window
   is taken when its turn comes exactly if the call had listed an older copy of it.
   */
  lemma YoungFileTakenIff(w: World, c: CallId, d: Digest)
    requires c in w.gc.calls && w.gc.calls[c].Sweeping? && CallOk(w, w.gc.calls[c])
    requires |w.gc.calls[c].tally.outcomes| < |w.gc.calls[c].report.candidates|
    requires d == w.gc.calls[c].report.candidates[|w.gc.calls[c].tally.outcomes|].digest
    requires d in w.reg.blobs && d !in Marked(w.reg.manifests)
    requires w.reg.blobs[d].mtime >= w.gc.calls[c].snapshot.now - GRACE_WINDOW
    ensures d in Unlinked(w, Act(c, Sweep(NoFault))) <==> SnapshotSelects(w.gc.calls[c].snapshot, d)
    ensures d in Unlinked(w, Act(c, Sweep(NoFault))) ==> !Saw(w.gc.calls[c], d, w.reg.blobs[d].mtime)
  {
    hide Candidates, Accounted, Digests;
    var s := w.gc.calls[c].snapshot;
    DigestsOfCandidates(s.listing, s.marks, s.now, d);
    if i :| 0 <= i < |s.listing| && s.listing[i].digest == d && s.listing[i].mtime < s.now - GRACE_WINDOW {
      forall j | 0 <= j < |s.listing| && j != i ensures s.listing[j].digest != d { EntriesDiffer(s.listing, i, j); }
    }
  }

  /** No call works from a listing of `d` other than the file of age `mtime`. */
  ghost predicate ListedAs(g: Collector, d: Digest, mtime: int) {
    forall c, m :: c in g.calls && Saw(g.calls[c], d, m) ==> m == mtime
  }

  ghost predicate Commits(s: Step, d: Digest) {
    s.Outside? && s.env.CommitBlob? && s.env.digest == d
  }

  ghost predicate YoungIsSafe(w: World, d: Digest, mtime: int) {
    && ListedAs(w.gc, d, mtime)
    && (d in w.reg.blobs ==> w.reg.blobs[d].mtime == mtime)
    && (w.reg.clock - GRACE_WINDOW <= mtime ==> d in w.reg.blobs)
  }

  lemma OwnListing(g: Collector, r: Registry, c: CallId, a: Action)
    requires c in NextCall(g, r, c, a).calls
    ensures var l := ListingOf(NextCall(g, r, c, a).calls[c]);
      l == [] || (c in g.calls && (l == ListingOf(g.calls[c]) || Enumerates(l, r.blobs)))
  {
    hide Enumerates, Candidates, Digests, Marked, Prune, Book, SweepOutcome, NewReport, Summary;
  }

  lemma OwnSaw(g: Collector, r: Registry, c: CallId, a: Action, d: Digest, m: int)
    requires c in NextCall(g, r, c, a).calls && Saw(NextCall(g, r, c, a).calls[c], d, m)
    ensures c in g.calls && (Saw(g.calls[c], d, m) || (d in r.blobs && r.blobs[d].mtime == m))
  {
    OwnListing(g, r, c, a);
    hide NextCall, ListingOf;
  }

  lemma SawKept(w: World, s: Step, d: Digest, mtime: int)
    requires ListedAs(w.gc, d, mtime) && (d in w.reg.blobs ==> w.reg.blobs[d].mtime == mtime)
    ensures ListedAs(Next(w, s).gc, d, mtime)
  {
    if s.Act? {
      var g := NextCall(w.gc, w.reg, s.call, s.action);
      forall c, m | c in g.calls && Saw(g.calls[c], d, m) ensures m == mtime {
        if c == s.call {
          OwnSaw(w.gc, w.reg, c, s.action, d, m);
        } else {
          OthersUntouched(w.gc, w.reg, s.call, s.action, c);
        }
      }
    }
  }

  lemma UnlinkedIsOld(w: World, s: Step, d: Digest, mtime: int)
    requires Inv(w) && ListedAs(w.gc, d, mtime) && s.Act? && d in Unlinked(w, s)
    ensures mtime < w.reg.clock - GRACE_WINDOW
  {
    UnlinkedEntitled(w, s, d);
    var call := w.gc.calls[s.call];
    assert CallOk(w, call) && call.Sweeping?;
    assert ListingOf(call) == call.snapshot.listing;
    hide Unlinked, Candidates, Accounted, Digests, Inv, ListingOf;
    var i :| 0 <= i < |call.snapshot.listing| && call.snapshot.listing[i].digest == d
             && call.snapshot.listing[i].mtime < call.snapshot.now - GRACE_WINDOW;
    assert Saw(call, d, call.snapshot.listing[i].mtime);
  }

  lemma YoungKept(w: World, s: Step, d: Digest, mtime: int)
    requires Inv(w) && YoungIsSafe(w, d, mtime) && !Commits(s, d)
    ensures YoungIsSafe(Next(w, s), d, mtime)
  {
    hide Inv, ListedAs, NextCall, Unlinked;
    SawKept(w, s, d, mtime);
    if s.Act? && d in Unlinked(w, s) { UnlinkedIsOld(w, s, d, mtime); }
  }

  /**
   The grace window protects a push in flight: a file committed while no call has listed an
   older copy stays on disk until it is a full window old, whatever runs meanwhile.
   */
  lemma {:induction false} GraceWindowProtects(w: World, d: Digest, size: nat, mtime: int, run: seq<Step>)
    requires Inv(w)
    requires ValidDigest(d) && mtime <= w.reg.clock && (d in w.reg.sizes ==> w.reg.sizes[d] == size)
    requires ListedAs(w.gc, d, mtime)
    requires forall i :: 0 <= i < |run| ==> !Commits(run[i], d)
    ensures YoungIsSafe(Run(Next(w, Outside(CommitBlob(d, size, mtime))), run), d, mtime)
  {
    var v := Next(w, Outside(CommitBlob(d, size, mtime)));
    InvKept(w, Outside(CommitBlob(d, size, mtime)));
    assert YoungIsSafe(v, d, mtime);
    hide Inv, Next, YoungIsSafe;
    if run != [] {
      var k := |run| - 1;
      GraceWindowProtects(w, d, size, mtime, run[..k]);
      InvAlways(v, run[..k]);
      YoungKept(Run(v, run[..k]), run[k], d, mtime);
    }
  }

  /** The `k`-th step of the run commits `d`, and it is the last to do so before the `i`-th. */
  ghost predicate LastCommit(w0: World, run: seq<Step>, k: nat, i: nat, d: Digest)
    requires i < |run|
  {
    && k < i && Commits(run[k], d) && (forall j :: k < j < i ==> !Commits(run[j], d))
    && var (v, e) := (Run(w0, run[..k]), run[k].env);
       ValidDigest(d) && e.mtime <= v.reg.clock && (d in v.reg.sizes ==> v.reg.sizes[d] == e.size)
  }

  /** At step `i` the file last committed for `d` is inside its window, and no call had listed an older copy. */
  ghost predicate InsideWindow(w0: World, run: seq<Step>, i: nat, d: Digest)
    requires i < |run|
  {
    exists k: nat :: LastCommit(w0, run, k, i, d)
                     && Run(w0, run[..i]).reg.clock - GRACE_WINDOW <= run[k].env.mtime
                     && ListedAs(Run(w0, run[..k]).gc, d, run[k].env.mtime)
  }

  lemma InsideWindowOnDisk(w0: World, run: seq<Step>, i: nat, d: Digest)
    requires Inv(w0) && i < |run| && InsideWindow(w0, run, i, d)
    ensures d in Run(w0, run[..i]).reg.blobs
  {
    hide Inv, Next, ListedAs, Run;
    var k: nat :| LastCommit(w0, run, k, i, d)
                  && Run(w0, run[..i]).reg.clock - GRACE_WINDOW <= run[k].env.mtime
                  && ListedAs(Run(w0, run[..k]).gc, d, run[k].env.mtime);
    var v, e, rest := Run(w0, run[..k]), run[k].env, run[k + 1..i];
    InvAlways(w0, run[..k]);
    assert run[k] == Outside(CommitBlob(d, e.size, e.mtime));
    assert forall j :: 0 <= j < |rest| ==> rest[j] == run[k + 1 + j];
    GraceWindowProtects(v, d, e.size, e.mtime, rest);
    RunSnoc(w0, run[..k], run[k]);
    RunConcat(w0, run[..k] + [run[k]], rest);
    assert run[..k] + [run[k]] + rest == run[..i];
  }

  /**
   What the window is for: a run keeps every reference when each publication's files are still inside
   their windows and no call had listed older copies of them when they were committed.
   */
  lemma WindowKeepsReferenced(w0: World, run: seq<Step>)
    requires Inv(w0) && Referenced(w0.reg)
    requires forall i, d :: 0 <= i < |run| && run[i].Outside? && run[i].env.PublishWrite?
               && run[i].env.push in Run(w0, run[..i]).reg.pushes
               && d in Run(w0, run[..i]).reg.pushes[run[i].env.push].refs
               ==> InsideWindow(w0, run, i, d)
    ensures AlwaysReferenced(w0, run)
  {
    hide Inv, Run, InsideWindow;
    forall i | 0 <= i < |run| ensures WriteBacked(Run(w0, run[..i]), run[i]) {
      var w := Run(w0, run[..i]);
      if run[i].Outside? && run[i].env.PublishWrite? && run[i].env.push in w.reg.pushes {
        forall d | d in w.reg.pushes[run[i].env.push].refs ensures d in w.reg.blobs {
          InsideWindowOnDisk(w0, run, i, d);
        }
      }
    }
    ReferencedIffWritesBacked(w0, run);
  }

  // ------------------------------------------------------- report life cycle

  datatype Stage = Unborn | Reported | Frozen(outcome: DeleteOutcome) | Pruned

  function StageOf(g: Collector, id: ReportId): Stage {
    if id !in g.created then Unborn
    else if id !in g.reports then Pruned
    else match g.reports[id].outcome case None => Reported case Some(o) => Frozen(o)
  }

  /** The only moves: created once, then either frozen or pruned, both for good. */
  ghost predicate Follows(before: Stage, after: Stage) {
    match before
    case Unborn => true
    case Reported => !after.Unborn?
    case Frozen(_) => after == before
    case Pruned => after == before
  }

  lemma FrozenRowKept(g: Collector, r: Registry, c: CallId, a: Action, id: ReportId)
    requires id in g.reports && g.reports[id].outcome.Some? && id in g.created
    ensures id in NextCall(g, r, c, a).reports && NextCall(g, r, c, a).reports[id] == g.reports[id]
  {
  }

  lemma StageStep(w: World, s: Step, id: ReportId)
    requires Inv(w)
    ensures Follows(StageOf(w.gc, id), StageOf(Next(w, s).gc, id))
  {
    NextGrows(w, s);
    if s.Act? {
      ReportRows(w.gc, w.reg, s.call, s.action, id);
      if StageOf(w.gc, id).Frozen? {
        FrozenRowKept(w.gc, w.reg, s.call, s.action, id);
      }
    }
  }

  /** Over any run a report's status moves at most once, and what was frozen stays as it is. */
  lemma {:induction false} ReportLifeCycle(w: World, run: seq<Step>, id: ReportId)
    requires Inv(w)
    ensures Follows(StageOf(w.gc, id), StageOf(Run(w, run).gc, id))
    ensures id in w.gc.created ==> id in Run(w, run).gc.created && Run(w, run).gc.created[id] == w.gc.created[id]
  {
    if run != [] {
      var k := |run| - 1;
      ReportLifeCycle(w, run[..k], id);
      InvAlways(w, run[..k]);
      StageStep(Run(w, run[..k]), run[k], id);
      NextGrows(Run(w, run[..k]), run[k]);
    }
  }

  /** What a frozen report says, in every reachable state. */
  lemma FrozenReportsAddUp(w0: World, run: seq<Step>, id: ReportId)
    requires Initial(w0)
    requires StageOf(Run(w0, run).gc, id).Frozen?
    ensures var report := Run(w0, run).gc.created[id];
      var o := StageOf(Run(w0, run).gc, id).outcome;
      && |o.outcomes| == |report.candidates|
      && (forall i :: 0 <= i < |o.outcomes| ==> o.outcomes[i].digest == report.candidates[i].digest)
      && CountOf(o.outcomes, Deleted) + CountOf(o.outcomes, Retained)
         + CountOf(o.outcomes, Missing) + CountOf(o.outcomes, Failed) == |report.candidates|
      && o.deletedCount == CountOf(o.outcomes, Deleted)
      && o.bytesReclaimed == DeletedBytes(report.candidates, o.outcomes)
      && (o.error == NoError <==> CountOf(o.outcomes, Failed) == 0)
  {
    InvAlways(w0, run);
    var o := StageOf(Run(w0, run).gc, id).outcome;
    OutcomesPartition(o.outcomes);
  }

  lemma {:induction false} OutcomesPartition(outcomes: seq<CandidateOutcome>)
    ensures CountOf(outcomes, Deleted) + CountOf(outcomes, Retained)
            + CountOf(outcomes, Missing) + CountOf(outcomes, Failed) == |outcomes|
  {
    if outcomes != [] {
      var k := |outcomes| - 1;
      OutcomesPartition(outcomes[..k]);
      assert outcomes == outcomes[..k] + [outcomes[k]];
      forall x: Outcome
        ensures CountOf(outcomes, x) == CountOf(outcomes[..k], x) + if outcomes[k].outcome == x then 1 else 0
      {
        CountSnoc(outcomes[..k], outcomes[k], x);
      }
    }
  }

  /** With the flag off, or from a deleted, pruned or expired report, a delete call ends without having begun. */
  lemma RefusedDelete(w: World, c: CallId, id: ReportId)
    requires Inv(w) && c !in w.gc.calls
    requires !w.gc.deleteEnabled || !StageOf(w.gc, id).Reported? || w.gc.created[id].expiresAt <= w.reg.clock
    ensures var v := Next(Next(w, Act(c, Fetch(id))), Act(c, CheckExpiry));
      v.gc.calls == w.gc.calls && v.gc.reports == w.gc.reports && v.reg == w.reg
  {
    hide Candidates, Marked, Prune, SweepOutcome, Book, Enumerates, Digests, CallsInv, FilesInv;
    var v := Next(w, Act(c, Fetch(id)));
    assert w.reg.(blobs := w.reg.blobs - {}) == w.reg;
    assert v.reg.(blobs := v.reg.blobs - {}) == v.reg;
  }

  /** With the flag off there is no delete call anywhere in the protocol. */
  ghost predicate NoDeletes(g: Collector) {
    && !g.deleteEnabled
    && forall c :: c in g.calls ==>
         match g.calls[c]
         case Listing(purpose, _) => purpose.Preview?
         case Marking(purpose, _, _) => purpose.Preview?
         case Creating(_, _) => true
         case _ => false
  }

  lemma NoDeletesKept(g: Collector, r: Registry, c: CallId, a: Action)
    requires NoDeletes(g)
    ensures NoDeletes(NextCall(g, r, c, a))
  {
    forall o | o != c ensures o in NextCall(g, r, c, a).calls <==> o in g.calls
                      ensures o in g.calls ==> NextCall(g, r, c, a).calls[o] == g.calls[o] {
      OthersUntouched(g, r, c, a, o);
    }
  }

  /** A deployment with deletion switched off never loses a file, over any run. */
  lemma {:induction false} FlagOffUnlinksNothing(w0: World, run: seq<Step>)
    requires Initial(w0) && !w0.gc.deleteEnabled
    ensures NoDeletes(Run(w0, run).gc)
    ensures forall s :: Unlinked(Run(w0, run), s) == {}
  {
    if run != [] {
      var k := |run| - 1;
      FlagOffUnlinksNothing(w0, run[..k]);
      if run[k].Act? { NoDeletesKept(Run(w0, run[..k]).gc, Run(w0, run[..k]).reg, run[k].call, run[k].action); }
    }
  }
}
