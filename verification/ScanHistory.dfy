/**
 The scan history overlay: a reducer over key presses and asynchronous replies, chained
 history -> detail -> secrets, beside the multiset of requests still in flight.
 */
module ScanHistory {
  import opened Wrappers
  import opened Cursor

  datatype ScanRun = ScanRun(id: string, repository: string, digest: string)

  datatype Finding = Finding(title: string)

  datatype Detail = Detail(run: ScanRun, findings: seq<Finding>)

  const NO_DETAIL := Detail(ScanRun("", "", ""), [])

  datatype Tab = Vulnerabilities | Leaks

  const TABS: seq<Tab> := [Vulnerabilities, Leaks]

  /** `secretsOf` is the repository and digest the shown secrets came for: the code does not keep it. */
  datatype Modal = Modal(repository: string, activeTab: int, runs: seq<ScanRun>, cursor: int,
                         detail: Detail, secrets: seq<Finding>, secretsOf: (string, string),
                         loading: bool, findingCursor: int)

  function Mount(repository: string, activeTab: int): Modal {
    Modal(repository, activeTab, [], 0, NO_DETAIL, [], ("", ""), true, 0)
  }

  datatype Request =
    | HistoryOf(repository: string)
    | DetailOf(runID: string)
    | SecretsOf(repository: string, digest: string)

  datatype Message =
    | HistoryLoaded(repository: string, runs: Option<seq<ScanRun>>)
    | DetailLoaded(detail: Option<Detail>)
    | SecretsLoaded(repository: string, digest: string, findings: Option<seq<Finding>>)
    | PageKey(delta: int)
    | FindingKey(delta: int)
    | TabKey(delta: int)
    | OtherInput // resize, Enter, keys the overlay swallows

  // ------------------------------------------------------------ the reducer

  function Current(m: Modal): ScanRun
    requires m.runs != []
  {
    m.runs[BoundedIndex(m.cursor, |m.runs|)]
  }

  predicate DetailMatchesCursor(m: Modal, detail: Detail) {
    m.runs != [] && detail.run.id == Current(m).id
  }

  predicate SecretsMatchCursor(m: Modal, repository: string, digest: string) {
    m.runs != [] && Current(m).repository == repository && Current(m).digest == digest
  }

  function Page(m: Modal, delta: int): (Modal, Option<Request>) {
    if m.runs == [] then (m, None)
    else
      var newCursor := BoundedIndex(m.cursor + delta, |m.runs|);
      if newCursor == m.cursor then (m, None)
      else (m.(cursor := newCursor, detail := NO_DETAIL, secrets := [], loading := true, findingCursor := 0),
            Some(DetailOf(m.runs[newCursor].id)))
  }

  function MoveFinding(m: Modal, delta: int): Modal {
    var length := if TABS[BoundedIndex(m.activeTab, |TABS|)].Leaks? then |m.secrets| else |m.detail.findings|;
    if length == 0 then m else m.(findingCursor := BoundedIndex(m.findingCursor + delta, length))
  }

  function Update(m: Modal, msg: Message): (Modal, Option<Request>) {
    match msg
    case HistoryLoaded(repository, runs) =>
      if runs.None? || repository != m.repository then (m, None)
      else
        var loaded := m.(runs := runs.value, cursor := 0);
        if runs.value == [] then (loaded.(loading := false), None)
        else (loaded, Some(DetailOf(runs.value[0].id)))
    case DetailLoaded(detail) =>
      if detail.None? || !DetailMatchesCursor(m, detail.value) then (m, None)
      else (m.(detail := detail.value, secrets := []),
            Some(SecretsOf(detail.value.run.repository, detail.value.run.digest)))
    case SecretsLoaded(repository, digest, findings) =>
      if !SecretsMatchCursor(m, repository, digest) then (m, None)
      else if findings.None? then (m.(secrets := [], loading := false), None)
      else (m.(secrets := findings.value, secretsOf := (repository, digest), loading := false), None)
    case PageKey(delta) => Page(m, delta)
    case FindingKey(delta) => (MoveFinding(m, delta), None)
    case TabKey(delta) => (m.(activeTab := CycleIndex(m.activeTab + delta, |TABS|), findingCursor := 0), None)
    case OtherInput => (m, None)
  }

  // ------------------------------------------------------------- the system

  /**
   What the admin API may answer, now or later: the answers need not stay the same. A run's ID determines
   its repository and digest.
   */
  datatype Server = Server(run: string -> ScanRun, history: (string, seq<ScanRun>) -> bool, detail: Detail -> bool,
                           secrets: (string, string, seq<Finding>) -> bool)

  ghost predicate Faithful(srv: Server) {
    && (forall id :: srv.run(id).id == id)
    && (forall d :: srv.detail(d) ==> d.run == srv.run(d.run.id))
    && (forall repository, runs, run: ScanRun :: srv.history(repository, runs) && run in runs ==>
          run == srv.run(run.id))
  }

  /** The message is a reply to the request: a failure, or anything the server may answer to it. */
  ghost predicate Replies(srv: Server, req: Request, msg: Message) {
    match req
    case HistoryOf(repository) =>
      msg.HistoryLoaded? && msg.repository == repository && (msg.runs.Some? ==> srv.history(repository, msg.runs.value))
    case DetailOf(runID) =>
      msg.DetailLoaded? && (msg.detail.Some? ==> msg.detail.value.run.id == runID && srv.detail(msg.detail.value))
    case SecretsOf(repository, digest) =>
      && msg.SecretsLoaded? && msg.repository == repository && msg.digest == digest
      && (msg.findings.Some? ==> srv.secrets(repository, digest, msg.findings.value))
  }

  predicate Succeeded(msg: Message) {
    match msg
    case HistoryLoaded(_, runs) => runs.Some?
    case DetailLoaded(detail) => detail.Some?
    case SecretsLoaded(_, _, findings) => findings.Some?
    case _ => true
  }

  datatype Screen = Screen(modal: Modal, inFlight: multiset<Request>)

  datatype Event = Input(msg: Message) | Deliver(req: Request, msg: Message)

  predicate Keyboard(msg: Message) {
    msg.PageKey? || msg.FindingKey? || msg.TabKey? || msg.OtherInput?
  }

  function Apply(s: Screen, msg: Message): Screen {
    var (m, req) := Update(s.modal, msg);
    Screen(m, if req.Some? then s.inFlight + multiset{req.value} else s.inFlight)
  }

  /** A key press, or a reply to any request in flight, in any order. */
  ghost function Next(srv: Server, s: Screen, e: Event): Screen {
    match e
    case Input(msg) => if Keyboard(msg) then Apply(s, msg) else s
    case Deliver(req, msg) =>
      if req in s.inFlight && Replies(srv, req, msg) then Apply(s.(inFlight := s.inFlight - multiset{req}), msg) else s
  }

  ghost function Play(srv: Server, s: Screen, events: seq<Event>): Screen {
    if events == [] then s else Next(srv, Play(srv, s, events[..|events| - 1]), events[|events| - 1])
  }

  /** A fresh mount beside replies left over from earlier ones. */
  function Mounted(repository: string, activeTab: int, leftovers: multiset<Request>): Screen {
    Screen(Mount(repository, activeTab), leftovers + multiset{HistoryOf(repository)})
  }

  predicate CursorInRange(m: Modal) {
    if m.runs == [] then m.cursor == 0 else 0 <= m.cursor < |m.runs|
  }

  // ------------------------------------------------------------- the keys

  /** The position nearest to `index` in a list of `n`. */
  predicate Nearest(index: int, n: nat, c: int) {
    && 0 <= c < n && (0 <= index < n ==> c == index) && (index < 0 ==> c == 0) && (index >= n ==> c == n - 1)
  }

  /** How many findings the active tab lists. */
  function Shown(m: Modal): nat { if m.activeTab == 1 then |m.secrets| else |m.detail.findings| }

  /**
   A page key moves to the nearest run that far away, and then drops what was shown and asks for that run's
   detail; a finding key moves within the active tab's list; a tab key turns to the other tab, from its top.
   */
  lemma KeysExact(m: Modal, delta: int)
    requires CursorInRange(m) && 0 <= m.activeTab <= 1
    ensures var (t, req) := Update(m, PageKey(delta));
      && (m.runs != [] ==> Nearest(m.cursor + delta, |m.runs|, t.cursor))
      && (if m.runs == [] || t.cursor == m.cursor then (t, req) == (m, None)
          else (t, req) == (m.(cursor := t.cursor, detail := NO_DETAIL, secrets := [], loading := true,
                               findingCursor := 0),
                            Some(DetailOf(m.runs[t.cursor].id))))
    ensures var (t, req) := Update(m, FindingKey(delta));
      && req == None && t == m.(findingCursor := t.findingCursor)
      && (if Shown(m) == 0 then t == m else Nearest(m.findingCursor + delta, Shown(m), t.findingCursor))
    ensures delta == 1 || delta == -1 ==>
      Update(m, TabKey(delta)) == (m.(activeTab := 1 - m.activeTab, findingCursor := 0), None)
  {
  }

  // ------------------------------------------------------ stale-reply safety

  /** The shown detail is an answer for the run under the cursor. */
  ghost predicate DetailOfCurrent(srv: Server, m: Modal) {
    m.runs != [] && m.detail.run == Current(m) && srv.detail(m.detail)
  }

  /** The shown secrets are an answer for that run's repository and digest. */
  ghost predicate SecretsOfCurrent(srv: Server, m: Modal) {
    && m.runs != [] && m.secretsOf == (Current(m).repository, Current(m).digest)
    && srv.secrets(Current(m).repository, Current(m).digest, m.secrets)
  }

  /** Nothing is shown for any run but the one under the cursor. */
  ghost predicate ShowsOnlyCurrent(srv: Server, m: Modal) {
    (m.detail == NO_DETAIL || DetailOfCurrent(srv, m)) && (m.secrets == [] || SecretsOfCurrent(srv, m))
  }

  /** The listed runs are what their IDs stand for. */
  ghost predicate RunsKnown(srv: Server, m: Modal) {
    forall run :: run in m.runs ==> run == srv.run(run.id)
  }

  ghost predicate SafeInv(srv: Server, s: Screen) {
    && CursorInRange(s.modal) && RunsKnown(srv, s.modal) && ShowsOnlyCurrent(srv, s.modal)
    && s.inFlight[HistoryOf(s.modal.repository)] <= 1
    && (HistoryOf(s.modal.repository) in s.inFlight ==>
          s.modal.runs == [] && s.modal.detail == NO_DETAIL && s.modal.secrets == [])
  }

  /** A reply the server may give, and not the mount's own history. */
  ghost predicate Genuine(srv: Server, m: Modal, msg: Message) {
    match msg
    case HistoryLoaded(repository, _) => repository != m.repository
    case DetailLoaded(detail) => detail.Some? ==> srv.detail(detail.value)
    case SecretsLoaded(repository, digest, findings) =>
      findings.Some? ==> srv.secrets(repository, digest, findings.value)
    case _ => true
  }

  lemma SafeUpdate(srv: Server, m: Modal, msg: Message)
    requires Faithful(srv) && CursorInRange(m) && RunsKnown(srv, m) && ShowsOnlyCurrent(srv, m) && Genuine(srv, m, msg)
    ensures var (after, req) := Update(m, msg);
      && CursorInRange(after) && RunsKnown(srv, after) && ShowsOnlyCurrent(srv, after)
      && (m.runs == [] ==> after.runs == m.runs)
      && after.repository == m.repository && (req.Some? ==> !req.value.HistoryOf?)
  {
    if m.runs != [] { assert Current(m) in m.runs; }
  }

  lemma SafeReply(srv: Server, s: Screen, req: Request, msg: Message)
    requires Faithful(srv) && SafeInv(srv, s) && req in s.inFlight && Replies(srv, req, msg)
    ensures SafeInv(srv, Next(srv, s, Deliver(req, msg)))
  {
    var m, t := s.modal, Next(srv, s, Deliver(req, msg));
    if req != HistoryOf(m.repository) {
      SafeUpdate(srv, m, msg);
      assert t.inFlight[HistoryOf(m.repository)] == s.inFlight[HistoryOf(m.repository)];
    } else {
      assert t.inFlight[req] == 0;
    }
  }

  lemma SafeStep(srv: Server, s: Screen, e: Event)
    requires Faithful(srv) && SafeInv(srv, s)
    ensures SafeInv(srv, Next(srv, s, e))
  {
    hide Update, Replies, Faithful, RunsKnown;
    match e
    case Input(msg) => if Keyboard(msg) { SafeUpdate(srv, s.modal, msg); }
    case Deliver(req, msg) => if req in s.inFlight && Replies(srv, req, msg) { SafeReply(srv, s, req, msg); }
  }

  /**
   With one history request for the mount, whatever else is in flight from earlier mounts, failed and late
   replies included, and however the server's answers change, every reachable state shows only the run
   under the cursor.
   */
  lemma {:induction false} StaleRepliesNeverShow(srv: Server, repository: string, activeTab: int,
                                                 leftovers: multiset<Request>, events: seq<Event>)
    requires Faithful(srv) && HistoryOf(repository) !in leftovers
    ensures SafeInv(srv, Play(srv, Mounted(repository, activeTab, leftovers), events))
  {
    if events != [] {
      var k := |events| - 1;
      StaleRepliesNeverShow(srv, repository, activeTab, leftovers, events[..k]);
      SafeStep(srv, Play(srv, Mounted(repository, activeTab, leftovers), events[..k]), events[k]);
    }
  }

  // ------------------------------------------------- a second history reply

  predicate SameContent(a: ScanRun, b: ScanRun) { a.repository == b.repository && a.digest == b.digest }

  /**
   A further history reply, whatever it lists, is harmless exactly when what is shown belongs to its first
   run: a detail that run's own, secrets its repository and digest.
   */
  lemma SecondHistoryReplySafeIff(srv: Server, m: Modal, runs: seq<ScanRun>)
    requires CursorInRange(m) && ShowsOnlyCurrent(srv, m)
    ensures ShowsOnlyCurrent(srv, Update(m, HistoryLoaded(m.repository, Some(runs))).0)
      <==> (&& (m.detail == NO_DETAIL || (runs != [] && runs[0] == Current(m)))
            && (m.secrets == [] || (runs != [] && SameContent(runs[0], Current(m)))))
  {
  }

  lemma PlayThree(srv: Server, s: Screen, a: Event, b: Event, c: Event)
    ensures Play(srv, s, [a, b]) == Next(srv, Next(srv, s, a), b)
    ensures Play(srv, s, [a, b, c]) == Next(srv, Next(srv, Next(srv, s, a), b), c)
  {
    assert [a, b, c][..2] == [a, b] && [a, b][..1] == [a] && [a][..0] == [];
    assert Play(srv, s, [a]) == Next(srv, Play(srv, s, []), a);
  }

  lemma HistoryStep(srv: Server, s: Screen, runs: seq<ScanRun>)
    requires HistoryOf(s.modal.repository) in s.inFlight && runs != [] && srv.history(s.modal.repository, runs)
    ensures var history := HistoryOf(s.modal.repository);
      Next(srv, s, Deliver(history, HistoryLoaded(s.modal.repository, Some(runs))))
      == Screen(s.modal.(runs := runs, cursor := 0), s.inFlight - multiset{history} + multiset{DetailOf(runs[0].id)})
  {
  }

  lemma DetailStep(srv: Server, s: Screen, detail: Detail)
    requires DetailOf(detail.run.id) in s.inFlight && DetailMatchesCursor(s.modal, detail) && srv.detail(detail)
    ensures Next(srv, s, Deliver(DetailOf(detail.run.id), DetailLoaded(Some(detail))))
      == Screen(s.modal.(detail := detail, secrets := []), s.inFlight - multiset{DetailOf(detail.run.id)}
                + multiset{SecretsOf(detail.run.repository, detail.run.digest)})
  {
  }

  /**
   The harm is reachable: two history requests in flight after a mount, and a scan queued between their
   replies. The old run's detail then stands over the new run.
   */
  lemma SecondHistoryShowsStale(srv: Server, repository: string, activeTab: int, older: ScanRun, newer: ScanRun,
                                detail: Detail)
    requires older.id != newer.id && detail.run == older && detail != NO_DETAIL && srv.detail(detail)
    requires srv.history(repository, [older]) && srv.history(repository, [newer, older])
    ensures var history := HistoryOf(repository);
      var events := [Deliver(history, HistoryLoaded(repository, Some([older]))),
                     Deliver(DetailOf(older.id), DetailLoaded(Some(detail))),
                     Deliver(history, HistoryLoaded(repository, Some([newer, older])))];
      var m := Play(srv, Mounted(repository, activeTab, multiset{history}), events).modal;
      m.detail == detail && m.runs == [newer, older] && m.cursor == 0 && !ShowsOnlyCurrent(srv, m)
  {
    var history, start := HistoryOf(repository), Mounted(repository, activeTab, multiset{HistoryOf(repository)});
    var first := Deliver(history, HistoryLoaded(repository, Some([older])));
    var second := Deliver(DetailOf(older.id), DetailLoaded(Some(detail)));
    var third := Deliver(history, HistoryLoaded(repository, Some([newer, older])));
    PlayThree(srv, start, first, second, third);
    HistoryStep(srv, start, [older]);
    DetailStep(srv, Next(srv, start, first), detail);
    HistoryStep(srv, Next(srv, Next(srv, start, first), second), [newer, older]);
  }

  // ------------------------------------------------------------- convergence

  /** The chain of loads for the run under the cursor is complete, or its next link is in flight. */
  ghost predicate OnItsWay(srv: Server, s: Screen) {
    var m := s.modal;
    m.runs != [] ==>
      var run := Current(m);
      var detailDue := DetailOf(run.id) in s.inFlight;
      var secretsDue := SecretsOf(run.repository, run.digest) in s.inFlight;
      && (detailDue || DetailOfCurrent(srv, m))
      && (detailDue || secretsDue || (SecretsOfCurrent(srv, m) && !m.loading))
  }

  ghost predicate ConvergeInv(srv: Server, s: Screen) {
    && CursorInRange(s.modal) && RunsKnown(srv, s.modal) && OnItsWay(srv, s)
    && (srv.history(s.modal.repository, s.modal.runs)
        || (HistoryOf(s.modal.repository) in s.inFlight && s.modal.runs == []))
    && (s.modal.runs == [] ==> HistoryOf(s.modal.repository) in s.inFlight || !s.modal.loading)
  }

  lemma ConvergeInput(srv: Server, s: Screen, msg: Message)
    requires ConvergeInv(srv, s) && Keyboard(msg)
    ensures ConvergeInv(srv, Next(srv, s, Input(msg)))
  {
    var m, t := s.modal, Next(srv, s, Input(msg));
    if m.runs != [] && t.modal.cursor != m.cursor {
      assert DetailOf(Current(t.modal).id) in t.inFlight;
    } else {
      assert t.inFlight == s.inFlight;
    }
  }

  lemma ConvergeHistory(srv: Server, s: Screen, repository: string, msg: Message)
    requires Faithful(srv) && ConvergeInv(srv, s) && HistoryOf(repository) in s.inFlight
    requires Replies(srv, HistoryOf(repository), msg) && Succeeded(msg)
    ensures ConvergeInv(srv, Next(srv, s, Deliver(HistoryOf(repository), msg)))
  {
    var t := Next(srv, s, Deliver(HistoryOf(repository), msg));
    if repository == s.modal.repository && t.modal.runs != [] {
      assert DetailOf(Current(t.modal).id) in t.inFlight;
    } else if repository != s.modal.repository {
      assert t.modal == s.modal && t.inFlight == s.inFlight - multiset{HistoryOf(repository)};
    }
  }

  lemma ConvergeDetail(srv: Server, s: Screen, runID: string, msg: Message)
    requires Faithful(srv) && ConvergeInv(srv, s) && DetailOf(runID) in s.inFlight
    requires Replies(srv, DetailOf(runID), msg) && Succeeded(msg)
    ensures ConvergeInv(srv, Next(srv, s, Deliver(DetailOf(runID), msg)))
  {
    var m, t := s.modal, Next(srv, s, Deliver(DetailOf(runID), msg));
    if m.runs != [] && Current(m).id == runID {
      assert Current(m) in m.runs && msg.detail.value.run == Current(m);
      assert SecretsOf(Current(m).repository, Current(m).digest) in t.inFlight;
    } else {
      assert t.modal == m && t.inFlight == s.inFlight - multiset{DetailOf(runID)};
    }
  }

  lemma ConvergeSecrets(srv: Server, s: Screen, repository: string, digest: string, msg: Message)
    requires ConvergeInv(srv, s) && SecretsOf(repository, digest) in s.inFlight
    requires Replies(srv, SecretsOf(repository, digest), msg) && Succeeded(msg)
    ensures ConvergeInv(srv, Next(srv, s, Deliver(SecretsOf(repository, digest), msg)))
  {
    var t := Next(srv, s, Deliver(SecretsOf(repository, digest), msg));
    assert t.inFlight == s.inFlight - multiset{SecretsOf(repository, digest)};
  }

  ghost predicate AllSucceed(events: seq<Event>) {
    forall i :: 0 <= i < |events| && events[i].Deliver? ==> Succeeded(events[i].msg)
  }

  lemma UpdateSameMount(m: Modal, msg: Message)
    ensures Update(m, msg).0.repository == m.repository
  {
    hide DetailMatchesCursor, SecretsMatchCursor, BoundedIndex, CycleIndex;
  }

  lemma SameMount(srv: Server, s: Screen, e: Event)
    ensures Next(srv, s, e).modal.repository == s.modal.repository
  {
    hide Replies, Update;
    UpdateSameMount(s.modal, e.msg);
  }

  lemma ConvergeStep(srv: Server, s: Screen, e: Event)
    requires Faithful(srv) && ConvergeInv(srv, s) && (e.Deliver? ==> Succeeded(e.msg))
    ensures ConvergeInv(srv, Next(srv, s, e)) && Next(srv, s, e).modal.repository == s.modal.repository
  {
    SameMount(srv, s, e);
    hide ConvergeInv, Faithful, Replies, Update;
    match e
    case Input(msg) => if Keyboard(msg) { ConvergeInput(srv, s, msg); }
    case Deliver(req, msg) =>
      if req in s.inFlight && Replies(srv, req, msg) {
        match req
        case HistoryOf(repository) => ConvergeHistory(srv, s, repository, msg);
        case DetailOf(runID) => ConvergeDetail(srv, s, runID, msg);
        case SecretsOf(repository, digest) => ConvergeSecrets(srv, s, repository, digest, msg);
      }
  }

  lemma {:induction false} ConvergePlay(srv: Server, s: Screen, events: seq<Event>)
    requires Faithful(srv) && ConvergeInv(srv, s) && AllSucceed(events)
    ensures ConvergeInv(srv, Play(srv, s, events)) && Play(srv, s, events).modal.repository == s.modal.repository
  {
    hide ConvergeInv, Faithful, Next;
    if events != [] {
      var init, k := events[..|events| - 1], |events| - 1;
      assert forall i :: 0 <= i < |init| ==> init[i] == events[i];
      ConvergePlay(srv, s, init);
      ConvergeStep(srv, Play(srv, s, init), events[k]);
    }
  }

  // ----------------------------------------------- the last history reply

  /** The event delivers a history of the mount. */
  ghost predicate Lists(srv: Server, s: Screen, e: Event) {
    && e.Deliver? && e.req == HistoryOf(s.modal.repository) && e.req in s.inFlight && Replies(srv, e.req, e.msg)
    && e.msg.runs.Some?
  }

  /** The last history the mount was given, and the screen it met. */
  ghost function LastHistory(srv: Server, s: Screen, events: seq<Event>): Option<(Screen, seq<ScanRun>)> {
    if events == [] then None
    else
      var init, e := events[..|events| - 1], events[|events| - 1];
      if Lists(srv, Play(srv, s, init), e) then Some((Play(srv, s, init), e.msg.runs.value))
      else LastHistory(srv, s, init)
  }

  /** Where the page keys among these events lead, from run to run. */
  function Walk(start: int, n: nat, events: seq<Event>): int {
    if events == [] then start
    else
      var before, e := Walk(start, n, events[..|events| - 1]), events[|events| - 1];
      if !(e.Input? && e.msg.PageKey?) then before
      else if before + e.msg.delta < 0 then 0
      else if before + e.msg.delta >= n then n - 1
      else before + e.msg.delta
  }

  lemma PageUpdate(m: Modal, msg: Message)
    requires CursorInRange(m) && m.runs != []
    requires !(msg.HistoryLoaded? && msg.repository == m.repository && msg.runs.Some?)
    ensures var t := Update(m, msg).0;
      && t.runs == m.runs && t.repository == m.repository && CursorInRange(t)
      && (if msg.PageKey? then Nearest(m.cursor + msg.delta, |m.runs|, t.cursor) else t.cursor == m.cursor)
  {
  }

  lemma PageStep(srv: Server, s: Screen, e: Event)
    requires CursorInRange(s.modal) && s.modal.runs != [] && !Lists(srv, s, e)
    ensures var (m, t) := (s.modal, Next(srv, s, e).modal);
      && t.runs == m.runs && t.repository == m.repository && CursorInRange(t)
      && (if e.Input? && e.msg.PageKey? then Nearest(m.cursor + e.msg.delta, |m.runs|, t.cursor)
          else t.cursor == m.cursor)
  {
    if e.Input? || (e.req in s.inFlight && Replies(srv, e.req, e.msg)) {
      if !(e.msg.HistoryLoaded? && e.msg.repository == s.modal.repository && e.msg.runs.Some?) {
        PageUpdate(s.modal, e.msg);
      }
    }
    hide Update, Nearest, CursorInRange;
  }

  /** From one history to the next the runs stay, and only the page keys move the cursor, whatever else arrives. */
  lemma {:induction false} CursorWalks(srv: Server, s: Screen, events: seq<Event>)
    requires CursorInRange(s.modal) && s.modal.runs != []
    requires forall i :: 0 <= i < |events| ==> !Lists(srv, Play(srv, s, events[..i]), events[i])
    ensures var t := Play(srv, s, events).modal;
      t.runs == s.modal.runs && CursorInRange(t) && t.cursor == Walk(s.modal.cursor, |s.modal.runs|, events)
  {
    hide Next, Lists;
    if events != [] {
      var init, n := events[..|events| - 1], |events| - 1;
      assert forall i :: 0 <= i < n ==> init[..i] == events[..i] && init[i] == events[i];
      CursorWalks(srv, s, init);
      PageStep(srv, Play(srv, s, init), events[n]);
    }
  }

  predicate ShowsNothing(m: Modal) { m.detail == NO_DETAIL && m.secrets == [] }

  predicate ShowsTheSame(a: Modal, b: Modal) { a.detail == b.detail && a.secrets == b.secrets }

  /** The listed runs are the last history's; over an empty one, what it met stays and nothing loads. */
  ghost predicate FollowsLast(m: Modal, last: Option<(Screen, seq<ScanRun>)>) {
    match last
    case None => m.runs == [] && ShowsNothing(m)
    case Some((met, runs)) => m.runs == runs && (runs == [] ==> ShowsTheSame(m, met.modal) && !m.loading)
  }

  lemma OwnHistoryUpdate(m: Modal, runs: seq<ScanRun>)
    ensures var t := Update(m, HistoryLoaded(m.repository, Some(runs))).0;
      t.runs == runs && ShowsTheSame(t, m) && (runs == [] ==> !t.loading)
  {
  }

  lemma OtherUpdate(m: Modal, msg: Message)
    requires !(msg.HistoryLoaded? && msg.repository == m.repository && msg.runs.Some?)
    ensures var t := Update(m, msg).0;
      t.runs == m.runs && (m.runs == [] ==> ShowsTheSame(t, m) && t.loading == m.loading)
  {
  }

  lemma FollowsLastStep(srv: Server, s: Screen, e: Event, last: Option<(Screen, seq<ScanRun>)>)
    requires FollowsLast(s.modal, last)
    ensures FollowsLast(Next(srv, s, e).modal, if Lists(srv, s, e) then Some((s, e.msg.runs.value)) else last)
  {
    var m := s.modal;
    if Lists(srv, s, e) {
      OwnHistoryUpdate(m, e.msg.runs.value);
    } else if e.Input? && Keyboard(e.msg) {
      OtherUpdate(m, e.msg);
    } else if e.Deliver? && e.req in s.inFlight && Replies(srv, e.req, e.msg) {
      OtherUpdate(m, e.msg);
    }
    hide Update;
  }

  lemma {:induction false} HistoryFollowed(srv: Server, s: Screen, events: seq<Event>)
    requires s.modal.runs == [] && ShowsNothing(s.modal)
    ensures FollowsLast(Play(srv, s, events).modal, LastHistory(srv, s, events))
  {
    hide FollowsLast, Next, Lists;
    if events == [] {
      assert FollowsLast(s.modal, None) by { NothingListed(s.modal); }
    } else {
      var init := events[..|events| - 1];
      HistoryFollowed(srv, s, init);
      FollowsLastStep(srv, Play(srv, s, init), events[|events| - 1], LastHistory(srv, s, init));
    }
  }

  lemma NothingListed(m: Modal)
    requires m.runs == [] && ShowsNothing(m)
    ensures FollowsLast(m, None)
  {
  }

  lemma {:induction false} InFlightUntilListed(srv: Server, s: Screen, events: seq<Event>)
    requires HistoryOf(s.modal.repository) in s.inFlight && AllSucceed(events)
    ensures var t := Play(srv, s, events);
      t.modal.repository == s.modal.repository
      && (LastHistory(srv, s, events).Some? || HistoryOf(s.modal.repository) in t.inFlight)
  {
    if events != [] {
      var init, e := events[..|events| - 1], events[|events| - 1];
      assert forall i :: 0 <= i < |init| ==> init[i] == events[i];
      InFlightUntilListed(srv, s, init);
      SameMount(srv, Play(srv, s, init), e);
      hide Update;
    }
  }

  /**
   Whatever was pressed, in whatever order stale, repeated or duplicate replies arrived - several history
   replies included - and however the answers changed meanwhile: once all have succeeded and none is in
   flight, the overlay has stopped loading and lists the last history, and it shows answers for exactly the
   run under the cursor if and only if that history lists a run or met an overlay that showed nothing.
   */
  lemma ScanHistoryConverges(srv: Server, repository: string, activeTab: int, leftovers: multiset<Request>,
                             events: seq<Event>)
    requires Faithful(srv) && AllSucceed(events)
    requires Play(srv, Mounted(repository, activeTab, leftovers), events).inFlight == multiset{}
    ensures var m := Play(srv, Mounted(repository, activeTab, leftovers), events).modal;
      var last := LastHistory(srv, Mounted(repository, activeTab, leftovers), events);
      && last.Some? && m.runs == last.value.1 && srv.history(repository, m.runs) && !m.loading && CursorInRange(m)
      && (m.runs != [] ==> DetailOfCurrent(srv, m) && SecretsOfCurrent(srv, m))
      && (ShowsOnlyCurrent(srv, m) <==> last.value.1 != [] || ShowsNothing(last.value.0.modal))
  {
    var start := Mounted(repository, activeTab, leftovers);
    assert HistoryOf(repository) in start.inFlight;
    ConvergePlay(srv, start, events);
    HistoryFollowed(srv, start, events);
    InFlightUntilListed(srv, start, events);
    hide Play, LastHistory;
  }

  /** No history of the mount lists a run. */
  ghost predicate OnlyEmptyHistories(repository: string, events: seq<Event>) {
    forall i ::
      (0 <= i < |events| && events[i].Deliver? && events[i].msg.HistoryLoaded?
       && events[i].msg.repository == repository && events[i].msg.runs.Some?)
      ==> events[i].msg.runs.value == []
  }

  /** In particular nothing is shown while no history has listed a run. */
  lemma {:induction false} EmptyHistoriesShowNothing(srv: Server, s: Screen, events: seq<Event>)
    requires s.modal.runs == [] && ShowsNothing(s.modal) && OnlyEmptyHistories(s.modal.repository, events)
    ensures var m := Play(srv, s, events).modal;
      m.repository == s.modal.repository && m.runs == [] && ShowsNothing(m)
  {
    if events != [] {
      var init, e := events[..|events| - 1], events[|events| - 1];
      assert forall i :: 0 <= i < |init| ==> init[i] == events[i];
      EmptyHistoriesShowNothing(srv, s, init);
      SameMount(srv, Play(srv, s, init), e);
      hide Play;
      FollowsLastStep(srv, Play(srv, s, init), e, None);
    }
  }

  lemma SecretsStep(srv: Server, s: Screen, repository: string, digest: string, findings: seq<Finding>)
    requires SecretsOf(repository, digest) in s.inFlight && SecretsMatchCursor(s.modal, repository, digest)
    requires srv.secrets(repository, digest, findings)
    ensures Next(srv, s, Deliver(SecretsOf(repository, digest), SecretsLoaded(repository, digest, Some(findings))))
      == Screen(s.modal.(secrets := findings, secretsOf := (repository, digest), loading := false),
                s.inFlight - multiset{SecretsOf(repository, digest)})
  {
  }

  lemma EmptyHistoryStep(srv: Server, s: Screen)
    requires HistoryOf(s.modal.repository) in s.inFlight && srv.history(s.modal.repository, [])
    ensures var history := HistoryOf(s.modal.repository);
      Next(srv, s, Deliver(history, HistoryLoaded(s.modal.repository, Some([]))))
      == Screen(s.modal.(runs := [], cursor := 0, loading := false), s.inFlight - multiset{history})
  {
  }

  /** A history of one run, its detail and its secrets, in that order. */
  function LoadOf(repository: string, detail: Detail, secrets: seq<Finding>): (events: seq<Event>)
    ensures |events| == 3
  {
    var of := SecretsOf(detail.run.repository, detail.run.digest);
    [Deliver(HistoryOf(repository), HistoryLoaded(repository, Some([detail.run]))),
     Deliver(DetailOf(detail.run.id), DetailLoaded(Some(detail))),
     Deliver(of, SecretsLoaded(detail.run.repository, detail.run.digest, Some(secrets)))]
  }

  lemma LoadShows(srv: Server, repository: string, activeTab: int, detail: Detail, secrets: seq<Finding>)
    requires srv.detail(detail) && srv.history(repository, [detail.run])
    requires srv.secrets(detail.run.repository, detail.run.digest, secrets)
    ensures var history := HistoryOf(repository);
      var s := Play(srv, Mounted(repository, activeTab, multiset{history}), LoadOf(repository, detail, secrets));
      s.inFlight == multiset{history} && s.modal.repository == repository && s.modal.detail == detail
  {
    var run, history := detail.run, HistoryOf(repository);
    var start, events := Mounted(repository, activeTab, multiset{history}), LoadOf(repository, detail, secrets);
    PlayThree(srv, start, events[0], events[1], events[2]);
    var s1 := Next(srv, start, events[0]);
    assert s1.inFlight == multiset{history, DetailOf(run.id)} && s1.modal.runs == [run] && s1.modal.cursor == 0
      && s1.modal.repository == repository by { HistoryStep(srv, start, [run]); }
    var s2 := Next(srv, s1, events[1]);
    hide Next, Play, Update, Replies;
    DetailStep(srv, s1, detail);
    assert s2.inFlight == multiset{history, SecretsOf(run.repository, run.digest)};
    SecretsStep(srv, s2, run.repository, run.digest, secrets);
  }

  /** The condition can fail: an empty read of before the first scan arrives last, over the scan's findings. */
  lemma EmptyHistoryKeepsStale(srv: Server, repository: string, activeTab: int, detail: Detail, secrets: seq<Finding>)
    requires detail != NO_DETAIL && srv.detail(detail)
    requires srv.history(repository, [detail.run]) && srv.history(repository, [])
    requires srv.secrets(detail.run.repository, detail.run.digest, secrets)
    ensures var history := HistoryOf(repository);
      var events := LoadOf(repository, detail, secrets) + [Deliver(history, HistoryLoaded(repository, Some([])))];
      var s := Play(srv, Mounted(repository, activeTab, multiset{history}), events);
      && AllSucceed(events) && s.inFlight == multiset{} && !s.modal.loading && s.modal.runs == []
      && s.modal.detail == detail && !ShowsOnlyCurrent(srv, s.modal)
  {
    var start := Mounted(repository, activeTab, multiset{HistoryOf(repository)});
    var load := LoadOf(repository, detail, secrets);
    var late := Deliver(HistoryOf(repository), HistoryLoaded(repository, Some([])));
    assert (load + [late])[..3] == load;
    assert AllSucceed(load + [late]);
    LoadShows(srv, repository, activeTab, detail, secrets);
    assert Play(srv, start, load + [late]) == Next(srv, Play(srv, start, load), late);
    EmptyHistoryStep(srv, Play(srv, start, load));
  }

  /** With one history request an empty history shows nothing, and with answers that stay it shows exactly those. */
  lemma SingleHistoryConverges(srv: Server, repository: string, activeTab: int, leftovers: multiset<Request>,
                               events: seq<Event>,
                               run: ScanRun, detail: Detail, secrets: seq<Finding>)
    requires Faithful(srv) && AllSucceed(events) && HistoryOf(repository) !in leftovers
    requires Play(srv, Mounted(repository, activeTab, leftovers), events).inFlight == multiset{}
    requires forall d :: srv.detail(d) && d.run == run ==> d == detail
    requires forall f :: srv.secrets(run.repository, run.digest, f) ==> f == secrets
    ensures var m := Play(srv, Mounted(repository, activeTab, leftovers), events).modal;
      && (m.runs == [] ==> m.detail == NO_DETAIL && m.secrets == [])
      && (m.runs != [] && Current(m) == run ==> m.detail == detail && m.secrets == secrets)
  {
    StaleRepliesNeverShow(srv, repository, activeTab, leftovers, events);
    ScanHistoryConverges(srv, repository, activeTab, leftovers, events);
  }

  // -------------------------------------------------- loading with failures

  /** The detail reply for the run under the cursor fails. */
  ghost predicate FailsCurrent(s: Screen, e: Event) {
    && e.Deliver? && e.req.DetailOf? && e.msg.DetailLoaded? && e.msg.detail.None?
    && s.modal.runs != [] && Current(s.modal).id == e.req.runID
  }

  /** As `OnItsWay`, with secrets that may have failed to load. */
  ghost predicate WillStop(srv: Server, s: Screen) {
    var m := s.modal;
    && CursorInRange(m) && RunsKnown(srv, m)
    && (m.runs != [] ==>
          var run := Current(m);
          var detailDue := DetailOf(run.id) in s.inFlight;
          && (detailDue || (DetailOfCurrent(srv, m) && (m.secrets == [] || SecretsOfCurrent(srv, m))))
          && (detailDue || SecretsOf(run.repository, run.digest) in s.inFlight || !m.loading))
  }

  lemma WillStopInput(srv: Server, s: Screen, msg: Message)
    requires WillStop(srv, s) && Keyboard(msg)
    ensures WillStop(srv, Next(srv, s, Input(msg)))
  {
    var m, t := s.modal, Next(srv, s, Input(msg));
    if m.runs != [] && t.modal.cursor != m.cursor {
      assert DetailOf(Current(t.modal).id) in t.inFlight;
    } else {
      assert t.inFlight == s.inFlight;
    }
  }

  lemma WillStopHistory(srv: Server, s: Screen, repository: string, msg: Message)
    requires Faithful(srv) && WillStop(srv, s) && HistoryOf(repository) in s.inFlight
    requires Replies(srv, HistoryOf(repository), msg)
    ensures WillStop(srv, Next(srv, s, Deliver(HistoryOf(repository), msg)))
  {
    var t := Next(srv, s, Deliver(HistoryOf(repository), msg));
    if repository == s.modal.repository && msg.runs.Some? && t.modal.runs != [] {
      assert DetailOf(Current(t.modal).id) in t.inFlight;
    } else if repository != s.modal.repository || msg.runs.None? {
      assert t.modal == s.modal && t.inFlight == s.inFlight - multiset{HistoryOf(repository)};
    }
  }

  lemma WillStopDetail(srv: Server, s: Screen, runID: string, msg: Message)
    requires Faithful(srv) && WillStop(srv, s) && DetailOf(runID) in s.inFlight && Replies(srv, DetailOf(runID), msg)
    requires !FailsCurrent(s, Deliver(DetailOf(runID), msg))
    ensures WillStop(srv, Next(srv, s, Deliver(DetailOf(runID), msg)))
  {
    var m, t := s.modal, Next(srv, s, Deliver(DetailOf(runID), msg));
    if m.runs != [] && Current(m).id == runID {
      assert Current(m) in m.runs && msg.detail.value.run == Current(m);
      assert SecretsOf(Current(m).repository, Current(m).digest) in t.inFlight;
    } else {
      assert t.modal == m && t.inFlight == s.inFlight - multiset{DetailOf(runID)};
    }
  }

  lemma WillStopSecrets(srv: Server, s: Screen, repository: string, digest: string, msg: Message)
    requires WillStop(srv, s) && SecretsOf(repository, digest) in s.inFlight
    requires Replies(srv, SecretsOf(repository, digest), msg)
    ensures WillStop(srv, Next(srv, s, Deliver(SecretsOf(repository, digest), msg)))
  {
    var t := Next(srv, s, Deliver(SecretsOf(repository, digest), msg));
    assert t.inFlight == s.inFlight - multiset{SecretsOf(repository, digest)};
  }

  lemma WillStopStep(srv: Server, s: Screen, e: Event)
    requires Faithful(srv) && WillStop(srv, s) && !FailsCurrent(s, e)
    ensures WillStop(srv, Next(srv, s, e))
  {
    hide WillStop, Faithful, Replies, Update, FailsCurrent;
    match e
    case Input(msg) => if Keyboard(msg) { WillStopInput(srv, s, msg); }
    case Deliver(req, msg) =>
      if req in s.inFlight && Replies(srv, req, msg) {
        match req
        case HistoryOf(repository) => WillStopHistory(srv, s, repository, msg);
        case DetailOf(runID) => WillStopDetail(srv, s, runID, msg);
        case SecretsOf(repository, digest) => WillStopSecrets(srv, s, repository, digest, msg);
      }
  }

  lemma {:induction false} StaysWillStop(srv: Server, s: Screen, events: seq<Event>)
    requires Faithful(srv) && WillStop(srv, s)
    requires forall i :: 0 <= i < |events| ==> !FailsCurrent(Play(srv, s, events[..i]), events[i])
    ensures WillStop(srv, Play(srv, s, events))
  {
    hide WillStop, Faithful, Next, FailsCurrent;
    if events != [] {
      var init, k := events[..|events| - 1], |events| - 1;
      forall i | 0 <= i < k ensures !FailsCurrent(Play(srv, s, init[..i]), init[i]) {
        assert init[..i] == events[..i];
      }
      StaysWillStop(srv, s, init);
      WillStopStep(srv, Play(srv, s, init), events[k]);
    }
  }

  /**
   With failures: the overlay stops loading once a history has arrived, nothing is in flight, and no detail
   reply failed for the run then under the cursor. Failed histories, secrets and stale details do no harm.
   */
  lemma StopsLoading(srv: Server, repository: string, activeTab: int, leftovers: multiset<Request>, events: seq<Event>)
    requires var start := Mounted(repository, activeTab, leftovers);
      && Play(srv, start, events).inFlight == multiset{} && LastHistory(srv, start, events).Some?
      && forall i :: 0 <= i < |events| ==> !FailsCurrent(Play(srv, start, events[..i]), events[i])
    requires Faithful(srv)
    ensures var m := Play(srv, Mounted(repository, activeTab, leftovers), events).modal;
      !m.loading && (m.runs != [] ==> DetailOfCurrent(srv, m) && (m.secrets == [] || SecretsOfCurrent(srv, m)))
  {
    StaysWillStop(srv, Mounted(repository, activeTab, leftovers), events);
    HistoryFollowed(srv, Mounted(repository, activeTab, leftovers), events);
    hide Play, LastHistory;
  }

  /**
   And the converse, at the last reply: an overlay still loading on its way is left loading with nothing in
   flight exactly when that reply is a failed history or a failed detail.
   */
  lemma LastReplyDecides(srv: Server, s: Screen, req: Request, msg: Message)
    requires WillStop(srv, s) && s.modal.loading && s.inFlight == multiset{req} && Replies(srv, req, msg)
    requires s.modal.runs == [] ==> req == HistoryOf(s.modal.repository)
    ensures var t := Next(srv, s, Deliver(req, msg));
      t.inFlight == multiset{} && t.modal.loading <==> !Succeeded(msg) && !req.SecretsOf?
  {
    assert multiset{req} - multiset{req} == multiset{};
    assert forall r: Request :: multiset{} + multiset{r} != multiset{} by {
      forall r: Request ensures multiset{} + multiset{r} != multiset{} { assert r in multiset{} + multiset{r}; }
    }
  }

  lemma FailedStep(srv: Server, s: Screen, runID: string)
    requires DetailOf(runID) in s.inFlight
    ensures Next(srv, s, Deliver(DetailOf(runID), DetailLoaded(None)))
      == Screen(s.modal, s.inFlight - multiset{DetailOf(runID)})
  {
  }

  /** Success is needed: after a failed detail reply nothing is in flight and the overlay loads forever. */
  lemma FailedDetailKeepsLoading(srv: Server, repository: string, activeTab: int, runs: seq<ScanRun>)
    requires runs != [] && srv.history(repository, runs)
    ensures var history, detail := HistoryOf(repository), DetailOf(runs[0].id);
      var s := Play(srv, Mounted(repository, activeTab, multiset{}),
                    [Deliver(history, HistoryLoaded(repository, Some(runs))), Deliver(detail, DetailLoaded(None))]);
      s.inFlight == multiset{} && s.modal.loading && s.modal.detail == NO_DETAIL
  {
    var history, detail := HistoryOf(repository), DetailOf(runs[0].id);
    var first, second := Deliver(history, HistoryLoaded(repository, Some(runs))), Deliver(detail, DetailLoaded(None));
    var start := Mounted(repository, activeTab, multiset{});
    PlayThree(srv, start, first, second, second);
    HistoryStep(srv, start, runs);
    hide Next;
    assert start.inFlight == multiset{history};
    var s1 := Next(srv, start, first);
    assert s1.inFlight == multiset{detail};
    FailedStep(srv, s1, runs[0].id);
    assert multiset{detail} - multiset{detail} == multiset{};
  }
}
