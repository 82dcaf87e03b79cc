/**
 The override editor's asynchronous side: the reply with the repository's own row, the reply with the
 global signing policy, in any order and among replies meant for other editors.
 */
module OverrideEditor {
  import opened Wrappers
  import opened Cursor
  import opened Overrides

  datatype KeyList = KeyList(scopeRepository: string, keys: seq<string>, selected: int)

  function NewKeyList(scopeRepository: string, keys: seq<string>): KeyList { KeyList(scopeRepository, keys, 0) }

  function SetKeys(l: KeyList, keys: seq<string>): KeyList {
    l.(keys := keys, selected := BoundedIndex(l.selected, |keys|))
  }

  datatype Details = Details(enabled: bool, ignoreFilePath: string, ignorePolicyPath: string, configPath: string,
                             keys: seq<string>, identities: seq<Identity>, selfRead: string)

  datatype Editor = Editor(
    open: bool, repository: string, feature: Feature, rowExists: bool, enabled: bool,
    pathPrimary: string, pathSecondary: string, selfRead: string, loading: bool, err: string,
    keys: KeyList, identities: seq<Identity>,
    pendingGlobalKeys: seq<string>, pendingGlobalKeysLoaded: bool, prefillApplied: bool)

  function NewEditor(feature: Feature, repository: string): Editor {
    Editor(true, repository, feature, false, false, "", "", "off", true, "",
           NewKeyList(repository, []), [], [], false, false)
  }

  /** The stored row as the admin API reports it, None when there is none. */
  datatype Message =
    | OverrideLoaded(repository: string, feature: Feature, reply: Result<Option<Details>, string>)
    | GlobalPolicyLoaded(keys: Option<seq<string>>)

  function NormalizeSelfRead(value: string): string { if value == "" then "off" else value }

  function ApplyOverride(e: Editor, row: Option<Details>): Editor {
    match row
    case None =>
      var cleared := e.(rowExists := false, enabled := false, pathPrimary := "", pathSecondary := "",
                         selfRead := "off");
      if e.feature.Signing? then cleared.(keys := NewKeyList(e.repository, []), identities := []) else cleared
    case Some(o) =>
      var shown := e.(rowExists := true, enabled := o.enabled);
      match e.feature
      case Gitleaks => shown.(pathPrimary := o.configPath)
      case Signing =>
        shown.(keys := NewKeyList(e.repository, o.keys), identities := o.identities,
               selfRead := NormalizeSelfRead(o.selfRead))
      case Trivy => shown.(pathPrimary := o.ignoreFilePath, pathSecondary := o.ignorePolicyPath)
  }

  function MaybeApplyGlobalPrefill(e: Editor): Editor {
    if !e.feature.Signing? || e.prefillApplied || e.loading || !e.pendingGlobalKeysLoaded then e
    else if e.rowExists then e.(prefillApplied := true)
    else e.(prefillApplied := true, keys := SetKeys(e.keys, e.pendingGlobalKeys))
  }

  /** The second result asks for the global policy. */
  function ApplyLoaded(e: Editor, msg: Message): (Editor, bool)
    requires msg.OverrideLoaded?
  {
    if !e.open || msg.repository != e.repository || msg.feature != e.feature then (e, false)
    else
      match msg.reply
      case Failure(text) => (e.(loading := false, err := text), false)
      case Success(row) =>
        var shown := ApplyOverride(e.(loading := false), row);
        if !e.feature.Signing? then (shown, false)
        else
          var seeded := MaybeApplyGlobalPrefill(shown);
          (seeded, !seeded.rowExists && !seeded.prefillApplied)
  }

  function ApplyGlobalPolicyLoaded(e: Editor, msg: Message): Editor
    requires msg.GlobalPolicyLoaded?
  {
    if !e.open || !e.feature.Signing? || msg.keys.None? then e
    else MaybeApplyGlobalPrefill(e.(pendingGlobalKeys := msg.keys.value, pendingGlobalKeysLoaded := true))
  }

  function Update(e: Editor, msg: Message): (Editor, bool) {
    if msg.OverrideLoaded? then ApplyLoaded(e, msg) else (ApplyGlobalPolicyLoaded(e, msg), false)
  }

  function Receive(e: Editor, msgs: seq<Message>): Editor {
    if msgs == [] then e else Update(Receive(e, msgs[..|msgs| - 1]), msgs[|msgs| - 1]).0
  }

  // ---------------------------------------------- what the editor has heard

  predicate Own(repository: string, msg: Message) {
    msg.OverrideLoaded? && msg.repository == repository && msg.feature.Signing?
  }

  predicate Answered(repository: string, msg: Message) { Own(repository, msg) && msg.reply.Success? }

  predicate Heard(msg: Message) { msg.GlobalPolicyLoaded? && msg.keys.Some? }

  ghost predicate HasOwn(repository: string, msgs: seq<Message>) {
    exists i :: 0 <= i < |msgs| && Own(repository, msgs[i])
  }

  ghost predicate HasHeard(msgs: seq<Message>) {
    exists i :: 0 <= i < |msgs| && Heard(msgs[i])
  }

  /** All global replies that succeed carry the same keys; own replies are free. */
  ghost predicate SameGlobals(globals: seq<string>, msgs: seq<Message>) {
    forall i :: 0 <= i < |msgs| && Heard(msgs[i]) ==> msgs[i].keys == Some(globals)
  }

  ghost predicate FiringPair(repository: string, msgs: seq<Message>, i: nat, j: nat) {
    && i < |msgs| && j < |msgs| && Own(repository, msgs[i]) && Heard(msgs[j])
    && (i < j || msgs[i].reply.Success?)
  }

  /** The prefill is spent: the global keys came after any own reply, or before a successful one. */
  ghost predicate Fired(repository: string, msgs: seq<Message>) {
    exists i: nat, j: nat :: FiringPair(repository, msgs, i, j)
  }

  /** What had arrived before the last successful own reply. */
  ghost function BeforeLast(repository: string, msgs: seq<Message>): seq<Message> {
    if msgs == [] then []
    else
      var n := |msgs| - 1;
      if Answered(repository, msgs[n]) then msgs[..n] else BeforeLast(repository, msgs[..n])
  }

  /** The last successful own reply. */
  ghost function LastRow(repository: string, msgs: seq<Message>): Option<Option<Details>> {
    if msgs == [] then None
    else
      var n := |msgs| - 1;
      if Answered(repository, msgs[n]) then Some(msgs[n].reply.value) else LastRow(repository, msgs[..n])
  }

  lemma HasSnoc(repository: string, msgs: seq<Message>)
    requires msgs != []
    ensures var (init, last) := (msgs[..|msgs| - 1], msgs[|msgs| - 1]);
      && (HasOwn(repository, msgs) <==> HasOwn(repository, init) || Own(repository, last))
      && (HasHeard(msgs) <==> HasHeard(init) || Heard(last))
  {
    var init, n := msgs[..|msgs| - 1], |msgs| - 1;
    if i :| 0 <= i < |init| && Own(repository, init[i]) { assert Own(repository, msgs[i]); }
    if i :| 0 <= i < |init| && Heard(init[i]) { assert Heard(msgs[i]); }
    if i :| 0 <= i < |msgs| && Own(repository, msgs[i]) && i < n { assert Own(repository, init[i]); }
    if i :| 0 <= i < |msgs| && Heard(msgs[i]) && i < n { assert Heard(init[i]); }
  }

  lemma FiredSnoc(repository: string, msgs: seq<Message>)
    requires msgs != []
    ensures var (init, last) := (msgs[..|msgs| - 1], msgs[|msgs| - 1]);
      Fired(repository, msgs) <==>
        Fired(repository, init) || (Heard(last) && HasOwn(repository, init))
          || (Answered(repository, last) && HasHeard(init))
  {
    var init, n := msgs[..|msgs| - 1], |msgs| - 1;
    if i: nat, j: nat :| FiringPair(repository, msgs, i, j) {
      if i < n { assert init[i] == msgs[i]; }
      if j < n { assert init[j] == msgs[j]; }
      if i < n && j < n { assert FiringPair(repository, init, i, j); }
    }
    if i: nat, j: nat :| FiringPair(repository, init, i, j) { assert FiringPair(repository, msgs, i, j); }
    if i :| 0 <= i < n && Own(repository, init[i]) && Heard(msgs[n]) { assert FiringPair(repository, msgs, i, n); }
    if j :| 0 <= j < n && Heard(init[j]) && Answered(repository, msgs[n]) { assert FiringPair(repository, msgs, n, j); }
  }

  lemma FiredNeedsBoth(repository: string, msgs: seq<Message>)
    requires Fired(repository, msgs)
    ensures HasOwn(repository, msgs) && HasHeard(msgs)
  {
  }

  // ------------------------------------------------------ what the editor shows

  /** The keys on show after these messages. */
  ghost function Keys(repository: string, globals: seq<string>, msgs: seq<Message>): seq<string> {
    match LastRow(repository, msgs)
    case None => if Fired(repository, msgs) then globals else []
    case Some(Some(row)) => row.keys
    case Some(None) => if Fired(repository, BeforeLast(repository, msgs)) || !HasHeard(msgs) then [] else globals
  }

  ghost predicate Follows(e: Editor, repository: string, globals: seq<string>, msgs: seq<Message>) {
    && e.open && e.feature.Signing? && e.repository == repository
    && (e.loading <==> !HasOwn(repository, msgs)) && (e.pendingGlobalKeysLoaded <==> HasHeard(msgs))
    && (HasHeard(msgs) ==> e.pendingGlobalKeys == globals)
    && (e.prefillApplied <==> Fired(repository, msgs))
    && (e.rowExists <==> LastRow(repository, msgs).Some? && LastRow(repository, msgs).value.Some?)
    && e.keys.keys == Keys(repository, globals, msgs)
  }

  /** The fields no reducer of replies touches. */
  ghost predicate SameEditor(e: Editor, t: Editor) {
    t.open == e.open && t.feature == e.feature && t.repository == e.repository
  }

  lemma ShownUpdate(e: Editor, row: Option<Details>)
    requires e.feature.Signing?
    ensures var t := ApplyOverride(e, row);
      && SameEditor(e, t) && t.loading == e.loading && t.prefillApplied == e.prefillApplied
      && t.pendingGlobalKeysLoaded == e.pendingGlobalKeysLoaded && t.pendingGlobalKeys == e.pendingGlobalKeys
      && t.rowExists == row.Some? && t.keys.keys == if row.Some? then row.value.keys else []
  {
  }

  lemma PrefillUpdate(e: Editor)
    requires e.feature.Signing? && !e.loading
    ensures var t := MaybeApplyGlobalPrefill(e);
      && SameEditor(e, t) && t.loading == e.loading && t.rowExists == e.rowExists
      && t.pendingGlobalKeysLoaded == e.pendingGlobalKeysLoaded && t.pendingGlobalKeys == e.pendingGlobalKeys
      && (t.prefillApplied <==> e.prefillApplied || e.pendingGlobalKeysLoaded)
      && t.keys.keys == if e.pendingGlobalKeysLoaded && !e.prefillApplied && !e.rowExists
                        then e.pendingGlobalKeys else e.keys.keys
  {
  }

  lemma OwnUpdate(e: Editor, repository: string, msg: Message)
    requires e.open && e.feature.Signing? && e.repository == repository && Own(repository, msg)
    ensures var t := Update(e, msg).0;
      && t.open && t.feature.Signing? && t.repository == repository && !t.loading
      && t.pendingGlobalKeysLoaded == e.pendingGlobalKeysLoaded && t.pendingGlobalKeys == e.pendingGlobalKeys
      && (t.prefillApplied <==> e.prefillApplied || (msg.reply.Success? && e.pendingGlobalKeysLoaded))
      && (t.rowExists <==> if msg.reply.Success? then msg.reply.value.Some? else e.rowExists)
      && t.keys.keys == (if msg.reply.Failure? then e.keys.keys
                         else if msg.reply.value.Some? then msg.reply.value.value.keys
                         else if e.pendingGlobalKeysLoaded && !e.prefillApplied then e.pendingGlobalKeys else [])
  {
    hide ApplyOverride, MaybeApplyGlobalPrefill;
    if msg.reply.Success? {
      ShownUpdate(e.(loading := false), msg.reply.value);
      PrefillUpdate(ApplyOverride(e.(loading := false), msg.reply.value));
    }
  }

  lemma OwnStep(e: Editor, repository: string, globals: seq<string>, msgs: seq<Message>)
    requires msgs != [] && SameGlobals(globals, msgs) && Own(repository, msgs[|msgs| - 1])
    requires Follows(e, repository, globals, msgs[..|msgs| - 1])
    ensures Follows(Update(e, msgs[|msgs| - 1]).0, repository, globals, msgs)
  {
    HasSnoc(repository, msgs);
    FiredSnoc(repository, msgs);
    if Fired(repository, msgs[..|msgs| - 1]) { FiredNeedsBoth(repository, msgs[..|msgs| - 1]); }
    OwnUpdate(e, repository, msgs[|msgs| - 1]);
    hide Update, Fired, HasOwn, HasHeard, SameGlobals;
  }

  lemma OtherStep(e: Editor, repository: string, globals: seq<string>, msgs: seq<Message>)
    requires msgs != [] && SameGlobals(globals, msgs) && !Own(repository, msgs[|msgs| - 1])
    requires Follows(e, repository, globals, msgs[..|msgs| - 1])
    ensures Follows(Update(e, msgs[|msgs| - 1]).0, repository, globals, msgs)
  {
    HasSnoc(repository, msgs);
    FiredSnoc(repository, msgs);
    LastAmong(repository, msgs[..|msgs| - 1]);
    hide Fired, HasOwn, HasHeard;
  }

  /** The last successful reply is an own reply, and what came before it is part of the whole. */
  lemma {:induction false} LastAmong(repository: string, msgs: seq<Message>)
    ensures LastRow(repository, msgs).Some? ==> HasOwn(repository, msgs)
    ensures Fired(repository, BeforeLast(repository, msgs)) ==> Fired(repository, msgs)
    ensures LastRow(repository, msgs).Some? && HasHeard(msgs) ==> Fired(repository, msgs)
  {
    if msgs != [] {
      LastAmong(repository, msgs[..|msgs| - 1]);
      HasSnoc(repository, msgs);
      FiredSnoc(repository, msgs);
    }
  }

  /**
   Whatever arrives, in any order and any number of times - own replies that fail, find no row or find
   a row, global replies that fail or succeed, replies for other editors - the editor shows the last
   row read, or the global keys, or none, as `Keys` says.
   */
  lemma {:induction false} EditorFollows(repository: string, globals: seq<string>, msgs: seq<Message>)
    requires SameGlobals(globals, msgs)
    ensures Follows(Receive(NewEditor(Signing, repository), msgs), repository, globals, msgs)
  {
    if msgs != [] {
      var init := msgs[..|msgs| - 1];
      assert forall i :: 0 <= i < |init| ==> init[i] == msgs[i];
      EditorFollows(repository, globals, init);
      var e := Receive(NewEditor(Signing, repository), init);
      if Own(repository, msgs[|msgs| - 1]) {
        OwnStep(e, repository, globals, msgs);
      } else {
        OtherStep(e, repository, globals, msgs);
      }
    }
  }

  // ------------------------------------------------- the rest of the editor

  predicate Mine(feature: Feature, repository: string, msg: Message) {
    msg.OverrideLoaded? && msg.repository == repository && msg.feature == feature
  }

  /** The last row read for an editor of any feature: nothing yet, no row, or a row. */
  ghost function LastRead(feature: Feature, repository: string, msgs: seq<Message>): Option<Option<Details>> {
    if msgs == [] then None
    else
      var n := |msgs| - 1;
      if Mine(feature, repository, msgs[n]) && msgs[n].reply.Success? then Some(msgs[n].reply.value)
      else LastRead(feature, repository, msgs[..n])
  }

  ghost function LastError(feature: Feature, repository: string, msgs: seq<Message>): string {
    if msgs == [] then ""
    else
      var n := |msgs| - 1;
      if Mine(feature, repository, msgs[n]) && msgs[n].reply.Failure? then msgs[n].reply.error
      else LastError(feature, repository, msgs[..n])
  }

  /** Each field shows its own column of the row, and what the feature has no column for stays empty. */
  ghost predicate ShowsRow(e: Editor, read: Option<Option<Details>>) {
    match read
    case Some(Some(o)) =>
      && e.rowExists && e.enabled == o.enabled
      && e.pathPrimary == (if e.feature.Trivy? then o.ignoreFilePath
                           else if e.feature.Gitleaks? then o.configPath else "")
      && e.pathSecondary == (if e.feature.Trivy? then o.ignorePolicyPath else "")
      && e.selfRead == (if e.feature.Signing? && o.selfRead != "" then o.selfRead else "off")
      && e.identities == (if e.feature.Signing? then o.identities else [])
    case _ =>
      && !e.rowExists && !e.enabled && e.pathPrimary == "" && e.pathSecondary == "" && e.selfRead == "off"
      && e.identities == []
  }

  ghost predicate Shows(e: Editor, feature: Feature, repository: string, msgs: seq<Message>) {
    && e.open && e.feature == feature && e.repository == repository
    && (e.loading <==> forall i :: 0 <= i < |msgs| ==> !Mine(feature, repository, msgs[i]))
    && e.err == LastError(feature, repository, msgs) && ShowsRow(e, LastRead(feature, repository, msgs))
    && (!feature.Signing? ==> e.keys.keys == [])
  }

  lemma RowFrame(e: Editor, row: Option<Details>)
    ensures var t := ApplyOverride(e, row); SameEditor(e, t) && t.loading == e.loading && t.err == e.err
  {
    hide NewKeyList, NormalizeSelfRead;
  }

  lemma PrefillFrame(e: Editor)
    ensures var t := MaybeApplyGlobalPrefill(e); SameEditor(e, t) && t.loading == e.loading && t.err == e.err
  {
    hide SetKeys;
  }

  lemma ReadUpdate(e: Editor, msg: Message)
    requires e.open
    ensures var t, mine := Update(e, msg).0, Mine(e.feature, e.repository, msg);
      && t.open && t.feature == e.feature && t.repository == e.repository && t.loading == (e.loading && !mine)
      && t.err == (if mine && msg.reply.Failure? then msg.reply.error else e.err)
  {
    if msg.OverrideLoaded? && msg.reply.Success? {
      RowFrame(e.(loading := false), msg.reply.value);
      PrefillFrame(ApplyOverride(e.(loading := false), msg.reply.value));
    } else if msg.GlobalPolicyLoaded? && msg.keys.Some? {
      PrefillFrame(e.(pendingGlobalKeys := msg.keys.value, pendingGlobalKeysLoaded := true));
    }
    hide ApplyOverride, MaybeApplyGlobalPrefill;
  }

  /** The reply leaves every column as it was, unless it is a row read for this editor. */
  lemma ColumnsUpdate(e: Editor, msg: Message, read: Option<Option<Details>>)
    requires e.open && ShowsRow(e, read) && (!e.feature.Signing? ==> e.keys.keys == [])
    ensures var t := Update(e, msg).0;
      && ShowsRow(t, if Mine(e.feature, e.repository, msg) && msg.reply.Success? then Some(msg.reply.value) else read)
      && (!e.feature.Signing? ==> t.keys.keys == [])
  {
  }

  lemma ShowsStep(e: Editor, feature: Feature, repository: string, msgs: seq<Message>)
    requires msgs != [] && Shows(e, feature, repository, msgs[..|msgs| - 1])
    ensures Shows(Update(e, msgs[|msgs| - 1]).0, feature, repository, msgs)
  {
    var init, last := msgs[..|msgs| - 1], msgs[|msgs| - 1];
    ReadUpdate(e, last);
    ColumnsUpdate(e, last, LastRead(feature, repository, init));
    hide Update, ShowsRow, Mine;
    assert forall i :: 0 <= i < |init| ==> init[i] == msgs[i];
    if forall i :: 0 <= i < |msgs| ==> !Mine(feature, repository, msgs[i]) {
      assert forall i :: 0 <= i < |init| ==> !Mine(feature, repository, init[i]);
    }
  }

  /**
   An editor of any feature, whatever arrives, in whatever order and number: every field shows the last row
   read for this repository and feature - nothing of an earlier one - with the last error beside it.
   */
  lemma {:induction false} EditorShowsLastRow(feature: Feature, repository: string, msgs: seq<Message>)
    ensures Shows(Receive(NewEditor(feature, repository), msgs), feature, repository, msgs)
  {
    if msgs != [] {
      var init := msgs[..|msgs| - 1];
      EditorShowsLastRow(feature, repository, init);
      hide Shows, Update;
      ShowsStep(Receive(NewEditor(feature, repository), init), feature, repository, msgs);
    }
  }

  /** The editor asks for the global keys exactly when it learns that there is no row and has not used them up. */
  lemma AsksIff(repository: string, globals: seq<string>, msgs: seq<Message>, msg: Message)
    requires SameGlobals(globals, msgs + [msg])
    ensures Update(Receive(NewEditor(Signing, repository), msgs), msg).1
      <==> Answered(repository, msg) && msg.reply.value.None? && !Fired(repository, msgs + [msg])
  {
    var all := msgs + [msg];
    assert all[..|all| - 1] == msgs && all[|all| - 1] == msg;
    assert SameGlobals(globals, msgs) by { assert forall i :: 0 <= i < |msgs| ==> msgs[i] == all[i]; }
    EditorFollows(repository, globals, msgs);
    EditorFollows(repository, globals, all);
    hide Fired, HasOwn, HasHeard, SameGlobals, Keys, MaybeApplyGlobalPrefill, ApplyOverride;
  }

  /**
   "The global keys seed a never-configured override": with no row at the last successful own load, they
   do if and only if the prefill was not already spent before it.
   */
  lemma PrefillLostIff(repository: string, globals: seq<string>, msgs: seq<Message>)
    requires SameGlobals(globals, msgs) && HasHeard(msgs) && globals != []
    requires LastRow(repository, msgs) == Some(None)
    ensures var e := Receive(NewEditor(Signing, repository), msgs);
      && (e.keys.keys == globals <==> !Fired(repository, BeforeLast(repository, msgs)))
      && (Fired(repository, BeforeLast(repository, msgs)) ==> e.keys.keys == [] && e.prefillApplied)
  {
    EditorFollows(repository, globals, msgs);
    LastAmong(repository, msgs);
  }

  lemma LastIs(repository: string, before: seq<Message>, last: Message)
    requires Answered(repository, last)
    ensures BeforeLast(repository, before + [last]) == before
    ensures LastRow(repository, before + [last]) == Some(last.reply.value)
  {
    assert (before + [last])[..|before|] == before;
  }

  lemma LosesKeys(repository: string, globals: seq<string>, first: Message)
    requires globals != [] && Own(repository, first)
    ensures var own, policy := OverrideLoaded(repository, Signing, Success(None)), GlobalPolicyLoaded(Some(globals));
      Receive(NewEditor(Signing, repository), [first, policy] + [own]).keys.keys == []
  {
    var own, policy := OverrideLoaded(repository, Signing, Success(None)), GlobalPolicyLoaded(Some(globals));
    LastIs(repository, [first, policy], own);
    assert FiringPair(repository, [first, policy], 0, 1);
    assert Heard(([first, policy] + [own])[1]);
    PrefillLostIff(repository, globals, [first, policy] + [own]);
  }

  /** A losing order with a failure: failed load, global keys, successful load. */
  lemma PrefillLost(repository: string, globals: seq<string>, text: string)
    requires globals != []
    ensures var failed, policy := OverrideLoaded(repository, Signing, Failure(text)), GlobalPolicyLoaded(Some(globals));
      var own := OverrideLoaded(repository, Signing, Success(None));
      Receive(NewEditor(Signing, repository), [failed, policy] + [own]).keys.keys == []
  {
    LosesKeys(repository, globals, OverrideLoaded(repository, Signing, Failure(text)));
  }

  /** A losing order without any: the editor was reopened, and the second load arrives after the keys. */
  lemma PrefillLostOnReopen(repository: string, globals: seq<string>)
    requires globals != []
    ensures var own, policy := OverrideLoaded(repository, Signing, Success(None)), GlobalPolicyLoaded(Some(globals));
      Receive(NewEditor(Signing, repository), [own, policy] + [own]).keys.keys == []
  {
    LosesKeys(repository, globals, OverrideLoaded(repository, Signing, Success(None)));
  }

  // ------------------------------------------------------------- confluence

  /** Where a signing editor stands once its own row, the global keys, or both are known. */
  ghost function Settled(repository: string, row: Option<Details>, globals: seq<string>, own: bool, heard: bool,
                         spent: bool): Editor {
    var initial := NewEditor(Signing, repository);
    var shown := if own then ApplyOverride(initial.(loading := false), row) else initial;
    var pending := if heard then shown.(pendingGlobalKeys := globals, pendingGlobalKeysLoaded := true) else shown;
    if !own || !heard then pending
    else if row.Some? || spent then pending.(prefillApplied := true)
    else pending.(prefillApplied := true, keys := NewKeyList(repository, globals))
  }

  /** Every own reply carries the row, every global reply that succeeds the same keys; others are free. */
  ghost predicate Agreeing(repository: string, row: Option<Details>, globals: seq<string>, msgs: seq<Message>) {
    && SameGlobals(globals, msgs)
    && forall i :: 0 <= i < |msgs| && Own(repository, msgs[i]) ==> msgs[i].reply == Success(row)
  }

  lemma OwnReplySettles(repository: string, row: Option<Details>, globals: seq<string>, own: bool, heard: bool,
                        spent: bool)
    requires spent ==> own && heard
    ensures Update(Settled(repository, row, globals, own, heard, spent),
      OverrideLoaded(repository, Signing, Success(row))).0
            == Settled(repository, row, globals, true, heard, own && heard)
  {
  }

  lemma OtherReplySettles(repository: string, row: Option<Details>, globals: seq<string>, own: bool, heard: bool,
                          spent: bool, msg: Message)
    requires !Own(repository, msg) && (Heard(msg) ==> msg.keys == Some(globals)) && (spent ==> own && heard)
    ensures Update(Settled(repository, row, globals, own, heard, spent), msg).0
            == Settled(repository, row, globals, own, heard || Heard(msg), spent)
  {
  }

  lemma FiredWhenAllAnswered(repository: string, row: Option<Details>, globals: seq<string>, msgs: seq<Message>)
    requires Agreeing(repository, row, globals, msgs)
    ensures Fired(repository, msgs) <==> HasOwn(repository, msgs) && HasHeard(msgs)
  {
    if HasOwn(repository, msgs) && HasHeard(msgs) {
      var i :| 0 <= i < |msgs| && Own(repository, msgs[i]);
      var j :| 0 <= j < |msgs| && Heard(msgs[j]);
      assert FiringPair(repository, msgs, i, j);
    }
  }

  lemma {:induction false} EditorSettled(repository: string, row: Option<Details>, globals: seq<string>,
                                         msgs: seq<Message>)
    requires Agreeing(repository, row, globals, msgs)
    ensures var spent := Fired(repository, BeforeLast(repository, msgs));
      && (spent ==> HasOwn(repository, msgs) && HasHeard(msgs))
      && Receive(NewEditor(Signing, repository), msgs)
         == Settled(repository, row, globals, HasOwn(repository, msgs), HasHeard(msgs), spent)
  {
    if msgs != [] {
      var init, last := msgs[..|msgs| - 1], msgs[|msgs| - 1];
      assert forall i :: 0 <= i < |init| ==> init[i] == msgs[i];
      EditorSettled(repository, row, globals, init);
      HasSnoc(repository, msgs);
      FiredWhenAllAnswered(repository, row, globals, init);
      var own, heard, spent := HasOwn(repository, init), HasHeard(init),
        Fired(repository, BeforeLast(repository, init));
      assert Own(repository, last) ==> last.reply == Success(row) && BeforeLast(repository, msgs) == init;
      assert Heard(last) ==> last.keys == Some(globals);
      hide Settled, Update, HasOwn, HasHeard, Fired;
      if Own(repository, last) {
        OwnReplySettles(repository, row, globals, own, heard, spent);
      } else {
        OtherReplySettles(repository, row, globals, own, heard, spent, last);
      }
    }
  }

  /**
   Confluence and its exact limit: own replies that agree, however many, and global replies that agree end
   in the settled editor whatever their order, unless there is no row, the keys are nonempty, and the last
   own reply came after another one and the keys.
   */
  lemma PrefillConfluentIff(repository: string, row: Option<Details>, globals: seq<string>, msgs: seq<Message>)
    requires Agreeing(repository, row, globals, msgs)
    ensures Receive(NewEditor(Signing, repository), msgs)
              == Settled(repository, row, globals, HasOwn(repository, msgs), HasHeard(msgs), false)
            <==> row.Some? || globals == [] || !Fired(repository, BeforeLast(repository, msgs))
  {
    EditorSettled(repository, row, globals, msgs);
    hide Fired, HasOwn, HasHeard, Agreeing;
  }

  ghost predicate OnceOwn(repository: string, msgs: seq<Message>) {
    forall i, j :: 0 <= i < j < |msgs| ==> !(Own(repository, msgs[i]) && Own(repository, msgs[j]))
  }

  lemma {:induction false} OnceNotFired(repository: string, msgs: seq<Message>)
    requires OnceOwn(repository, msgs)
    ensures !Fired(repository, BeforeLast(repository, msgs))
  {
    if msgs != [] {
      var init, n := msgs[..|msgs| - 1], |msgs| - 1;
      assert forall i :: 0 <= i < |init| ==> init[i] == msgs[i];
      if Answered(repository, msgs[n]) {
        assert !HasOwn(repository, init);
        if Fired(repository, init) { FiredNeedsBoth(repository, init); }
      } else {
        OnceNotFired(repository, init);
      }
    }
  }

  /** So with one own reply two arrival orders of the same complete news end in the same editor. */
  lemma PrefillOrderIrrelevant(repository: string, row: Option<Details>, globals: seq<string>,
                               one: seq<Message>, other: seq<Message>)
    requires Agreeing(repository, row, globals, one) && OnceOwn(repository, one)
    requires Agreeing(repository, row, globals, other) && OnceOwn(repository, other)
    requires HasOwn(repository, one) && HasHeard(one) && HasOwn(repository, other) && HasHeard(other)
    ensures var e := Receive(NewEditor(Signing, repository), one);
      && e == Receive(NewEditor(Signing, repository), other) && !e.loading && e.prefillApplied
      && e.keys.keys == (if row.Some? then row.value.keys else globals)
  {
    OnceNotFired(repository, one);
    OnceNotFired(repository, other);
    PrefillConfluentIff(repository, row, globals, one);
    PrefillConfluentIff(repository, row, globals, other);
  }

  // ------------------------------------------------- with replies in flight

  /** An open signing editor, its loads and the global loads in flight, and what has been delivered. */
  datatype Screen = Screen(editor: Editor, ownDue: nat, globalsDue: nat, delivered: seq<Message>)

  datatype Event = OwnReply(ok: bool) | GlobalReply(ok: bool) | Foreign(msg: Message)

  ghost function Take(s: Screen, msg: Message): Screen {
    s.(editor := Update(s.editor, msg).0, delivered := s.delivered + [msg])
  }

  ghost function Deliver(s: Screen, row: Option<Details>, globals: seq<string>, e: Event): Screen {
    match e
    case OwnReply(ok) =>
      if s.ownDue == 0 then s
      else
        var msg := OverrideLoaded(s.editor.repository, Signing, if ok then Success(row) else Failure("unavailable"));
        Take(s, msg).(ownDue := s.ownDue - 1, globalsDue := s.globalsDue + if Update(s.editor, msg).1 then 1 else 0)
    case GlobalReply(ok) =>
      if s.globalsDue == 0 then s
      else Take(s, GlobalPolicyLoaded(if ok then Some(globals) else None)).(globalsDue := s.globalsDue - 1)
    case Foreign(msg) => if Own(s.editor.repository, msg) || Heard(msg) then s else Take(s, msg)
  }

  ghost function DeliverAll(s: Screen, row: Option<Details>, globals: seq<string>, events: seq<Event>): Screen {
    if events == [] then s
    else Deliver(DeliverAll(s, row, globals, events[..|events| - 1]), row, globals, events[|events| - 1])
  }

  /** The editor opens with its own load in flight, earlier opens' loads, and other screens' global loads. */
  ghost function Opened(repository: string, leftover: nat, others: nat): Screen {
    Screen(NewEditor(Signing, repository), 1 + leftover, others, [])
  }

  /** With no row and no keys so far, the editor's own request for them is in flight. */
  ghost predicate OnTrack(s: Screen, repository: string, row: Option<Details>, globals: seq<string>) {
    && s.editor == Receive(NewEditor(Signing, repository), s.delivered) && SameGlobals(globals, s.delivered)
    && (LastRow(repository, s.delivered).Some? ==> LastRow(repository, s.delivered) == Some(row))
    && (LastRow(repository, s.delivered) == Some(None) && !HasHeard(s.delivered) ==> s.globalsDue > 0)
  }

  lemma TakeKeeps(s: Screen, repository: string, row: Option<Details>, globals: seq<string>, msg: Message)
    requires OnTrack(s, repository, row, globals)
    requires Answered(repository, msg) ==> msg.reply == Success(row)
    requires Heard(msg) ==> msg.keys == Some(globals)
    ensures var t := Take(s, msg);
      && t.editor == Receive(NewEditor(Signing, repository), t.delivered) && SameGlobals(globals, t.delivered)
      && (LastRow(repository, t.delivered).Some? ==> LastRow(repository, t.delivered) == Some(row))
      && (HasHeard(t.delivered) <==> HasHeard(s.delivered) || Heard(msg))
      && LastRow(repository, t.delivered)
         == (if Answered(repository, msg) then Some(row) else LastRow(repository, s.delivered))
  {
    var t := Take(s, msg);
    assert t.delivered[..|t.delivered| - 1] == s.delivered;
    HasSnoc(repository, t.delivered);
    hide Update;
  }

  lemma TrackStep(s: Screen, repository: string, row: Option<Details>, globals: seq<string>, e: Event)
    requires OnTrack(s, repository, row, globals) && (e.GlobalReply? ==> e.ok)
    ensures OnTrack(Deliver(s, row, globals, e), repository, row, globals)
  {
    EditorFollows(repository, globals, s.delivered);
    assert s.editor.repository == repository;
    match e
    case OwnReply(ok) =>
      var msg := OverrideLoaded(repository, Signing, if ok then Success(row) else Failure("unavailable"));
      TakeKeeps(s, repository, row, globals, msg);
      if ok && row.None? && !HasHeard(s.delivered) {
        if Fired(repository, s.delivered) { FiredNeedsBoth(repository, s.delivered); }
        assert Update(s.editor, msg).1;
      }
    case GlobalReply(_) => TakeKeeps(s, repository, row, globals, GlobalPolicyLoaded(Some(globals)));
    case Foreign(msg) => if !Own(repository, msg) && !Heard(msg) { TakeKeeps(s, repository, row, globals, msg); }
  }

  lemma {:induction false} StaysOnTrack(repository: string, row: Option<Details>, globals: seq<string>, leftover: nat,
                                        others: nat,
                                        events: seq<Event>)
    requires forall i :: 0 <= i < |events| && events[i].GlobalReply? ==> events[i].ok
    ensures OnTrack(DeliverAll(Opened(repository, leftover, others), row, globals, events), repository, row, globals)
  {
    if events != [] {
      var init, n := events[..|events| - 1], |events| - 1;
      assert forall i :: 0 <= i < |init| ==> init[i] == events[i];
      StaysOnTrack(repository, row, globals, leftover, others, init);
      hide OnTrack, Deliver;
      TrackStep(DeliverAll(Opened(repository, leftover, others), row, globals, init), repository, row, globals,
        events[n]);
    }
  }

  /**
   However often the editor was opened before: once nothing is in flight, global loads have succeeded and
   some own load has, the editor has stopped loading and shows the row's keys, or, without a row, the global
   keys - which it asked for itself if nobody else did - unless the prefill was spent before the last own reply.
   */
  lemma EditorSettles(repository: string, row: Option<Details>, globals: seq<string>, leftover: nat, others: nat,
                      events: seq<Event>)
    requires forall i :: 0 <= i < |events| && events[i].GlobalReply? ==> events[i].ok
    requires var s := DeliverAll(Opened(repository, leftover, others), row, globals, events);
      s.ownDue == 0 && s.globalsDue == 0 && LastRow(repository, s.delivered).Some?
    ensures var s := DeliverAll(Opened(repository, leftover, others), row, globals, events);
      && !s.editor.loading && s.editor.rowExists == row.Some?
      && s.editor.keys.keys == (if row.Some? then row.value.keys
                                else if Fired(repository, BeforeLast(repository, s.delivered)) then [] else globals)
  {
    StaysOnTrack(repository, row, globals, leftover, others, events);
    var s := DeliverAll(Opened(repository, leftover, others), row, globals, events);
    EditorFollows(repository, globals, s.delivered);
    LastAmong(repository, s.delivered);
  }

  ghost predicate OwnCount(s: Screen, repository: string) {
    && s.editor.repository == repository && (HasOwn(repository, s.delivered) ==> s.ownDue == 0) && s.ownDue <= 1
    && OnceOwn(repository, s.delivered)
  }

  lemma RowKeepsRepository(e: Editor, row: Option<Details>)
    ensures ApplyOverride(e, row).repository == e.repository
  {
    hide NewKeyList, NormalizeSelfRead;
  }

  lemma SameRepository(e: Editor, msg: Message)
    ensures Update(e, msg).0.repository == e.repository
  {
    hide ApplyOverride;
    if msg.OverrideLoaded? && msg.reply.Success? { RowKeepsRepository(e.(loading := false), msg.reply.value); }
  }

  lemma OwnCountStep(s: Screen, repository: string, row: Option<Details>, globals: seq<string>, e: Event)
    requires OwnCount(s, repository)
    ensures OwnCount(Deliver(s, row, globals, e), repository)
  {
    hide Update, HasOwn, OnceOwn;
    var t := Deliver(s, row, globals, e);
    if t.delivered != s.delivered {
      var msg := t.delivered[|s.delivered|];
      SameRepository(s.editor, msg);
      assert t.delivered[..|t.delivered| - 1] == s.delivered;
      HasSnoc(repository, t.delivered);
      OnceSnoc(repository, t.delivered);
    }
  }

  lemma OnceSnoc(repository: string, msgs: seq<Message>)
    requires msgs != [] && OnceOwn(repository, msgs[..|msgs| - 1])
    requires Own(repository, msgs[|msgs| - 1]) ==> !HasOwn(repository, msgs[..|msgs| - 1])
    ensures OnceOwn(repository, msgs)
  {
    var init := msgs[..|msgs| - 1];
    assert forall i :: 0 <= i < |init| ==> init[i] == msgs[i];
  }

  lemma {:induction false} OneLoadOnce(repository: string, row: Option<Details>, globals: seq<string>, others: nat,
                                       events: seq<Event>)
    ensures OwnCount(DeliverAll(Opened(repository, 0, others), row, globals, events), repository)
  {
    if events != [] {
      OneLoadOnce(repository, row, globals, others, events[..|events| - 1]);
      var init, n := events[..|events| - 1], |events| - 1;
      OwnCountStep(DeliverAll(Opened(repository, 0, others), row, globals, init), repository, row, globals, events[n]);
    }
  }

  /** Opened once, the editor always ends with the row's keys or the globals. */
  lemma FirstOpenSettles(repository: string, row: Option<Details>, globals: seq<string>, others: nat,
                         events: seq<Event>)
    requires forall i :: 0 <= i < |events| && events[i].GlobalReply? ==> events[i].ok
    requires var s := DeliverAll(Opened(repository, 0, others), row, globals, events);
      s.ownDue == 0 && s.globalsDue == 0 && LastRow(repository, s.delivered).Some?
    ensures var e := DeliverAll(Opened(repository, 0, others), row, globals, events).editor;
      !e.loading && e.keys.keys == if row.Some? then row.value.keys else globals
  {
    EditorSettles(repository, row, globals, 0, others, events);
    OneLoadOnce(repository, row, globals, others, events);
    OnceNotFired(repository, DeliverAll(Opened(repository, 0, others), row, globals, events).delivered);
  }
}
