/**
  Runs of the roster editor: no update is lost.

  The server keeps every roster it ever had, revision n being entry n - 1, and replaces the
  newest one only for a request that expects exactly that revision (pkg/team/registry.go).
 */
module RosterRuns {
  import opened Options
  import opened Rosters
  import opened RosterLaws
  import opened RosterEditor

  // A save on its way: the roster, the revision it expects, and what the user had reviewed.
  datatype Request = Request(roster: Roster, expected: int, shown: Draft)

  // A save the server carried out: revision `replaced` gave way to `replaced + 1`. `sent` is the
  // draft it was sent for, which the user had ticked, and `reviewed` what was listed for review.
  datatype Commit = Commit(replaced: int, reviewed: seq<string>, sent: Draft)

  datatype World = World(
    history: seq<Roster>, puts: seq<Request>, slot: Option<Draft>, editor: Option<Editor>, commits: seq<Commit>)

  datatype Reply = Saved(revision: int, sameVersion: bool) | Failed(status: int) | Lost

  datatype Step =
    | OtherWriter(roster: Roster)
    | Deliver(index: nat)
    | Mount(revision: int)
    | Unmount
    | Persist
    | TeamPolled(revision: int)
    | EligibilityChanged
    | Open
    | Close
    | ChangeRoster(edit: Edit)
    | SetReason(reason: string)
    | Tick(value: bool)
    | Choose(id: string, choice: Option<Choice>)
    | UseChoices
    | BeginRefresh
    | EndRefresh(found: Option<int>)
    | BeginSave(allowed: bool, problems: nat)
    | EndSave(reply: Reply)

  predicate Exists(h: seq<Roster>, revision: int) {
    1 <= revision <= |h|
  }

  function At(h: seq<Roster>, revision: int): Snapshot
    requires Exists(h, revision)
  {
    Snapshot(revision, h[revision - 1])
  }

  // The generated id of an added assignment is new: neither the draft nor its base has it.
  predicate FreshlyAdded(e: Editor, edit: Edit) {
    edit.Add? ==>
      Find(e.draft.roster, edit.assignment.id) == None && Find(e.draft.base, edit.assignment.id) == None
  }

  // A step whose guard does not hold leaves the world as it is.
  function Next(w: World, step: Step): World {
    match step
    case OtherWriter(roster) => if UniqueIds(roster) then w.(history := w.history + [roster]) else w
    case Deliver(index) =>
      if index < |w.puts| && w.puts[index].expected == |w.history| && UniqueIds(w.puts[index].roster) then
        var p := w.puts[index];
        w.(history := w.history + [p.roster],
           commits := w.commits + [Commit(p.expected, Differences(p.shown.base, p.shown.roster), p.shown)])
      else w
    case Mount(revision) =>
      if w.editor.None? && Exists(w.history, revision) then w.(editor := Some(Mounted(w.slot, At(w.history, revision))))
      else w
    case Unmount => w.(editor := None)
    case _ => if w.editor.None? then w else EditorStep(w, w.editor.value, step)
  }

  // The editor's part of a step. What a request brings back is always something the server had.
  function Moved(h: seq<Roster>, e: Editor, step: Step): Editor {
    match step
    case TeamPolled(revision) => if Exists(h, revision) then TeamChanged(e, At(h, revision)) else e
    case EligibilityChanged => e.(reviewed := false)
    case Open => Opened(e)
    case Close => Closed(e)
    case ChangeRoster(edit) => if FreshlyAdded(e, edit) then RosterEdited(e, edit) else e
    case SetReason(reason) => ReasonSet(e, reason)
    case Tick(value) => Ticked(e, value)
    case Choose(id, choice) => Chosen(e, id, choice)
    case UseChoices => ChoicesUsed(e)
    case BeginRefresh => RefreshBegun(e)
    case EndRefresh(found) =>
      if !e.flight.Loading? || (found.Some? && !Exists(h, found.value)) then e
      else RefreshEnded(e, if found.Some? then Some(At(h, found.value)) else None)
    case BeginSave(allowed, problems) => SaveBegun(e, allowed, problems)
    case EndSave(reply) =>
      if !e.flight.Saving? || (reply.Saved? && !Exists(h, reply.revision)) then e
      else SaveEnded(e, Received(h, reply))
    case _ => e
  }

  function Received(h: seq<Roster>, reply: Reply): SaveReply
    requires reply.Saved? ==> Exists(h, reply.revision)
  {
    match reply
    case Saved(revision, sameVersion) => Accepted(At(h, revision), sameVersion)
    case Failed(status) => Refused(status)
    case Lost => NoReply
  }

  function EditorStep(w: World, e: Editor, step: Step): World {
    var next := w.(editor := Some(Moved(w.history, e, step)));
    if step.Persist? then
      next.(slot := if Changed(e.draft) || e.draft.reason != "" then Some(e.draft) else None)
    else if step.BeginSave? && CanSave(e, step.allowed, step.problems) then
      next.(puts := w.puts + [Request(e.draft.roster, e.draft.revision, e.shown)])
    else next
  }

  function Run(w: World, steps: seq<Step>): World {
    if steps == [] then w else Next(Run(w, steps[..|steps| - 1]), steps[|steps| - 1])
  }

  // ---------------------------------------------------------------- the invariant

  predicate SnapshotOk(h: seq<Roster>, s: Snapshot) {
    Exists(h, s.revision) && s.roster == h[s.revision - 1]
  }

  // The heart of it: a draft's base is always the server's roster at the draft's revision.
  predicate DraftOk(h: seq<Roster>, d: Draft) {
    Exists(h, d.revision) && d.base == h[d.revision - 1] && UniqueIds(d.roster)
  }

  predicate MergeOk(h: seq<Roster>, m: Merge) {
    Exists(h, m.revision) && m.base == h[m.revision - 1] && UniqueIds(m.roster) &&
    WellKeyed(m.conflicts) && DistinctConflicts(m.conflicts)
  }

  predicate EditorOk(h: seq<Roster>, e: Editor) {
    SnapshotOk(h, e.team) && DraftOk(h, e.draft) && (e.merge.Some? ==> MergeOk(h, e.merge.value)) &&
    (e.reviewed ==> e.shown == e.draft) &&
    (!e.flight.Idle? ==> DraftOk(h, e.flight.draft) && SnapshotOk(h, e.flight.team))
  }

  predicate RequestOk(h: seq<Roster>, p: Request) {
    DraftOk(h, p.shown) && p.roster == p.shown.roster && p.expected == p.shown.revision
  }

  // The draft's roster replaced the draft's base, and what they differ on had been reviewed.
  predicate CommitOk(h: seq<Roster>, c: Commit) {
    1 <= c.replaced < |h| && h[c.replaced - 1] == c.sent.base && h[c.replaced] == c.sent.roster &&
    c.reviewed == Differences(c.sent.base, c.sent.roster)
  }

  ghost predicate Inv(w: World) {
    |w.history| >= 1 && (forall i :: 0 <= i < |w.history| ==> UniqueIds(w.history[i])) &&
    (w.slot.Some? ==> DraftOk(w.history, w.slot.value)) &&
    (w.editor.Some? ==> EditorOk(w.history, w.editor.value)) &&
    (forall p :: p in w.puts ==> RequestOk(w.history, p)) &&
    (forall c :: c in w.commits ==> CommitOk(w.history, c))
  }

  // A workspace whose only draft, if any, was saved on this device earlier.
  ghost predicate Start(w: World) {
    Inv(w) && w.puts == [] && w.commits == [] && w.editor.None?
  }

  // ---------------------------------------------------------------- preservation

  lemma FindMapped(roster: Roster, roster': Roster, id: string)
    requires |roster| == |roster'| && forall i :: 0 <= i < |roster| ==> roster[i].id == roster'[i].id
    ensures Find(roster, id).Some? <==> Find(roster', id).Some?
    ensures UniqueIds(roster) <==> UniqueIds(roster')
  {
    if roster != [] {
      FindMapped(roster[1..], roster'[1..], id);
      FindMapped(roster[1..], roster'[1..], roster[0].id);
    }
  }

  lemma {:induction false} WithoutIsUnique(roster: Roster, gone: string, id: string)
    requires UniqueIds(roster)
    ensures UniqueIds(Without(roster, gone))
    ensures Find(roster, id) == None ==> Find(Without(roster, gone), id) == None
  {
    if roster != [] {
      WithoutIsUnique(roster[1..], gone, id);
      WithoutIsUnique(roster[1..], gone, roster[0].id);
    }
  }

  lemma {:induction false} AppendIsUnique(roster: Roster, a: Assignment)
    requires UniqueIds(roster) && Find(roster, a.id) == None
    ensures UniqueIds(roster + [a])
  {
    if roster != [] {
      assert (roster + [a])[1..] == roster[1..] + [a];
      AppendIsUnique(roster[1..], a);
      FindAppend(roster[1..], [a], roster[0].id);
    }
  }

  lemma EditKeepsUnique(roster: Roster, edit: Edit)
    requires UniqueIds(roster) && (edit.Add? ==> Find(roster, edit.assignment.id) == None)
    ensures UniqueIds(EditedRoster(roster, edit))
  {
    match edit
    case Replace(_, _) => FindMapped(roster, EditedRoster(roster, edit), "");
    case Rename(_, _) => FindMapped(roster, EditedRoster(roster, edit), "");
    case Drop(id) => WithoutIsUnique(roster, id, id);
    case Add(a) => AppendIsUnique(roster, a);
  }

  lemma MergeKeepsUnique(base: Roster, mine: Roster, saved: Roster)
    ensures UniqueIds(Reconciled(base, mine, saved).roster)
  {
    MergeRule(base, mine, saved);
  }

  lemma RebaseKeepsEditorOk(h: seq<Roster>, e: Editor, d: Draft, latest: Snapshot, merged: Merged)
    requires EditorOk(h, e) && DraftOk(h, d) && SnapshotOk(h, latest) && UniqueIds(latest.roster)
    requires UniqueIds(merged.roster) && WellKeyed(merged.conflicts) && DistinctConflicts(merged.conflicts)
    ensures EditorOk(h, Rebased(e, d, latest, merged))
  {
  }

  lemma RefreshKeepsEditorOk(h: seq<Roster>, e: Editor, reply: Option<Snapshot>)
    requires EditorOk(h, e) && e.flight.Loading?
    requires reply.Some? ==> SnapshotOk(h, reply.value) && UniqueIds(reply.value.roster)
    ensures EditorOk(h, RefreshEnded(e, reply))
  {
    if reply.Some? {
      var d := e.flight.draft;
      var merged := Reconciled(d.base, d.roster, reply.value.roster);
      MergeKeepsUnique(d.base, d.roster, reply.value.roster);
      MergeConflictsAreProper(d.base, d.roster, reply.value.roster);
      RebaseKeepsEditorOk(h, e.(flight := Idle), d, reply.value, merged);
    }
  }

  lemma ChoicesKeepEditorOk(h: seq<Roster>, e: Editor)
    requires EditorOk(h, e)
    ensures EditorOk(h, ChoicesUsed(e))
  {
    if CanUseChoices(e) {
      ResolvedAt(e.merge.value.roster, e.merge.value.conflicts, e.merge.value.choices, "");
    }
  }

  lemma EditKeepsEditorOk(h: seq<Roster>, e: Editor, edit: Edit)
    requires EditorOk(h, e) && FreshlyAdded(e, edit)
    ensures EditorOk(h, RosterEdited(e, edit))
  {
    EditKeepsUnique(e.draft.roster, edit);
  }

  lemma SaveKeepsEditorOk(h: seq<Roster>, e: Editor, reply: Reply)
    requires EditorOk(h, e) && e.flight.Saving? && (reply.Saved? ==> Exists(h, reply.revision))
    requires forall i :: 0 <= i < |h| ==> UniqueIds(h[i])
    ensures EditorOk(h, SaveEnded(e, Received(h, reply)))
  {
  }

  lemma FormKeepsEditorOk(h: seq<Roster>, e: Editor, step: Step)
    requires EditorOk(h, e) && forall i :: 0 <= i < |h| ==> UniqueIds(h[i])
    requires step.TeamPolled? || step.EligibilityChanged? || step.Open? || step.Close? || step.SetReason? ||
      step.Tick? || step.Choose?
    ensures EditorOk(h, Moved(h, e, step))
  {
  }

  lemma MovedOk(h: seq<Roster>, e: Editor, step: Step)
    requires EditorOk(h, e) && forall i :: 0 <= i < |h| ==> UniqueIds(h[i])
    ensures EditorOk(h, Moved(h, e, step))
  {
    match step
    case ChangeRoster(edit) => if FreshlyAdded(e, edit) { EditKeepsEditorOk(h, e, edit); }
    case UseChoices => ChoicesKeepEditorOk(h, e);
    case EndRefresh(found) =>
      if e.flight.Loading? && (found.None? || Exists(h, found.value)) {
        RefreshKeepsEditorOk(h, e, if found.Some? then Some(At(h, found.value)) else None);
      }
    case EndSave(reply) =>
      if e.flight.Saving? && (reply.Saved? ==> Exists(h, reply.revision)) { SaveKeepsEditorOk(h, e, reply); }
    case TeamPolled(_) => FormKeepsEditorOk(h, e, step);
    case EligibilityChanged => FormKeepsEditorOk(h, e, step);
    case Open => FormKeepsEditorOk(h, e, step);
    case Close => FormKeepsEditorOk(h, e, step);
    case SetReason(_) => FormKeepsEditorOk(h, e, step);
    case Tick(_) => FormKeepsEditorOk(h, e, step);
    case Choose(_, _) => FormKeepsEditorOk(h, e, step);
    case _ =>
  }

  lemma EditorStepKeepsInv(w: World, e: Editor, step: Step)
    requires Inv(w) && w.editor == Some(e)
    ensures Inv(EditorStep(w, e, step))
  {
    MovedOk(w.history, e, step);
    var w' := EditorStep(w, e, step);
    forall p | p in w'.puts ensures RequestOk(w.history, p) {
      assert p in w.puts || p == Request(e.draft.roster, e.draft.revision, e.shown);
    }
  }

  lemma GrowthKeepsInv(w: World, roster: Roster)
    requires Inv(w) && UniqueIds(roster)
    ensures Inv(w.(history := w.history + [roster]))
  {
    forall c | c in w.commits ensures CommitOk(w.history + [roster], c) {
      assert CommitOk(w.history, c);
    }
    forall p | p in w.puts ensures RequestOk(w.history + [roster], p) {
      assert RequestOk(w.history, p);
    }
  }

  lemma DeliverKeepsInv(w: World, index: nat)
    requires Inv(w) && index < |w.puts|
    ensures Inv(Next(w, Deliver(index)))
  {
    var p := w.puts[index];
    assert RequestOk(w.history, p);
    if p.expected == |w.history| {
      GrowthKeepsInv(w, p.roster);
      assert CommitOk(w.history + [p.roster], Commit(p.expected, Differences(p.shown.base, p.shown.roster), p.shown));
    }
  }

  lemma StepKeepsInv(w: World, step: Step)
    requires Inv(w)
    ensures Inv(Next(w, step))
  {
    match step
    case OtherWriter(roster) => if UniqueIds(roster) { GrowthKeepsInv(w, roster); }
    case Deliver(index) => if index < |w.puts| { DeliverKeepsInv(w, index); }
    case Mount(revision) =>
    case Unmount =>
    case _ => if w.editor.Some? { EditorStepKeepsInv(w, w.editor.value, step); }
  }

  lemma {:induction false} RunKeepsInv(w: World, steps: seq<Step>)
    requires Inv(w)
    ensures Inv(Run(w, steps))
  {
    if steps != [] {
      RunKeepsInv(w, steps[..|steps| - 1]);
      StepKeepsInv(Run(w, steps[..|steps| - 1]), steps[|steps| - 1]);
    }
  }

  // ---------------------------------------------------------------- results

  // In every run, whoever else writes and whatever the network does: a save that the server
  // carried out differs from the roster it replaced on exactly the ids the user had reviewed.
  // Differing is in the fields the editor compares: who has which role, under what name.
  lemma NoLostUpdate(w: World, steps: seq<Step>, c: Commit)
    requires Start(w) && c in Run(w, steps).commits
    ensures var h := Run(w, steps).history;
      1 <= c.replaced < |h| && forall id :: id in c.reviewed <==> Differ(h[c.replaced - 1], h[c.replaced], id)
  {
    RunKeepsInv(w, steps);
    CommitsWhatWasReviewed(Run(w, steps).history, c);
  }

  lemma CommitsWhatWasReviewed(h: seq<Roster>, c: Commit)
    requires CommitOk(h, c) && UniqueIds(c.sent.base) && UniqueIds(c.sent.roster)
    ensures forall id :: id in c.reviewed <==> Differ(h[c.replaced - 1], h[c.replaced], id)
  {
    forall id ensures id in c.reviewed <==> Differ(h[c.replaced - 1], h[c.replaced], id) {
      ListedForReviewIff(c.sent.base, c.sent.roster, id);
    }
  }

  // Through editing, refreshing, resolving, saving and reopening, the draft on the screen and the
  // one on the device always start from the roster the server had at their revision.
  lemma BaseIsTheServersRoster(w: World, steps: seq<Step>)
    requires Start(w)
    ensures var end := Run(w, steps);
      (end.editor.Some? ==> DraftOk(end.history, end.editor.value.draft)) &&
      (end.slot.Some? ==> DraftOk(end.history, end.slot.value))
  {
    RunKeepsInv(w, steps);
  }

  predicate CommitsInOrder(w: World) {
    (forall i :: 0 <= i < |w.commits| ==> w.commits[i].replaced < |w.history|) &&
    forall i, j :: 0 <= i < j < |w.commits| ==> w.commits[i].replaced < w.commits[j].replaced
  }

  // One reviewed save is carried out at most once, however often the network repeats it: no two
  // commits replace the same revision, and nothing saved is ever taken out of the history.
  lemma {:induction false} CommitsOnce(w: World, steps: seq<Step>)
    requires Start(w)
    ensures w.history <= Run(w, steps).history && CommitsInOrder(Run(w, steps))
  {
    if steps != [] {
      CommitsOnce(w, steps[..|steps| - 1]);
      CommitStaysInOrder(Run(w, steps[..|steps| - 1]), steps[|steps| - 1]);
    }
  }

  lemma CommitStaysInOrder(w: World, step: Step)
    requires CommitsInOrder(w)
    ensures CommitsInOrder(Next(w, step)) && w.history <= Next(w, step).history
  {
  }
}
