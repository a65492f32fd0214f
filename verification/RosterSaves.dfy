/**
  When the roster editor sends a save, what its answer does, and what becomes of a draft: said of
  whole runs, in terms of the rosters' entries and of what was answered.
 */
module RosterSaves {
  import opened Options
  import opened Rosters
  import opened RosterLaws
  import opened RosterEditor
  import opened RosterRuns
  import opened RosterTopics
  import opened Text

  // Two rosters that say the same of every id.
  ghost predicate Same(a: Roster, b: Roster) {
    forall id :: !Differ(a, b, id)
  }

  lemma SameIff(a: Roster, b: Roster)
    requires UniqueIds(a) && UniqueIds(b)
    ensures Same(a, b) <==> SameRoster(a, b)
  {
    SameRosterMeansNoDifferences(a, b);
    forall id ensures Differ(a, b, id) <==> !Agree(a, b, id) {
      DifferIff(a, b, id);
    }
  }

  ghost predicate SomethingWritten(s: string) {
    exists c :: c in s && !IsSpace(c)
  }

  lemma DraftIsUnique(h: seq<Roster>, e: Editor)
    requires Sound(h, e)
    ensures UniqueIds(e.draft.base) && UniqueIds(e.draft.roster) && UniqueIds(e.team.roster)
  {
  }

  // ---------------------------------------------------------------- when a save is sent

  // Whatever happened before: a step sends a save exactly if it is the user's, who may save, with
  // an open editor in which nothing is under way, no conflict to settle and nothing in doubt; the
  // draft differs from the roster it began with, begins with the team's revision, has no
  // problems, gives a reason and is reviewed. What is sent then is what was on the screen when
  // the box was ticked, expecting the revision it began with.
  lemma SaveIsSentIff(w: World, steps: seq<Step>, step: Step)
    requires Start(w)
    ensures var now, next := Run(w, steps), Run(w, steps + [step]);
      if (step.BeginSave? && step.allowed && step.problems == 0 && now.editor.Some? &&
        (var e := now.editor.value;
         e.open && e.flight.Idle? && e.merge.None? && !e.uncertain && e.reviewed &&
         e.draft.revision == e.team.revision && !Same(e.draft.base, e.draft.roster) &&
         SomethingWritten(e.draft.reason))) then
        var e := now.editor.value;
        next.puts == now.puts + [Request(e.shown.roster, e.shown.revision, e.shown)] && e.shown == e.draft &&
        next.editor == Some(e.(flight := Saving(e.draft, e.team)))
      else next.puts == now.puts
  {
    assert (steps + [step])[..|steps|] == steps;
    var now := Run(w, steps);
    if now.editor.Some? && step.BeginSave? {
      EditorIsSound(w, steps);
      DraftIsUnique(now.history, now.editor.value);
      SaveGuard(now.editor.value, step.allowed, step.problems);
    }
  }

  lemma SaveGuard(e: Editor, allowed: bool, problems: nat)
    requires UniqueIds(e.draft.base) && UniqueIds(e.draft.roster)
    ensures CanSave(e, allowed, problems) <==>
      (allowed && problems == 0 && e.open && e.flight.Idle? && e.merge.None? && !e.uncertain && e.reviewed &&
       e.draft.revision == e.team.revision && !Same(e.draft.base, e.draft.roster) && SomethingWritten(e.draft.reason))
  {
    SameIff(e.draft.base, e.draft.roster);
    BlankIff(e.draft.reason);
  }

  // ---------------------------------------------------------------- what was reviewed

  predicate ShowsSame(w: World, e: Editor) {
    w.editor.Some? && w.editor.value.draft == e.draft && w.editor.value.team.revision == e.team.revision &&
    w.editor.value.reviewed
  }

  lemma RefreshLeavesNoReview(w: World, step: Step)
    requires Next(w, step).editor.Some? && Next(w, step).editor.value.reviewed && step.EndRefresh?
    ensures ShowsSame(w, Next(w, step).editor.value)
  {
  }

  lemma SaveLeavesNoReview(w: World, step: Step)
    requires Next(w, step).editor.Some? && Next(w, step).editor.value.reviewed && step.EndSave?
    ensures ShowsSame(w, Next(w, step).editor.value)
  {
  }

  lemma StaysReviewed(w: World, step: Step)
    requires Next(w, step).editor.Some? && Next(w, step).editor.value.reviewed
    requires w.editor.None? || step != Tick(true) || !Editable(w.editor.value)
    ensures ShowsSame(w, Next(w, step).editor.value) && !step.EligibilityChanged?
    ensures !step.Mount? || w.editor.Some?
  {
    if step.EndRefresh? {
      RefreshLeavesNoReview(w, step);
    } else if step.EndSave? {
      SaveLeavesNoReview(w, step);
    }
  }

  // From after step j on, what is shown is what is shown in the end, and reviewed.
  predicate ReviewedFrom(w: World, steps: seq<Step>, j: nat, end: Editor) {
    (forall k :: j < k <= |steps| ==> ShowsSame(Run(w, steps[..k]), end)) &&
    (forall k :: j < k < |steps| ==> !steps[k].EligibilityChanged?)
  }

  lemma ReviewedLonger(w: World, steps: seq<Step>, n: nat, j: nat, before: Editor, end: Editor)
    requires j < n == |steps| - 1 && ReviewedFrom(w, steps[..n], j, before)
    requires before.draft == end.draft && before.team.revision == end.team.revision
    requires ShowsSame(Run(w, steps), end) && !steps[n].EligibilityChanged?
    ensures ReviewedFrom(w, steps, j, end)
  {
    forall k | j < k <= |steps| ensures ShowsSame(Run(w, steps[..k]), end) {
      if k <= n {
        assert steps[..n][..k] == steps[..k];
        assert ShowsSame(Run(w, steps[..n][..k]), before);
      } else {
        assert steps[..k] == steps;
      }
    }
    forall k | j < k < |steps| ensures !steps[k].EligibilityChanged? {
      if k < n {
        assert steps[..n][k] == steps[k];
      }
    }
  }

  // Behind every save that is sent there is a tick, and from then on neither the draft nor the
  // team's revision nor anyone's eligibility changed.
  lemma {:induction false} ReviewCovers(w: World, steps: seq<Step>) returns (j: nat)
    requires Start(w) && Run(w, steps).editor.Some? && Run(w, steps).editor.value.reviewed
    ensures j < |steps| && steps[j] == Tick(true) && ReviewedFrom(w, steps, j, Run(w, steps).editor.value)
  {
    var n := |steps| - 1;
    var before := Run(w, steps[..n]);
    if steps[n] == Tick(true) && before.editor.Some? && Editable(before.editor.value) {
      j := n;
      assert steps[..|steps|] == steps;
    } else {
      StaysReviewed(before, steps[n]);
      j := ReviewCovers(w, steps[..n]);
      ReviewedLonger(w, steps, n, j, before.editor.value, Run(w, steps).editor.value);
    }
  }

  lemma ReviewCoversWhatIsSent(w: World, steps: seq<Step>, step: Step) returns (j: nat)
    requires Start(w) && Run(w, steps + [step]).puts != Run(w, steps).puts
    ensures Run(w, steps).editor.Some? && j < |steps| && steps[j] == Tick(true)
    ensures ReviewedFrom(w, steps, j, Run(w, steps).editor.value)
  {
    SaveIsSentIff(w, steps, step);
    j := ReviewCovers(w, steps);
  }

  // ---------------------------------------------------------------- what an answer does

  // An answer that can come: a roster in it is one the server had.
  predicate Possible(h: seq<Roster>, reply: Reply) {
    reply.Saved? ==> Exists(h, reply.revision)
  }

  // The draft was saved: the answer has a later revision than the draft began with, of the same
  // team version, with the draft's roster.
  ghost predicate Confirmation(h: seq<Roster>, d: Draft, reply: Reply)
    requires Possible(h, reply)
  {
    reply.Saved? && reply.revision > d.revision && reply.sameVersion && Same(h[reply.revision - 1], d.roster)
  }

  // The draft was certainly not saved: the request was refused, and not for a conflict.
  predicate Refusal(reply: Reply) {
    reply.Failed? && 400 <= reply.status <= 499 && reply.status != 409
  }

  // While a save is under way, the draft it was sent for is the one on the screen.
  predicate SavingOk(e: Editor) {
    e.flight.Saving? ==>
      e.open && e.merge.None? && !e.uncertain && e.flight.draft == e.draft && Changed(e.draft) &&
      !Blank(e.draft.reason)
  }

  predicate WorldSavingOk(w: World) {
    w.editor.Some? ==> SavingOk(w.editor.value)
  }

  lemma {:induction false} RunSavingOk(w: World, steps: seq<Step>)
    requires Start(w)
    ensures WorldSavingOk(Run(w, steps))
  {
    if steps != [] {
      RunSavingOk(w, steps[..|steps| - 1]);
      StepSavingOk(Run(w, steps[..|steps| - 1]), steps[|steps| - 1]);
    }
  }

  lemma StepSavingOk(w: World, step: Step)
    requires WorldSavingOk(w)
    ensures WorldSavingOk(Next(w, step))
  {
  }

  function Later(known: Snapshot, next: Snapshot): Snapshot {
    if next.revision >= known.revision then next else known
  }

  // Only a confirmation ends the draft. After a refusal it is as if nothing had been sent; after
  // anything else, a lost response or one that does not match included, it is in doubt.
  lemma SaveAnswered(w: World, steps: seq<Step>, reply: Reply)
    requires Start(w) && Run(w, steps).editor.Some? && Run(w, steps).editor.value.flight.Saving?
    requires Possible(Run(w, steps).history, reply)
    ensures var now, next := Run(w, steps), Run(w, steps + [EndSave(reply)]);
      var e := now.editor.value.(flight := Idle, reviewed := false);
      if Confirmation(now.history, e.draft, reply) then
        var saved := Snapshot(reply.revision, now.history[reply.revision - 1]);
        next == now.(editor := Some(e.(
          team := Later(e.team, saved), draft := Draft(saved.revision, saved.roster, saved.roster, ""), open := false)))
      else next == now.(editor := Some(e.(uncertain := !Refusal(reply))))
  {
    assert (steps + [EndSave(reply)])[..|steps|] == steps;
    EditorIsSound(w, steps);
    RunSavingOk(w, steps);
    var now := Run(w, steps);
    if reply.Saved? {
      SameIff(now.history[reply.revision - 1], now.editor.value.draft.roster);
    }
  }

  // ---------------------------------------------------------------- in doubt

  // The team as the server has it has come, and is not older than the one there was.
  predicate BringsTeam(w: World, step: Step) {
    step.EndRefresh? && w.editor.Some? && w.editor.value.flight.Loading? && step.found.Some? &&
    Exists(w.history, step.found.value) && step.found.value >= w.editor.value.flight.team.revision
  }

  predicate InDoubt(w: World) {
    w.editor.Some? && w.editor.value.uncertain && !w.editor.value.flight.Saving?
  }

  lemma DoubtStays(w: World, step: Step)
    requires InDoubt(w) && !step.Unmount? && !BringsTeam(w, step)
    ensures InDoubt(Next(w, step)) && Next(w, step).puts == w.puts
  {
  }

  lemma {:induction false} NoSaveInDoubt(w: World, steps: seq<Step>)
    requires InDoubt(w)
    requires forall k :: 0 <= k < |steps| ==> !steps[k].Unmount? && !BringsTeam(Run(w, steps[..k]), steps[k])
    ensures InDoubt(Run(w, steps)) && Run(w, steps).puts == w.puts
  {
    if steps != [] {
      var n := |steps| - 1;
      forall k | 0 <= k < n ensures !BringsTeam(Run(w, steps[..n][..k]), steps[..n][k]) {
        assert steps[..n][..k] == steps[..k];
      }
      NoSaveInDoubt(w, steps[..n]);
      DoubtStays(Run(w, steps[..n]), steps[n]);
    }
  }

  // After a save that was neither confirmed nor certainly refused, this editor sends no other one,
  // whatever the user does, before a refresh has brought the team.
  lemma NoSaveBeforeTheTeamIsKnown(w: World, steps: seq<Step>, reply: Reply, more: seq<Step>)
    requires Start(w) && Run(w, steps).editor.Some? && Run(w, steps).editor.value.flight.Saving?
    requires Possible(Run(w, steps).history, reply)
    requires !Confirmation(Run(w, steps).history, Run(w, steps).editor.value.draft, reply) && !Refusal(reply)
    requires var answered := Run(w, steps + [EndSave(reply)]);
      forall k :: 0 <= k < |more| ==> !more[k].Unmount? && !BringsTeam(Run(answered, more[..k]), more[k])
    ensures Run(Run(w, steps + [EndSave(reply)]), more).puts == Run(w, steps).puts
  {
    SaveAnswered(w, steps, reply);
    NoSaveInDoubt(Run(w, steps + [EndSave(reply)]), more);
  }

  // Ticking and saving again at once sends the draft again exactly if it was certainly refused and
  // no newer team has come in the meantime.
  lemma SentAgainAtOnceIff(w: World, steps: seq<Step>, reply: Reply)
    requires Start(w) && Run(w, steps).editor.Some? && Run(w, steps).editor.value.flight.Saving?
    requires Possible(Run(w, steps).history, reply)
    requires !Confirmation(Run(w, steps).history, Run(w, steps).editor.value.draft, reply)
    ensures var now := Run(w, steps);
      var e := now.editor.value;
      var again := Next(Next(Run(w, steps + [EndSave(reply)]), Tick(true)), BeginSave(true, 0));
      again.puts ==
        if Refusal(reply) && e.team.revision == e.draft.revision
        then now.puts + [Request(e.draft.roster, e.draft.revision, e.draft)] else now.puts
  {
    SaveAnswered(w, steps, reply);
    RunSavingOk(w, steps);
  }

  // ---------------------------------------------------------------- what a refresh does

  ghost predicate AnyContested(base: Roster, mine: Roster, saved: Roster) {
    exists id :: Contested(base, mine, saved, id)
  }

  lemma AnyContestedIff(base: Roster, mine: Roster, saved: Roster)
    requires UniqueIds(base) && UniqueIds(mine) && UniqueIds(saved)
    ensures AnyContested(base, mine, saved) <==> Reconciled(base, mine, saved).conflicts != []
  {
    var conflicts := Reconciled(base, mine, saved).conflicts;
    if conflicts != [] {
      assert conflicts[0] in conflicts;
      ConflictByEntries(base, mine, saved, conflicts[0].id);
    }
    if AnyContested(base, mine, saved) {
      var id :| Contested(base, mine, saved, id);
      ConflictByEntries(base, mine, saved, id);
    }
  }

  // Where the team leaves a draft. If the server has what the draft wanted, the draft is done; if
  // something is contested, it waits for the user; otherwise it goes on from what is saved.
  ghost function DraftOnto(d: Draft, revision: int, saved: Roster): Draft {
    if !Same(d.base, d.roster) && Same(saved, d.roster) then Draft(revision, saved, saved, "")
    else if AnyContested(d.base, d.roster, saved) then d
    else Draft(revision, saved, Reconciled(d.base, d.roster, saved).roster, d.reason)
  }

  ghost function MergeOnto(d: Draft, revision: int, saved: Roster): Option<Merge> {
    var m := Reconciled(d.base, d.roster, saved);
    if !Same(d.base, d.roster) && Same(saved, d.roster) then None
    else if AnyContested(d.base, d.roster, saved) then Some(Merge(revision, saved, m.roster, m.conflicts, map[]))
    else None
  }

  lemma Refreshed(e: Editor, revision: int, saved: Roster)
    requires UniqueIds(e.draft.base) && UniqueIds(e.draft.roster) && UniqueIds(saved)
    requires e.flight.Loading? && e.flight.draft == e.draft && revision >= e.flight.team.revision
    ensures RefreshEnded(e, Some(Snapshot(revision, saved))) ==
      e.(team := Later(e.team, Snapshot(revision, saved)), flight := Idle, uncertain := false, reviewed := false,
         draft := DraftOnto(e.draft, revision, saved), merge := MergeOnto(e.draft, revision, saved))
  {
    SameIff(e.draft.base, e.draft.roster);
    SameIff(saved, e.draft.roster);
    AnyContestedIff(e.draft.base, e.draft.roster, saved);
  }

  // Once the team has come, nothing is in doubt or reviewed any longer.
  lemma RefreshAnswered(w: World, steps: seq<Step>, step: Step)
    requires Start(w) && BringsTeam(Run(w, steps), step)
    ensures var now, next := Run(w, steps), Run(w, steps + [step]);
      var e, saved := now.editor.value, At(now.history, step.found.value);
      next == now.(editor := Some(e.(
        team := Later(e.team, saved), flight := Idle, uncertain := false, reviewed := false,
        draft := DraftOnto(e.draft, saved.revision, saved.roster),
        merge := MergeOnto(e.draft, saved.revision, saved.roster))))
  {
    assert (steps + [step])[..|steps|] == steps;
    EditorIsSound(w, steps);
    var now := Run(w, steps);
    ReadyToRefresh(now.history, now.editor.value, step.found.value);
    Refreshed(now.editor.value, step.found.value, now.history[step.found.value - 1]);
  }

  lemma ReadyToRefresh(h: seq<Roster>, e: Editor, revision: int)
    requires Sound(h, e) && e.flight.Loading? && Exists(h, revision)
    ensures UniqueIds(e.draft.base) && UniqueIds(e.draft.roster) && UniqueIds(h[revision - 1])
    ensures e.flight.draft == e.draft
  {
  }

  // An answer without the team, or with an older one, only ends the refresh.
  lemma FailedRefresh(w: World, step: Step)
    requires step.EndRefresh? && !BringsTeam(w, step) && w.editor.Some? && w.editor.value.flight.Loading?
    requires step.found.Some? ==> Exists(w.history, step.found.value)
    ensures Next(w, step) == w.(editor := Some(w.editor.value.(flight := Idle)))
  {
  }

  // ---------------------------------------------------------------- what becomes of a draft

  // The choices are taken over exactly if there is one for every contested id and the team is
  // still the one they were made about.
  lemma ChoicesAreUsedIff(w: World, steps: seq<Step>)
    requires Start(w) && Run(w, steps).editor.Some?
    ensures var now, next := Run(w, steps), Run(w, steps + [UseChoices]);
      var e := now.editor.value;
      if (e.open && e.flight.Idle? && e.merge.Some? && e.merge.value.revision == e.team.revision &&
        forall id :: Contested(e.draft.base, e.draft.roster, e.merge.value.base, id) ==>
          id in e.merge.value.choices) then
        var m := e.merge.value;
        next == now.(editor := Some(e.(merge := None, reviewed := false, draft :=
          Draft(m.revision, m.base, Resolved(m.roster, m.conflicts, m.choices), e.draft.reason))))
      else next == now
  {
    assert (steps + [UseChoices])[..|steps|] == steps;
    EditorIsSound(w, steps);
    var now := Run(w, steps);
    if now.editor.value.merge.Some? {
      AllChosenIff(now.history, now.editor.value);
    }
  }

  lemma AllChosenIff(h: seq<Roster>, e: Editor)
    requires Sound(h, e) && e.merge.Some?
    ensures AllChosen(e.merge.value) <==>
      forall id :: Contested(e.draft.base, e.draft.roster, e.merge.value.base, id) ==> id in e.merge.value.choices
  {
    var m, d := e.merge.value, e.draft;
    forall id ensures Contested(d.base, d.roster, m.base, id) <==> exists c :: c in m.conflicts && c.id == id {
      ConflictByEntries(d.base, d.roster, m.base, id);
    }
    forall c | c in m.conflicts ensures Contested(d.base, d.roster, m.base, c.id) {
    }
  }

  // Opening the editor never gives up what was written: only a draft that says what it began with,
  // and gives no reason, is replaced by the team as it is now.
  lemma OpeningKeepsWork(w: World, steps: seq<Step>)
    requires Start(w) && Run(w, steps).editor.Some? && !Run(w, steps).editor.value.open
    ensures var now, next := Run(w, steps), Run(w, steps + [Open]);
      var e := now.editor.value.(open := true);
      if Same(e.draft.base, e.draft.roster) && e.draft.reason == "" then
        next == now.(editor := Some(e.(
          draft := Draft(e.team.revision, e.team.roster, e.team.roster, ""), reviewed := false)))
      else next == now.(editor := Some(e))
  {
    assert (steps + [Open])[..|steps|] == steps;
    EditorIsSound(w, steps);
    var e := Run(w, steps).editor.value;
    SameIff(e.draft.base, e.draft.roster);
  }

  // A draft on the device is used exactly if it is of some revision and within its limits.
  lemma UsableIff(slot: Option<Draft>, team: Snapshot)
    ensures Mounted(slot, team).draft ==
      if (slot.Some? && slot.value.revision >= 1 && |slot.value.reason| <= 1000 && |slot.value.base| <= 10000 &&
        |slot.value.roster| <= 10000) then slot.value
      else Draft(team.revision, team.roster, team.roster, "")
  {
  }

  // What a later visit finds on the device: the draft there was, if it says anything and is not
  // too long, and otherwise the team as it is then.
  lemma DraftComesBack(w: World, steps: seq<Step>, revision: int)
    requires Start(w) && Run(w, steps).editor.Some? && Exists(Run(w, steps).history, revision)
    ensures var now := Run(w, steps);
      var d, saved := now.editor.value.draft, now.history[revision - 1];
      var next := Next(Next(Next(now, Persist), Unmount), Mount(revision));
      next.editor.Some? && !next.editor.value.open && !next.editor.value.reviewed &&
      next.editor.value.flight.Idle? && !next.editor.value.uncertain && next.editor.value.merge.None? &&
      next.editor.value.team == Snapshot(revision, saved) &&
      next.editor.value.draft ==
        if ((!Same(d.base, d.roster) || d.reason != "") && |d.reason| <= 1000 && |d.base| <= 10000 &&
          |d.roster| <= 10000) then d else Draft(revision, saved, saved, "")
  {
    EditorIsSound(w, steps);
    var d := Run(w, steps).editor.value.draft;
    SameIff(d.base, d.roster);
  }

  // What the four edits do to the entries. The id that is meant gets another agent and loses its
  // name, or gets another name, or goes, or comes; nothing else changes, not even the order.
  lemma EditByEntries(roster: Roster, edit: Edit, i: nat)
    requires UniqueIds(roster) && i < |roster|
    ensures var next := EditedRoster(roster, edit);
      match edit
      case Replace(id, agent) =>
        |next| == |roster| &&
        if roster[i].id != id then next[i] == roster[i]
        else next[i].agentId == agent && next[i] == Assignment(id, roster[i].roleId, agent, Some(""), roster[i].owns)
      case Rename(id, name) =>
        |next| == |roster| &&
        if roster[i].id != id then next[i] == roster[i]
        else next[i] == Assignment(id, roster[i].roleId, roster[i].agentId, Some(name), roster[i].owns)
      case Drop(id) => if roster[i].id == id then next == roster[..i] + roster[i + 1..] else roster[i] in next
      case Add(a) => |next| == |roster| + 1 && next[i] == roster[i] && next[|roster|] == a
  {
    if edit.Drop? && roster[i].id == edit.id {
      WithoutByEntries(roster, edit.id, i);
    } else if edit.Drop? {
      FindAt(roster, i);
      WithoutKeepsOthers(roster, edit.id, roster[i].id);
      FindHasId(EditedRoster(roster, edit), roster[i].id);
    }
  }

  lemma {:induction false} WithoutByEntries(roster: Roster, id: string, i: nat)
    requires UniqueIds(roster) && i < |roster| && roster[i].id == id
    ensures Without(roster, id) == roster[..i] + roster[i + 1..]
  {
    if i == 0 {
      NoneWithout(roster[1..], id);
    } else {
      FindSome(roster[1..], i - 1);
      WithoutByEntries(roster[1..], id, i - 1);
      assert roster[..i] == [roster[0]] + roster[1..][..i - 1];
    }
  }

  lemma {:induction false} NoneWithout(roster: Roster, id: string)
    requires Find(roster, id) == None
    ensures Without(roster, id) == roster
  {
    if roster != [] {
      NoneWithout(roster[1..], id);
    }
  }

  // The form follows the user only while it is open, nothing is under way and nothing contested;
  // whatever changes the draft, or shows another revision of the team, undoes the review.
  lemma FormDoes(w: World, steps: seq<Step>, step: Step)
    requires Start(w) && Run(w, steps).editor.Some?
    ensures var now, next := Run(w, steps), Run(w, steps + [step]);
      var e := now.editor.value;
      var usable := e.open && e.flight.Idle? && e.merge.None?;
      match step
      case ChangeRoster(edit) => FreshlyAdded(e, edit) ==>
        next == now.(editor := Some(if !usable then e
          else e.(draft := e.draft.(roster := EditedRoster(e.draft.roster, edit)), reviewed := false)))
      case SetReason(reason) =>
        next == now.(editor := Some(if !usable then e else e.(draft := e.draft.(reason := reason), reviewed := false)))
      case Tick(value) =>
        next == now.(editor := Some(
          if usable && value then e.(reviewed := true, shown := e.draft)
          else if usable then e.(reviewed := false)
          else e))
      case Choose(id, choice) =>
        next == now.(editor := Some(
          if !e.open || e.merge.None? then e
          else e.(merge := Some(e.merge.value.(choices :=
            if choice.None? then e.merge.value.choices - {id} else e.merge.value.choices[id := choice.value])))))
      case _ => true
  {
    assert (steps + [step])[..|steps|] == steps;
  }

  // A team that comes from outside is taken, and undoes the review, if it is newer.
  lemma NewerTeamIsTaken(w: World, steps: seq<Step>, revision: int)
    requires Start(w) && Run(w, steps).editor.Some? && Exists(Run(w, steps).history, revision)
    ensures var now, next := Run(w, steps), Run(w, steps + [TeamPolled(revision)]);
      var e := now.editor.value;
      next == now.(editor := Some(
        if revision > e.team.revision then e.(team := At(now.history, revision), reviewed := false) else e))
  {
    assert (steps + [TeamPolled(revision)])[..|steps|] == steps;
    EditorIsSound(w, steps);
    TeamIs(Run(w, steps).history, Run(w, steps).editor.value);
  }

  lemma TeamIs(h: seq<Roster>, e: Editor)
    requires Sound(h, e)
    ensures Exists(h, e.team.revision) && e.team == At(h, e.team.revision)
  {
  }

  // A change of who is eligible undoes the review, too; and closing waits for what is under way.
  lemma FrameDoes(w: World, steps: seq<Step>, step: Step)
    requires Run(w, steps).editor.Some?
    ensures var now, next := Run(w, steps), Run(w, steps + [step]);
      var e := now.editor.value;
      match step
      case EligibilityChanged => next == now.(editor := Some(e.(reviewed := false)))
      case Open => e.open ==> next == now
      case Close => next == now.(editor := Some(e.(open := e.open && !e.flight.Idle?)))
      case BeginRefresh =>
        next == now.(editor := Some(if e.open && e.flight.Idle? then e.(flight := Loading(e.draft, e.team)) else e))
      case _ => true
  {
    assert (steps + [step])[..|steps|] == steps;
  }
}
