/**
  The topics an assignment owns, in runs of the roster editor: they are saved with it, but nobody
  compares them, so a reviewed save can change them where nothing was listed for review.
 */
module RosterTopics {
  import opened Options
  import opened Rosters
  import opened RosterLaws
  import opened RosterEditor
  import opened RosterRuns
  import opened Text

  // The `owns` of an id that was not reviewed is a different matter: what another writer saved
  // there stands exactly when the draft that was sent has the same in its base and in its roster,
  // which can be seen before the save.
  lemma UnreviewedTopicsStandIff(w: World, steps: seq<Step>, c: Commit, id: string)
    requires Start(w) && c in Run(w, steps).commits && id !in c.reviewed
    ensures var h := Run(w, steps).history;
      1 <= c.replaced < |h| &&
      (OwnsOf(Find(h[c.replaced], id)) == OwnsOf(Find(h[c.replaced - 1], id)) <==>
       OwnsOf(Find(c.sent.roster, id)) == OwnsOf(Find(c.sent.base, id)))
  {
    RunKeepsInv(w, steps);
    assert CommitOk(Run(w, steps).history, c);
  }

  // The draft would save other topics for an id than its base has.
  predicate Carries(d: Draft, id: string) {
    Find(d.base, id).Some? && Find(d.roster, id).Some? && Find(d.base, id).value.owns != Find(d.roster, id).value.owns
  }

  // And that is not listed for review.
  predicate Hides(d: Draft, id: string) {
    Carries(d, id) && Agree(d.base, d.roster, id)
  }

  // What a save does unreviewed is what the draft that was sent hides.
  lemma UnreviewedTopicsChangeIff(w: World, steps: seq<Step>, c: Commit, id: string)
    requires Start(w) && c in Run(w, steps).commits
    ensures var h := Run(w, steps).history;
      1 <= c.replaced < |h| &&
      (id !in c.reviewed && OwnsOf(Find(h[c.replaced], id)) != OwnsOf(Find(h[c.replaced - 1], id)) <==>
       Hides(c.sent, id))
  {
    RunKeepsInv(w, steps);
    assert CommitOk(Run(w, steps).history, c);
    DifferencesExact(c.sent.base, c.sent.roster);
  }

  // ---------------------------------------------------------------- where a draft gets other topics

  // Nothing but a refresh and a use of choices puts a draft on another base.
  predicate Rebasing(h: seq<Roster>, e: Editor, step: Step) {
    match step
    case EndRefresh(found) =>
      e.flight.Loading? && found.Some? && Exists(h, found.value) && found.value >= e.flight.team.revision &&
      !(Changed(e.draft) && SameRoster(h[found.value - 1], e.draft.roster)) &&
      NoConflicts(e.draft.base, e.draft.roster, h[found.value - 1])
    case UseChoices => CanUseChoices(e)
    case _ => false
  }

  function Onto(h: seq<Roster>, e: Editor, step: Step): Roster
    requires Rebasing(h, e, step)
  {
    if step.UseChoices? then e.merge.value.base else h[step.found.value - 1]
  }

  // The draft's own version of an id goes along: it was edited, and if that conflicts, chosen.
  predicate GoesAlong(h: seq<Roster>, e: Editor, step: Step, id: string)
    requires Rebasing(h, e, step)
  {
    !Agree(e.draft.base, e.draft.roster, id) &&
    (ConflictsAt(e.draft.base, e.draft.roster, Onto(h, e, step), id) ==>
      step.UseChoices? && id in e.merge.value.choices && e.merge.value.choices[id] == Mine)
  }

  // While there are choices to make, they are those between the draft and the newer roster; and a
  // call under way holds the draft there is.
  predicate MergesDraft(e: Editor) {
    (!e.flight.Idle? ==> e.open && e.flight.draft == e.draft) && (e.flight.Saving? ==> e.merge.None?) &&
    (e.merge.Some? ==>
      e.merge.value.conflicts != [] &&
      Reconciled(e.draft.base, e.draft.roster, e.merge.value.base) ==
        Merged(e.merge.value.roster, e.merge.value.conflicts))
  }

  // What holds of the editor in every run.
  predicate Sound(h: seq<Roster>, e: Editor) {
    EditorOk(h, e) && MergesDraft(e) && forall i :: 0 <= i < |h| ==> UniqueIds(h[i])
  }

  lemma ConflictsMeanChanged(d: Draft, saved: Roster)
    requires UniqueIds(d.base) && UniqueIds(d.roster) && Reconciled(d.base, d.roster, saved).conflicts != []
    ensures Changed(d)
  {
    if !Changed(d) {
      SameRosterMeansNoDifferences(d.base, d.roster);
      NothingToMerge(d.base, d.roster, Merged(MapOf(saved), []), Touched(d.base, d.roster));
    }
  }

  lemma RefreshMergesDraft(e: Editor, reply: Option<Snapshot>)
    requires MergesDraft(e) && e.flight.Loading?
    ensures MergesDraft(RefreshEnded(e, reply))
  {
  }

  lemma OtherStepMergesDraft(h: seq<Roster>, e: Editor, step: Step)
    requires Sound(h, e) && !step.EndRefresh?
    ensures MergesDraft(Moved(h, e, step))
  {
    if step.Open? && e.merge.Some? {
      ConflictsMeanChanged(e.draft, e.merge.value.base);
    }
  }

  lemma MovedMergesDraft(h: seq<Roster>, e: Editor, step: Step)
    requires Sound(h, e)
    ensures MergesDraft(Moved(h, e, step))
  {
    if !step.EndRefresh? {
      OtherStepMergesDraft(h, e, step);
    } else if e.flight.Loading? && (step.found.None? || Exists(h, step.found.value)) {
      RefreshMergesDraft(e, if step.found.Some? then Some(At(h, step.found.value)) else None);
    }
  }

  ghost predicate EditorMergesDraft(w: World) {
    w.editor.Some? ==> MergesDraft(w.editor.value)
  }

  lemma StepMergesDraft(w: World, step: Step)
    requires Inv(w) && EditorMergesDraft(w)
    ensures EditorMergesDraft(Next(w, step))
  {
    if w.editor.Some? {
      MovedMergesDraft(w.history, w.editor.value, step);
    }
  }

  lemma {:induction false} RunMergesDraft(w: World, steps: seq<Step>)
    requires Start(w)
    ensures EditorMergesDraft(Run(w, steps))
  {
    if steps != [] {
      RunMergesDraft(w, steps[..|steps| - 1]);
      RunKeepsInv(w, steps[..|steps| - 1]);
      StepMergesDraft(Run(w, steps[..|steps| - 1]), steps[|steps| - 1]);
    }
  }

  // ---------------------------------------------------------------- one step

  lemma RefreshCarriesIff(h: seq<Roster>, e: Editor, step: Step, id: string)
    requires Sound(h, e)
    requires step.EndRefresh? && Rebasing(h, e, step)
    ensures Carries(Moved(h, e, step).draft, id) <==>
      GoesAlong(h, e, step, id) && Carries(Draft(0, Onto(h, e, step), e.draft.roster, ""), id)
  {
    MergeAt(e.draft.base, e.draft.roster, Onto(h, e, step), id);
  }

  lemma ChoicesCarryIff(h: seq<Roster>, e: Editor, id: string)
    requires Sound(h, e) && CanUseChoices(e)
    ensures Carries(Moved(h, e, UseChoices).draft, id) <==>
      GoesAlong(h, e, UseChoices, id) && Carries(Draft(0, Onto(h, e, UseChoices), e.draft.roster, ""), id)
  {
    var m := e.merge.value;
    ResolutionGivesEachChoice(e.draft.base, e.draft.roster, m.base, m.choices, id);
  }

  lemma {:induction false} MappedKeepsOwns(roster: Roster, mapped: Roster, id: string)
    requires |mapped| == |roster|
    requires forall i :: 0 <= i < |roster| ==> mapped[i].id == roster[i].id && mapped[i].owns == roster[i].owns
    ensures OwnsOf(Find(mapped, id)) == OwnsOf(Find(roster, id))
  {
    if roster != [] && roster[0].id != id {
      MappedKeepsOwns(roster[1..], mapped[1..], id);
    }
  }

  lemma {:induction false} WithoutKeepsOthers(roster: Roster, gone: string, id: string)
    ensures Find(Without(roster, gone), id) == if id == gone then None else Find(roster, id)
  {
    if roster != [] {
      WithoutKeepsOthers(roster[1..], gone, id);
    }
  }

  lemma EditCarriesNothingNew(e: Editor, edit: Edit, id: string)
    requires FreshlyAdded(e, edit) && Carries(RosterEdited(e, edit).draft, id)
    ensures Carries(e.draft, id)
  {
    var roster := e.draft.roster;
    match edit
    case Replace(_, _) => MappedKeepsOwns(roster, EditedRoster(roster, edit), id);
    case Rename(_, _) => MappedKeepsOwns(roster, EditedRoster(roster, edit), id);
    case Drop(gone) => WithoutKeepsOthers(roster, gone, id);
    case Add(a) => FindAppend(roster, [a], id);
  }

  lemma AnswerCarriesNothingNew(h: seq<Roster>, e: Editor, step: Step, id: string)
    requires Sound(h, e) && (step.EndRefresh? || step.EndSave?) && !Rebasing(h, e, step)
    requires Carries(Moved(h, e, step).draft, id)
    ensures Carries(e.draft, id)
  {
  }

  lemma OtherStepCarriesNothingNew(h: seq<Roster>, e: Editor, step: Step, id: string)
    requires Sound(h, e) && !Rebasing(h, e, step) && Carries(Moved(h, e, step).draft, id)
    ensures Carries(e.draft, id)
  {
    if step.EndRefresh? || step.EndSave? {
      AnswerCarriesNothingNew(h, e, step, id);
    } else if step.ChangeRoster? && FreshlyAdded(e, step.edit) {
      EditCarriesNothingNew(e, step.edit, id);
    }
  }

  lemma EditorIsSound(w: World, steps: seq<Step>)
    requires Start(w) && Run(w, steps).editor.Some?
    ensures Sound(Run(w, steps).history, Run(w, steps).editor.value)
  {
    RunKeepsInv(w, steps);
    RunMergesDraft(w, steps);
  }

  lemma StepDivergesIff(h: seq<Roster>, e: Editor, step: Step, id: string)
    requires Sound(h, e)
    ensures var next := Moved(h, e, step).draft;
      if Rebasing(h, e, step) then
        next.base == Onto(h, e, step) &&
        (Carries(next, id) <==>
         GoesAlong(h, e, step, id) && Carries(Draft(0, Onto(h, e, step), e.draft.roster, ""), id))
      else Carries(next, id) ==> Carries(e.draft, id)
  {
    if Rebasing(h, e, step) {
      if step.UseChoices? { ChoicesCarryIff(h, e, id); } else { RefreshCarriesIff(h, e, step, id); }
    } else if Carries(Moved(h, e, step).draft, id) {
      OtherStepCarriesNothingNew(h, e, step, id);
    }
  }

  // In every run, a step of the editor makes its draft carry other topics for an id than the base
  // has in two ways only. A refresh without conflicts does, and so does a use of choices, exactly
  // where the draft's own version of the id goes along and has other topics than the newer roster.
  // Every other step leaves a draft with no more of these than it had; the first ones there are may
  // come with the draft restored from the device.
  lemma TopicsDivergeIff(w: World, steps: seq<Step>, step: Step, id: string)
    requires Start(w) && Run(w, steps).editor.Some?
    ensures var h, e := Run(w, steps).history, Run(w, steps).editor.value;
      var next := Moved(h, e, step).draft;
      if Rebasing(h, e, step) then
        next.base == Onto(h, e, step) &&
        (Carries(next, id) <==>
         GoesAlong(h, e, step, id) && Carries(Draft(0, Onto(h, e, step), e.draft.roster, ""), id))
      else Carries(next, id) ==> Carries(e.draft, id)
  {
    EditorIsSound(w, steps);
    StepDivergesIff(Run(w, steps).history, Run(w, steps).editor.value, step, id);
  }

  // And at once hidden from review is what someone else has edited alike.
  lemma TopicsAreHiddenIff(w: World, steps: seq<Step>, step: Step, id: string)
    requires Start(w) && Run(w, steps).editor.Some?
    requires Rebasing(Run(w, steps).history, Run(w, steps).editor.value, step)
    ensures var h, e := Run(w, steps).history, Run(w, steps).editor.value;
      var onto := Onto(h, e, step);
      Hides(Moved(h, e, step).draft, id) <==>
      !Agree(e.draft.base, e.draft.roster, id) && Hides(Draft(0, onto, e.draft.roster, ""), id)
  {
    EditorIsSound(w, steps);
    var h, e := Run(w, steps).history, Run(w, steps).editor.value;
    StepDivergesIff(h, e, step, id);
    if step.UseChoices? {
      ResolutionGivesEachChoice(e.draft.base, e.draft.roster, e.merge.value.base, e.merge.value.choices, id);
    } else {
      MergeAt(e.draft.base, e.draft.roster, Onto(h, e, step), id);
    }
  }

  // So it happens: the draft makes "a" Lead and "b" Deputy; someone else makes "a" Lead too and
  // gives it a topic; after a refresh and a reviewed save, of "b" alone, the topic is gone.
  const A := Assignment("a", "research", "alpha", None, [])
  const B := Assignment("b", "research", "beta", None, [])
  const LEAD := A.(displayName := Some("Lead"))
  const DEPUTY := B.(displayName := Some("Deputy"))
  const TOPICAL := LEAD.(owns := ["pricing"])

  const TOPIC_START := World([[A, B]], [], None, None, [])

  const TOPIC_STEPS: seq<Step> := [
    Mount(1), Open, ChangeRoster(Rename("a", "Lead")), ChangeRoster(Rename("b", "Deputy")), OtherWriter([TOPICAL, B]),
    BeginRefresh, EndRefresh(Some(2)), SetReason("Promotions"), Tick(true), BeginSave(true, 0), Deliver(0)]

  lemma RunTo(w: World, steps: seq<Step>, n: int)
    requires 0 <= n < |steps|
    ensures Run(w, steps[..n + 1]) == Next(Run(w, steps[..n]), steps[n])
  {
    assert steps[..n + 1][..n] == steps[..n];
  }

  lemma TopicOpen()
    ensures Run(TOPIC_START, TOPIC_STEPS[..2]) ==
      TOPIC_START.(editor := Some(Opened(Mounted(None, Snapshot(1, [A, B])))))
  {
    assert TOPIC_STEPS[..0] == [];
    RunTo(TOPIC_START, TOPIC_STEPS, 0);
    RunTo(TOPIC_START, TOPIC_STEPS, 1);
  }

  lemma TopicDraft()
    ensures Run(TOPIC_START, TOPIC_STEPS[..4]) ==
      TOPIC_START.(editor := Some(
        Opened(Mounted(None, Snapshot(1, [A, B]))).(draft := Draft(1, [A, B], [LEAD, DEPUTY], ""))))
  {
    TopicOpen();
    RunTo(TOPIC_START, TOPIC_STEPS, 2);
    RunTo(TOPIC_START, TOPIC_STEPS, 3);
    assert EditedRoster([A, B], Rename("a", "Lead")) == [LEAD, B];
    assert EditedRoster([LEAD, B], Rename("b", "Deputy")) == [LEAD, DEPUTY];
  }

  lemma TopicFind(a: Assignment, b: Assignment, id: string)
    ensures Find([a, b], id) == if id == a.id then Some(a) else if id == b.id then Some(b) else None
    ensures a.id != b.id ==> UniqueIds([a, b])
  {
    assert [a, b][1..] == [b] && [b][1..] == [];
    assert Find([b], id) == if id == b.id then Some(b) else None;
    assert Find([b], a.id) == if a.id == b.id then Some(b) else None;
  }

  function TopicMerge(): Merged {
    Reconciled([A, B], [LEAD, DEPUTY], [TOPICAL, B])
  }

  lemma TopicMergeIs()
    ensures TopicMerge().conflicts == [] && UniqueIds(TopicMerge().roster)
    ensures Find(TopicMerge().roster, "a") == Some(LEAD) && Find(TopicMerge().roster, "b") == Some(DEPUTY)
    ensures !SameRoster([TOPICAL, B], [LEAD, DEPUTY]) && !SameRoster([TOPICAL, B], TopicMerge().roster)
  {
    TopicFind(A, B, "a");
    forall id ensures !ConflictsAt([A, B], [LEAD, DEPUTY], [TOPICAL, B], id) {
      TopicFind(A, B, id);
      TopicFind(LEAD, DEPUTY, id);
      TopicFind(TOPICAL, B, id);
    }
    TopicFind(TOPICAL, B, "a");
    NoConflictsIff([A, B], [LEAD, DEPUTY], [TOPICAL, B]);
    MergeRule([A, B], [LEAD, DEPUTY], [TOPICAL, B]);
    TopicMergeAt("a", A, LEAD, TOPICAL);
    TopicMergeAt("b", B, DEPUTY, B);
    assert [TOPICAL, B][1] == B;
    TopicFind(LEAD, DEPUTY, "b");
  }

  lemma TopicMergeAt(id: string, base: Assignment, mine: Assignment, saved: Assignment)
    requires (id, base, mine, saved) in {("a", A, LEAD, TOPICAL), ("b", B, DEPUTY, B)}
    ensures Find(TopicMerge().roster, id) == Some(mine)
  {
    TopicFind(A, B, id);
    TopicFind(LEAD, DEPUTY, id);
    TopicFind(TOPICAL, B, id);
    MergeAt([A, B], [LEAD, DEPUTY], [TOPICAL, B], id);
  }

  // A refresh onto a newer roster that neither conflicts with the draft nor equals it.
  lemma Rebases(w: World, e: Editor, saved: Roster)
    requires w.editor == Some(e) && e.open && e.flight.Idle?
    requires e.team.revision == 1 && |w.history| == 2 && w.history[1] == saved
    requires NoConflicts(e.draft.base, e.draft.roster, saved) && !SameRoster(saved, e.draft.roster)
    ensures Next(Next(w, BeginRefresh), EndRefresh(Some(2))) == w.(editor := Some(e.(
      team := Snapshot(2, saved), uncertain := false, reviewed := false, merge := None,
      draft := Draft(2, saved, Reconciled(e.draft.base, e.draft.roster, saved).roster, e.draft.reason))))
  {
  }

  // A changed draft of the current revision is given a reason, reviewed, sent and carried out.
  lemma Saves(w: World, e: Editor, reason: string)
    requires w.editor == Some(e) && e.open && e.flight.Idle? && e.merge.None?
    requires !e.uncertain && w.puts == [] && !Blank(reason)
    requires e.draft.revision == e.team.revision == |w.history| && Changed(e.draft) && UniqueIds(e.draft.roster)
    ensures var d := e.draft.(reason := reason);
      var end := Next(Next(Next(Next(w, SetReason(reason)), Tick(true)), BeginSave(true, 0)), Deliver(0));
      end.history == w.history + [d.roster] &&
      end.commits == w.commits + [Commit(|w.history|, Differences(d.base, d.roster), d)]
  {
    var d := e.draft.(reason := reason);
    var ready := e.(draft := d, reviewed := true, shown := d);
    assert Next(Next(w, SetReason(reason)), Tick(true)) == w.(editor := Some(ready));
    var sent := Next(w.(editor := Some(ready)), BeginSave(true, 0));
    assert sent.puts == [Request(d.roster, d.revision, d)];
  }

  lemma TopicSave(w: World, steps: seq<Step>)
    requires w == TOPIC_START && steps == TOPIC_STEPS
    ensures Start(w)
    ensures var end := Run(w, steps);
      end.history == [[A, B], [TOPICAL, B], TopicMerge().roster] &&
      end.commits == [Commit(2, Differences([TOPICAL, B], TopicMerge().roster),
        Draft(2, [TOPICAL, B], TopicMerge().roster, "Promotions"))]
  {
    TopicFind(A, B, "a");
    TopicFind(TOPICAL, B, "a");
    TopicDraft();
    RunTo(w, steps, 4);
    RunTo(w, steps, 5);
    RunTo(w, steps, 6);
    RunTo(w, steps, 7);
    RunTo(w, steps, 8);
    RunTo(w, steps, 9);
    RunTo(w, steps, 10);
    assert steps[..11] == steps;
    TopicEnd(Run(w, steps[..5]), Run(w, steps[..7]), Run(w, steps));
  }

  lemma TopicEnd(before: World, rebased: World, end: World)
    requires before.editor.Some? && before.puts == [] && before.commits == []
    requires before.history == [[A, B], [TOPICAL, B]]
    requires var e := before.editor.value;
      e.open && e.flight.Idle? && e.merge.None? && e.team.revision == 1 &&
      e.draft == Draft(1, [A, B], [LEAD, DEPUTY], "")
    requires rebased == Next(Next(before, BeginRefresh), EndRefresh(Some(2)))
    requires end == Next(Next(Next(Next(rebased, SetReason("Promotions")), Tick(true)), BeginSave(true, 0)), Deliver(0))
    ensures end.history == before.history + [TopicMerge().roster]
    ensures end.commits == [Commit(2, Differences([TOPICAL, B], TopicMerge().roster),
      Draft(2, [TOPICAL, B], TopicMerge().roster, "Promotions"))]
  {
    TopicMergeIs();
    Rebases(before, before.editor.value, [TOPICAL, B]);
    NotBlank("Promotions");
    Saves(rebased, rebased.editor.value, "Promotions");
  }

  lemma NotBlank(s: string)
    requires s != "" && !IsSpace(s[0])
    ensures !Blank(s)
  {
    TrimEndKeepsFirst(s);
  }

  lemma OnlyTheDeputyIsListed(saved: Roster, merged: Roster)
    requires Find(saved, "a") == Some(TOPICAL) && Find(merged, "a") == Some(LEAD)
    requires Find(saved, "b") == Some(B) && Find(merged, "b") == Some(DEPUTY)
    ensures "a" !in Differences(saved, merged) && "b" in Differences(saved, merged)
  {
    DifferencesExact(saved, merged);
    assert Agree(saved, merged, "a") && !Agree(saved, merged, "b");
  }

  lemma TopicsCanBeLostUnreviewed(w: World, steps: seq<Step>)
    requires w == TOPIC_START && steps == TOPIC_STEPS
    ensures Start(w)
    ensures var end := Run(w, steps);
      |end.commits| == 1 && end.commits[0].replaced == 2 && |end.history| == 3 &&
      "b" in end.commits[0].reviewed && "a" !in end.commits[0].reviewed &&
      OwnsOf(Find(end.history[1], "a")) == Some(["pricing"]) && OwnsOf(Find(end.history[2], "a")) == Some([])
  {
    TopicSave(w, steps);
    TopicMergeIs();
    TopicFind(TOPICAL, B, "a");
    TopicFind(TOPICAL, B, "b");
    OnlyTheDeputyIsListed([TOPICAL, B], TopicMerge().roster);
  }
}
