/**
  The algebra of the roster merge: what happens when one side is unchanged, when the sides are
  swapped, when conflicts are resolved, when a draft is rebased twice, and when a save reached
  the server but its response did not come back.
 */
module RosterLaws {
  import opened Options
  import opened Rosters

  // Everything below is about rosters as the server keeps them, without repeated ids.
  predicate Proper(base: Roster, mine: Roster, saved: Roster) {
    UniqueIds(base) && UniqueIds(mine) && UniqueIds(saved)
  }

  predicate NoConflicts(base: Roster, mine: Roster, saved: Roster) {
    Reconciled(base, mine, saved).conflicts == []
  }

  lemma MergeAt(base: Roster, mine: Roster, saved: Roster, id: string)
    requires UniqueIds(saved)
    ensures Find(Reconciled(base, mine, saved).roster, id) == Rule(Find(base, id), Find(mine, id), Find(saved, id))
    ensures NoConflicts(base, mine, saved) ==> !ConflictsAt(base, mine, saved, id)
  {
    MergeRule(base, mine, saved);
    MapOfIsUnique(saved);
    if ConflictsAt(base, mine, saved, id) {
      assert Conflict(id, Find(mine, id), Find(saved, id)) in Reconciled(base, mine, saved).conflicts;
    }
  }

  lemma NoConflictsIff(base: Roster, mine: Roster, saved: Roster)
    requires UniqueIds(saved)
    ensures NoConflicts(base, mine, saved) <==> forall id :: !ConflictsAt(base, mine, saved, id)
  {
    forall id | NoConflicts(base, mine, saved) ensures !ConflictsAt(base, mine, saved, id) {
      MergeAt(base, mine, saved, id);
    }
    var found := Reconciled(base, mine, saved).conflicts;
    if found != [] {
      MergeRule(base, mine, saved);
      MapOfIsUnique(saved);
      assert found[0] in found;
    }
  }

  // ---------------------------------------------------------------- unchanged sides

  lemma {:induction false} NothingToMerge(base: Roster, mine: Roster, start: Merged, ids: seq<string>)
    requires forall id :: Agree(base, mine, id)
    ensures MergeAll(base, mine, start, ids) == start
  {
    if ids != [] {
      NothingToMerge(base, mine, start, ids[..|ids| - 1]);
      assert Agree(base, mine, ids[|ids| - 1]);
    }
  }

  // Nothing edited here: the saved roster comes back untouched, order and all.
  lemma UnchangedMineYieldsSaved(base: Roster, mine: Roster, saved: Roster)
    requires Proper(base, mine, saved) && SameRoster(base, mine)
    ensures Reconciled(base, mine, saved) == Merged(saved, [])
  {
    SameRosterMeansNoDifferences(base, mine);
    MapOfIsUnique(saved);
    NothingToMerge(base, mine, Merged(saved, []), Touched(base, mine));
  }

  // Nothing saved meanwhile: the draft comes back, as a roster, without conflicts. In particular
  // loading the same saved team twice changes nothing the second time.
  lemma UnchangedSavedYieldsMine(base: Roster, mine: Roster, saved: Roster)
    requires Proper(base, mine, saved) && SameRoster(base, saved)
    ensures NoConflicts(base, mine, saved)
    ensures SameRoster(Reconciled(base, mine, saved).roster, mine)
  {
    SameRosterMeansNoDifferences(base, saved);
    forall id ensures !ConflictsAt(base, mine, saved, id) {
      assert Agree(base, saved, id);
    }
    NoConflictsIff(base, mine, saved);
    MergeRule(base, mine, saved);
    forall id ensures Agree(Reconciled(base, mine, saved).roster, mine, id) {
      MergeAt(base, mine, saved, id);
      assert Agree(base, saved, id);
    }
    SameRosterMeansNoDifferences(Reconciled(base, mine, saved).roster, mine);
  }

  // ---------------------------------------------------------------- symmetry

  // Which side is called mine does not matter for what conflicts, nor for the merged
  // roster anywhere else.
  lemma MergeIsSymmetric(base: Roster, mine: Roster, saved: Roster, id: string)
    requires Proper(base, mine, saved)
    ensures ConflictsAt(base, mine, saved, id) <==> ConflictsAt(base, saved, mine, id)
    ensures !ConflictsAt(base, mine, saved, id)
        ==> Agree(Reconciled(base, mine, saved).roster, Reconciled(base, saved, mine).roster, id)
  {
    MergeAt(base, mine, saved, id);
    MergeAt(base, saved, mine, id);
  }

  // An edit on one side alone survives; so does an edit both sides made.
  lemma EditsSurvive(base: Roster, mine: Roster, saved: Roster, id: string)
    requires Proper(base, mine, saved) && !ConflictsAt(base, mine, saved, id)
    ensures !Agree(base, mine, id) ==> Agree(Reconciled(base, mine, saved).roster, mine, id)
    ensures !Agree(base, saved, id) ==> Agree(Reconciled(base, mine, saved).roster, saved, id)
  {
    MergeAt(base, mine, saved, id);
  }

  // ---------------------------------------------------------------- rebasing twice

  // A draft edited on `base` is rebased onto s1 and then onto s2 (two visits to "Review latest
  // team"). That differs from one rebase straight onto s2 only where s1 already contained the
  // edit: there the edit counts as done, and whatever s2 says stands, even if s2 took it back.
  lemma TwoRebases(base: Roster, mine: Roster, s1: Roster, s2: Roster, id: string)
    requires Proper(base, mine, s1) && UniqueIds(s2) && !ConflictsAt(base, mine, s1, id)
    ensures var once := Reconciled(base, mine, s1).roster;
      if !Agree(base, mine, id) && Agree(s1, mine, id) then
        !ConflictsAt(s1, once, s2, id) && Agree(Reconciled(s1, once, s2).roster, s2, id)
      else
        (ConflictsAt(s1, once, s2, id) <==> ConflictsAt(base, mine, s2, id)) &&
        Agree(Reconciled(s1, once, s2).roster, Reconciled(base, mine, s2).roster, id)
  {
    var once := Reconciled(base, mine, s1).roster;
    MergeAt(base, mine, s1, id);
    MergeAt(s1, once, s2, id);
    MergeAt(base, mine, s2, id);
  }

  // The two ways really part exactly when an edit s1 had contained was undone or changed in s2.
  lemma TwoRebasesDifferIff(base: Roster, mine: Roster, s1: Roster, s2: Roster, id: string)
    requires Proper(base, mine, s1) && UniqueIds(s2) && !ConflictsAt(base, mine, s1, id)
    ensures var once := Reconciled(base, mine, s1).roster;
      ((ConflictsAt(s1, once, s2, id) <==> ConflictsAt(base, mine, s2, id)) &&
        Agree(Reconciled(s1, once, s2).roster, Reconciled(base, mine, s2).roster, id))
      <==> !(!Agree(base, mine, id) && Agree(s1, mine, id) && !Agree(s1, s2, id))
  {
    TwoRebases(base, mine, s1, s2, id);
    MergeAt(base, mine, s2, id);
  }

  // ---------------------------------------------------------------- the lost response

  // After a save whose outcome is unknown the draft is rebased onto what the server now has.
  // What is then left to review is exactly the edits the server does not have: those of a save
  // that did arrive are gone from the list, and no saved change of anyone else is on it.
  lemma LostResponseLeavesUnsavedEdits(base: Roster, mine: Roster, saved: Roster, id: string)
    requires Proper(base, mine, saved) && NoConflicts(base, mine, saved)
    ensures id in Differences(saved, Reconciled(base, mine, saved).roster)
       <==> id in Differences(base, mine) && !Agree(saved, mine, id)
  {
    MergeAt(base, mine, saved, id);
    DifferencesExact(saved, Reconciled(base, mine, saved).roster);
    DifferencesExact(base, mine);
  }

  // ---------------------------------------------------------------- resolving conflicts

  datatype Choice = Mine | Saved

  function ResolveStep(items: Roster, conflict: Conflict, choices: map<string, Choice>): Roster {
    var chosen :=
      if conflict.id in choices && choices[conflict.id] == Mine then conflict.mine else conflict.saved;
    if chosen.Some? then Put(items, chosen.value) else Remove(items, conflict.id)
  }

  function Resolved(items: Roster, conflicts: seq<Conflict>, choices: map<string, Choice>): Roster {
    if conflicts == [] then items
    else ResolveStep(Resolved(items, conflicts[..|conflicts| - 1], choices), conflicts[|conflicts| - 1], choices)
  }

  // Each version a conflict shows is an assignment with the conflict's id.
  predicate WellKeyed(conflicts: seq<Conflict>) {
    forall c :: c in conflicts ==>
      (c.mine.Some? ==> c.mine.value.id == c.id) && (c.saved.Some? ==> c.saved.value.id == c.id)
  }

  predicate DistinctConflicts(conflicts: seq<Conflict>) {
    forall i, j :: 0 <= i < j < |conflicts| ==> conflicts[i].id != conflicts[j].id
  }

  lemma ResolveStepAt(items: Roster, c: Conflict, choices: map<string, Choice>, id: string)
    requires UniqueIds(items) && WellKeyed([c])
    ensures UniqueIds(ResolveStep(items, c, choices))
    ensures Find(ResolveStep(items, c, choices), id)
         == if id != c.id then Find(items, id)
            else if id in choices && choices[id] == Mine then c.mine else c.saved
  {
    assert c in [c];
    var chosen := if c.id in choices && choices[c.id] == Mine then c.mine else c.saved;
    if chosen.Some? {
      FindPut(items, chosen.value, id);
      UniquePut(items, chosen.value);
    } else {
      FindRemove(items, c.id, id);
      UniqueRemove(items, c.id);
    }
  }

  lemma {:induction false} ResolvedElsewhere(items: Roster, conflicts: seq<Conflict>, choices: map<string, Choice>,
      id: string)
    requires UniqueIds(items) && WellKeyed(conflicts)
    ensures UniqueIds(Resolved(items, conflicts, choices))
    ensures (forall i :: 0 <= i < |conflicts| ==> conflicts[i].id != id) ==>
      Find(Resolved(items, conflicts, choices), id) == Find(items, id)
  {
    if conflicts != [] {
      var front, last := conflicts[..|conflicts| - 1], conflicts[|conflicts| - 1];
      assert last in conflicts && forall c :: c in front ==> c in conflicts;
      ResolvedElsewhere(items, front, choices, id);
      ResolveStepAt(Resolved(items, front, choices), last, choices, id);
    }
  }

  lemma {:induction false} ResolvedThere(items: Roster, conflicts: seq<Conflict>, choices: map<string, Choice>, k: int)
    requires UniqueIds(items) && WellKeyed(conflicts) && DistinctConflicts(conflicts) && 0 <= k < |conflicts|
    ensures Find(Resolved(items, conflicts, choices), conflicts[k].id)
         == if conflicts[k].id in choices && choices[conflicts[k].id] == Mine then conflicts[k].mine
           else conflicts[k].saved
  {
    var front, last := conflicts[..|conflicts| - 1], conflicts[|conflicts| - 1];
    assert last in conflicts && forall c :: c in front ==> c in conflicts;
    ResolvedElsewhere(items, front, choices, last.id);
    ResolveStepAt(Resolved(items, front, choices), last, choices, conflicts[k].id);
    if k < |front| {
      ResolvedThere(items, front, choices, k);
    }
  }

  lemma ResolvedAt(items: Roster, conflicts: seq<Conflict>, choices: map<string, Choice>, id: string)
    requires UniqueIds(items) && WellKeyed(conflicts) && DistinctConflicts(conflicts)
    ensures UniqueIds(Resolved(items, conflicts, choices))
    ensures (forall c :: c in conflicts ==> c.id != id) ==>
      Find(Resolved(items, conflicts, choices), id) == Find(items, id)
    ensures forall c :: c in conflicts && c.id == id ==>
      Find(Resolved(items, conflicts, choices), id) == if id in choices && choices[id] == Mine then c.mine else c.saved
  {
    ResolvedElsewhere(items, conflicts, choices, id);
    forall c | c in conflicts && c.id == id
      ensures Find(Resolved(items, conflicts, choices), id) == if id in choices && choices[id] == Mine then c.mine
        else c.saved
    {
      var k :| 0 <= k < |conflicts| && conflicts[k] == c;
      ResolvedThere(items, conflicts, choices, k);
    }
  }

  method UseTheseChoices(items: Roster, conflicts: seq<Conflict>, choices: map<string, Choice>) returns (roster: Roster)
    ensures roster == Resolved(items, conflicts, choices)
  {
    roster := items;
    for k := 0 to |conflicts|
      invariant roster == Resolved(items, conflicts[..k], choices)
    {
      var conflict := conflicts[k];
      assert conflicts[..k + 1][..k] == conflicts[..k];
      var chosen :=
        if conflict.id in choices && choices[conflict.id] == Mine then conflict.mine else conflict.saved;
      if chosen.Some? {
        roster := Put(roster, chosen.value);
      } else {
        roster := Remove(roster, conflict.id);
      }
    }
    assert conflicts[..|conflicts|] == conflicts;
  }

  lemma MergeConflictsAreProper(base: Roster, mine: Roster, saved: Roster)
    requires UniqueIds(saved)
    ensures WellKeyed(Reconciled(base, mine, saved).conflicts)
    ensures DistinctConflicts(Reconciled(base, mine, saved).conflicts)
  {
    MergeRule(base, mine, saved);
    forall c | c in Reconciled(base, mine, saved).conflicts
      ensures (c.mine.Some? ==> c.mine.value.id == c.id) && (c.saved.Some? ==> c.saved.value.id == c.id)
    {
      FindHasId(mine, c.id);
      FindHasId(MapOf(saved), c.id);
    }
    MapOfIsUnique(saved);
    DistinctFacts(IdsOf(base + mine));
    MergeAllConflicts(base, mine, Merged(MapOf(saved), []), Touched(base, mine));
    ConflictIdsAreDistinct(base, mine, saved, Touched(base, mine));
  }

  // Each conflicting id ends up with the version chosen for it (the saved one unless "mine" was
  // chosen), every other id with what the merge gave it, and no id appears twice.
  lemma ResolutionGivesEachChoice(base: Roster, mine: Roster, saved: Roster, choices: map<string, Choice>, id: string)
    requires Proper(base, mine, saved)
    ensures var m := Reconciled(base, mine, saved);
      var roster := Resolved(m.roster, m.conflicts, choices);
      UniqueIds(roster) &&
      Find(roster, id) ==
        if !ConflictsAt(base, mine, saved, id) then Rule(Find(base, id), Find(mine, id), Find(saved, id))
        else if id in choices && choices[id] == Mine then Find(mine, id) else Find(saved, id)
  {
    var m := Reconciled(base, mine, saved);
    MergeRule(base, mine, saved);
    MapOfIsUnique(saved);
    MergeConflictsAreProper(base, mine, saved);
    ResolvedAt(m.roster, m.conflicts, choices, id);
    if ConflictsAt(base, mine, saved, id) {
      assert Conflict(id, Find(mine, id), Find(saved, id)) in m.conflicts;
    }
  }

  // ---------------------------------------------------------------- the fields nobody compares

  function OwnsOf(a: Option<Assignment>): Option<seq<string>> {
    match a
    case None => None
    case Some(x) => Some(x.owns)
  }

  // The merge compares assignments without `owns` but moves them whole. Someone else's change of
  // `owns` therefore survives a merge if and only if the draft did not edit that assignment, or
  // conflicts on it, or happens to carry the same topics.
  lemma OwnsSurviveIff(base: Roster, mine: Roster, saved: Roster, id: string)
    requires Proper(base, mine, saved) && Find(saved, id).Some? && Find(mine, id).Some?
    ensures OwnsOf(Find(Reconciled(base, mine, saved).roster, id)) == OwnsOf(Find(saved, id)) <==>
      (Agree(base, mine, id) || ConflictsAt(base, mine, saved, id) ||
       OwnsOf(Find(mine, id)) == OwnsOf(Find(saved, id)))
  {
    MergeAt(base, mine, saved, id);
  }
}
