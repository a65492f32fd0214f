/**
  The roster editor (desktop/src/TeamRoster.tsx).

  The first half gives each of the editor's transitions as a function on its state; an
  asynchronous function of the source becomes the part before its `await`, which captures what
  the closure captures, and the part after it. The class below performs the same transitions on
  fields.
 */
module RosterEditor {
  import opened Options
  import opened Rosters
  import opened RosterLaws
  import opened Text

  datatype Snapshot = Snapshot(revision: int, roster: Roster)

  datatype Draft = Draft(revision: int, base: Roster, roster: Roster, reason: string)

  datatype Merge = Merge(
    revision: int, base: Roster, roster: Roster, conflicts: seq<Conflict>, choices: map<string, Choice>)

  // The suspended half of `refresh` or `save`, with the variables its closure holds. While there
  // is one, the source's `lock` and `busy` are set.
  datatype Flight = Idle | Loading(draft: Draft, team: Snapshot) | Saving(draft: Draft, team: Snapshot)

  // `shown` is not a variable of the source: it records the draft on the screen when the user
  // last ticked "I reviewed the role assignments and changes above".
  datatype Editor = Editor(
    team: Snapshot, draft: Draft, merge: Option<Merge>, open: bool,
    uncertain: bool, reviewed: bool, flight: Flight, shown: Draft)

  datatype SaveReply = Accepted(deployment: Snapshot, sameVersion: bool) | Refused(status: int) | NoReply

  datatype Edit =
    | Replace(id: string, agentId: string)
    | Rename(id: string, name: string)
    | Drop(id: string)
    | Add(assignment: Assignment)

  // ---------------------------------------------------------------- transitions

  function Fresh(team: Snapshot): Draft {
    Draft(team.revision, team.roster, team.roster, "")
  }

  function Restored(slot: Option<Draft>, team: Snapshot): Draft {
    match slot
    case Some(d) =>
      if d.revision > 0 && |d.reason| <= 1000 && |d.base| <= 10000 && |d.roster| <= 10000 then d else Fresh(team)
    case None => Fresh(team)
  }

  function Mounted(slot: Option<Draft>, team: Snapshot): Editor {
    var draft := Restored(slot, team);
    Editor(team, draft, None, false, false, false, Idle, draft)
  }

  predicate Changed(d: Draft) {
    !SameRoster(d.base, d.roster)
  }

  predicate Editable(e: Editor) {
    e.open && e.flight.Idle? && e.merge.None?
  }

  // The parent never goes back to an older revision.
  function Newer(known: Snapshot, next: Snapshot): Snapshot {
    if next.revision >= known.revision then next else known
  }

  // A new draft or a new team revision clears the review.
  function WithDraft(e: Editor, draft: Draft): Editor {
    e.(draft := draft, reviewed := false)
  }

  function TeamChanged(e: Editor, next: Snapshot): Editor {
    var team := Newer(e.team, next);
    e.(team := team, reviewed := e.reviewed && team.revision == e.team.revision)
  }

  function Opened(e: Editor): Editor {
    if e.open then e
    else if !Changed(e.draft) && e.draft.reason == "" then WithDraft(e.(open := true), Fresh(e.team))
    else e.(open := true)
  }

  function Closed(e: Editor): Editor {
    if e.flight.Idle? then e.(open := false) else e
  }

  function EditedRoster(roster: Roster, edit: Edit): Roster {
    match edit
    case Replace(id, agentId) =>
      seq(|roster|, i requires 0 <= i < |roster| =>
        if roster[i].id == id then roster[i].(agentId := agentId, displayName := Some("")) else roster[i])
    case Rename(id, name) =>
      seq(|roster|, i requires 0 <= i < |roster| =>
        if roster[i].id == id then roster[i].(displayName := Some(name)) else roster[i])
    case Drop(id) => Without(roster, id)
    case Add(a) => roster + [a]
  }

  function Without(roster: Roster, id: string): Roster {
    if roster == [] then []
    else if roster[0].id == id then Without(roster[1..], id)
    else [roster[0]] + Without(roster[1..], id)
  }

  function RosterEdited(e: Editor, edit: Edit): Editor {
    if !Editable(e) then e else WithDraft(e, e.draft.(roster := EditedRoster(e.draft.roster, edit)))
  }

  function ReasonSet(e: Editor, reason: string): Editor {
    if !Editable(e) then e else WithDraft(e, e.draft.(reason := reason))
  }

  function Ticked(e: Editor, value: bool): Editor {
    if !Editable(e) then e else e.(reviewed := value, shown := if value then e.draft else e.shown)
  }

  function RefreshBegun(e: Editor): Editor {
    if !e.open || !e.flight.Idle? then e else e.(flight := Loading(e.draft, e.team))
  }

  function RefreshEnded(e: Editor, reply: Option<Snapshot>): Editor
    requires e.flight.Loading?
  {
    if reply.None? || reply.value.revision < e.flight.team.revision then e.(flight := Idle)
    else
      var d := e.flight.draft;
      Rebased(e.(flight := Idle), d, reply.value, Reconciled(d.base, d.roster, reply.value.roster))
  }

  // The latest team has arrived: the draft is done, or needs choices, or moves onto it.
  function Rebased(e: Editor, d: Draft, latest: Snapshot, merged: Merged): Editor {
    var next := e.(team := Newer(e.team, latest), uncertain := false, reviewed := false);
    if Changed(d) && SameRoster(latest.roster, d.roster) then next.(draft := Fresh(latest), merge := None)
    else if merged.conflicts != [] then
      next.(merge := Some(Merge(latest.revision, latest.roster, merged.roster, merged.conflicts, map[])))
    else
      next.(draft := Draft(latest.revision, latest.roster, merged.roster, d.reason), merge := None)
  }

  function Chosen(e: Editor, id: string, choice: Option<Choice>): Editor {
    if !e.open || e.merge.None? then e
    else
      var choices := e.merge.value.choices;
      e.(merge := Some(e.merge.value.(choices := if choice.Some? then choices[id := choice.value] else choices - {id})))
  }

  predicate AllChosen(m: Merge) {
    forall c :: c in m.conflicts ==> c.id in m.choices
  }

  predicate CanUseChoices(e: Editor) {
    e.open && e.flight.Idle? && e.merge.Some? && e.merge.value.revision == e.team.revision && AllChosen(e.merge.value)
  }

  function ChoicesUsed(e: Editor): Editor {
    if !CanUseChoices(e) then e
    else
      var m := e.merge.value;
      WithDraft(e.(merge := None),
        Draft(m.revision, m.base, Resolved(m.roster, m.conflicts, m.choices), e.draft.reason))
  }

  // `allowed` and `problems` come from the capabilities, roles and agents of the workspace.
  predicate CanSave(e: Editor, allowed: bool, problems: nat) {
    e.open && e.flight.Idle? && allowed && Changed(e.draft) && e.draft.revision == e.team.revision &&
    !e.uncertain && e.merge.None? && problems == 0 && e.reviewed && !Blank(e.draft.reason)
  }

  function SaveBegun(e: Editor, allowed: bool, problems: nat): Editor {
    if !CanSave(e, allowed, problems) then e else e.(flight := Saving(e.draft, e.team))
  }

  predicate Confirms(reply: SaveReply, d: Draft) {
    reply.Accepted? && reply.deployment.revision > d.revision && reply.sameVersion &&
    SameRoster(reply.deployment.roster, d.roster)
  }

  function SaveEnded(e: Editor, reply: SaveReply): Editor
    requires e.flight.Saving?
  {
    var d, idle := e.flight.draft, e.(flight := Idle, reviewed := false);
    if Confirms(reply, d) then
      idle.(team := Newer(e.team, reply.deployment), draft := Fresh(reply.deployment), open := false)
    else idle.(uncertain := !(reply.Refused? && 400 <= reply.status < 500 && reply.status != 409))
  }

  // ---------------------------------------------------------------- the component

  class RosterComponent {
    var team: Snapshot
    var draft: Draft
    var merge: Option<Merge>
    var open: bool
    var uncertain: bool
    var reviewed: bool
    var flight: Flight
    var shown: Draft

    function State(): Editor
      reads this
    {
      Editor(team, draft, merge, open, uncertain, reviewed, flight, shown)
    }

    constructor (slot: Option<Draft>, initial: Snapshot)
      ensures State() == Mounted(slot, initial)
    {
      team, draft, merge := initial, Restored(slot, initial), None;
      open, uncertain, reviewed, flight := false, false, false, Idle;
      shown := Restored(slot, initial);
    }

    // The parent passes the team as it has it; it never goes back to an older revision.
    method TeamArrives(next: Snapshot)
      modifies this
      ensures State() == TeamChanged(old(State()), next)
      ensures team.revision >= old(team).revision && (team.revision > old(team).revision ==> !reviewed)
    {
      if next.revision >= team.revision {
        reviewed := reviewed && next.revision == team.revision;
        team := next;
      }
    }

    method OpenEditor()
      modifies this
      ensures State() == Opened(old(State()))
      ensures Changed(old(draft)) || old(draft).reason != "" ==> draft == old(draft)
    {
      if !open {
        open := true;
        if !Changed(draft) && draft.reason == "" {
          draft := Draft(team.revision, team.roster, team.roster, "");
          reviewed := false;
        }
      }
    }

    method SetReason(reason: string)
      modifies this
      ensures State() == ReasonSet(old(State()), reason)
      ensures draft != old(draft) ==> !reviewed && draft == old(draft).(reason := reason)
      ensures team == old(team) && merge == old(merge) && flight == old(flight)
    {
      if open && flight.Idle? && merge.None? {
        draft := draft.(reason := reason);
        reviewed := false;
      }
    }

    method Tick(value: bool)
      modifies this
      ensures State() == Ticked(old(State()), value)
      ensures draft == old(draft) && (reviewed && !old(reviewed) ==> shown == draft)
    {
      if open && flight.Idle? && merge.None? {
        reviewed := value;
        if value {
          shown := draft;
        }
      }
    }

    method ChangeRoster(edit: Edit)
      modifies this
      ensures State() == RosterEdited(old(State()), edit)
      ensures draft != old(draft) ==> !reviewed && draft == old(draft).(roster := draft.roster)
      ensures team == old(team) && merge == old(merge) && flight == old(flight)
    {
      if open && flight.Idle? && merge.None? {
        draft := draft.(roster := EditedRoster(draft.roster, edit));
        reviewed := false;
      }
    }

    method BeginRefresh()
      modifies this
      ensures State() == RefreshBegun(old(State()))
      ensures draft == old(draft) && merge == old(merge) && reviewed == old(reviewed)
    {
      if open && flight.Idle? {
        flight := Loading(draft, team);
      }
    }

    method EndRefresh(reply: Option<Snapshot>)
      requires flight.Loading?
      modifies this
      ensures State() == RefreshEnded(old(State()), reply)
      ensures flight.Idle? && team.revision >= old(team).revision
      ensures draft != old(draft) || merge != old(merge) || team != old(team) ==> reply.Some? && !reviewed && !uncertain
    {
      var d, known := flight.draft, flight.team;
      flight := Idle;
      if reply.None? || reply.value.revision < known.revision {
        return;
      }
      var latest := reply.value;
      if latest.revision >= team.revision {
        team := latest;
      }
      uncertain, reviewed := false, false;
      if Changed(d) && SameRoster(latest.roster, d.roster) {
        draft, merge := Fresh(latest), None;
        return;
      }
      var merged := Reconcile(d.base, d.roster, latest.roster);
      if merged.conflicts != [] {
        merge := Some(Merge(latest.revision, latest.roster, merged.roster, merged.conflicts, map[]));
      } else {
        draft := Draft(latest.revision, latest.roster, merged.roster, d.reason);
        merge := None;
      }
    }

    method UseChoices()
      modifies this
      ensures State() == ChoicesUsed(old(State()))
      ensures draft != old(draft) ==>
        !reviewed && old(merge).Some? && merge.None? && AllChosen(old(merge).value) &&
        (draft.revision, draft.base, draft.reason) ==
          (old(merge).value.revision, old(merge).value.base, old(draft).reason)
    {
      if open && flight.Idle? && merge.Some? && merge.value.revision == team.revision && AllChosen(merge.value) {
        var m := merge.value;
        var roster := UseTheseChoices(m.roster, m.conflicts, m.choices);
        draft := Draft(m.revision, m.base, roster, draft.reason);
        merge, reviewed := None, false;
      }
    }

    // The request that goes out, if one does: the roster and the revision it expects to replace.
    method BeginSave(allowed: bool, problems: nat) returns (request: Option<Snapshot>)
      modifies this
      ensures State() == SaveBegun(old(State()), allowed, problems)
      ensures request == if CanSave(old(State()), allowed, problems)
                         then Some(Snapshot(old(draft).revision, old(draft).roster)) else None
    {
      request := None;
      if !open || !flight.Idle? || !allowed || !Changed(draft) || draft.revision != team.revision || uncertain ||
         merge.Some? || problems != 0 || !reviewed || Blank(draft.reason) {
        return;
      }
      flight := Saving(draft, team);
      request := Some(Snapshot(draft.revision, draft.roster));
    }

    method EndSave(reply: SaveReply)
      requires flight.Saving?
      modifies this
      ensures State() == SaveEnded(old(State()), reply)
      ensures flight.Idle? && !reviewed
      ensures !Confirms(reply, old(flight).draft) ==> draft == old(draft) && team == old(team) && open == old(open)
    {
      var d := flight.draft;
      flight, reviewed := Idle, false;
      if reply.Accepted? && reply.deployment.revision > d.revision && reply.sameVersion &&
         SameRoster(reply.deployment.roster, d.roster) {
        if reply.deployment.revision >= team.revision {
          team := reply.deployment;
        }
        draft, open := Fresh(reply.deployment), false;
      } else {
        var rejected := reply.Refused? && 400 <= reply.status < 500 && reply.status != 409;
        uncertain := !rejected;
      }
    }
  }
}
