/**
  The crash-safe outbox of the Home page (desktop/src/homeSubmission.ts and the submission
  functions of desktop/src/App.tsx).

  The device's storage keeps four entries; a value stands for its JSON text, which determines it
  and is determined by it. Any write may throw, and a throw or a crash between two writes leaves
  the earlier ones in place.
 */
module HomeOutbox {
  import opened Options
  import opened Text

  datatype Mode = AgentMode | TeamMode | WorkMode

  datatype HomeDraft = HomeDraft(prompt: string, mode: Mode, agentID: string)

  // The parts of a request that vary; scope, actor, source and catalogue are fixed.
  datatype Body = WorkBody(agentID: string, goal: string) | ProposalBody(prompt: string)

  datatype HomeRequest = HomeRequest(path: string, body: Body)

  datatype HomeSubmission = HomeSubmission(key: string, draft: HomeDraft, path: string, body: Body)

  function RequestFor(draft: HomeDraft): HomeRequest {
    match draft.mode
    case WorkMode => HomeRequest("/agent-runs", WorkBody(draft.agentID, Trim(draft.prompt)))
    case TeamMode =>
      HomeRequest("/authoring/workforce/change-sets", ProposalBody("Create one team.\n\n" + Trim(draft.prompt)))
    case AgentMode => HomeRequest("/authoring/workforce/change-sets", ProposalBody(Trim(draft.prompt)))
  }

  function NewSubmission(draft: HomeDraft, key: string): HomeSubmission {
    HomeSubmission(key, draft, RequestFor(draft).path, RequestFor(draft).body)
  }

  predicate IsHex(c: char) {
    '0' <= c <= '9' || 'a' <= c <= 'f' || 'A' <= c <= 'F'
  }

  predicate UuidShaped(key: string) {
    |key| == 36 && forall i :: 0 <= i < 36 ==> if i in {8, 13, 18, 23} then key[i] == '-' else IsHex(key[i])
  }

  // What the form lets through: the text area stops at 16000 characters, and a task names an agent.
  predicate Sendable(draft: HomeDraft) {
    !Blank(draft.prompt) && |draft.prompt| <= 16000 && (draft.mode == WorkMode ==> !Blank(draft.agentID))
  }

  predicate Acceptable(s: HomeSubmission) {
    UuidShaped(s.key) && Sendable(s.draft) && s.path == RequestFor(s.draft).path && s.body == RequestFor(s.draft).body
  }

  // ---------------------------------------------------------------- the device

  datatype Device = Device(
    submission: Option<HomeSubmission>, draft: Option<HomeDraft>, prompt: Option<string>, proposal: Option<string>)

  datatype Reading = Reading(pending: Option<HomeSubmission>, blocked: bool)

  function ReadSubmission(slot: Option<HomeSubmission>, readable: bool): Reading {
    if !readable then Reading(None, true)
    else if slot.None? then Reading(None, false)
    else if Acceptable(slot.value) then Reading(slot, false)
    else Reading(None, true)
  }

  // Each of the two entries may be unreadable on its own; without the draft there is the prompt.
  function ReadDraft(device: Device, draftReadable: bool, promptReadable: bool): HomeDraft {
    if draftReadable && device.draft.Some? then device.draft.value
    else HomeDraft(if promptReadable && device.prompt.Some? then device.prompt.value else "", AgentMode, "")
  }

  // Whether the check or the write threw is `false` in the second part.
  function Persisted(device: Device, pending: HomeSubmission, writable: bool): (Device, bool) {
    if device.submission.Some? && device.submission != Some(pending) then (device, false)
    else if !writable then (device, false)
    else (device.(submission := Some(pending)), true)
  }

  // The device after the first `writes` of the four writes that finish a request.
  function AfterWrites(device: Device, pending: HomeSubmission, proposalId: Option<string>, writes: nat): Device {
    var d1 := if writes >= 1 && proposalId.Some? then device.(proposal := proposalId) else device;
    var d2 := if writes >= 2 then d1.(draft := Some(pending.draft.(prompt := ""))) else d1;
    var d3 := if writes >= 3 then d2.(prompt := None) else d2;
    if writes >= 4 then d3.(submission := None) else d3
  }

  function Finished(device: Device, pending: HomeSubmission, proposalId: Option<string>, writes: nat): (Device, bool) {
    if device.submission != Some(pending) then (device, false)
    else (AfterWrites(device, pending, proposalId, writes), writes >= 4)
  }

  class LocalStorage {
    var submission: Option<HomeSubmission>
    var draft: Option<HomeDraft>
    var prompt: Option<string>
    var proposal: Option<string>

    function Contents(): Device
      reads this
    {
      Device(submission, draft, prompt, proposal)
    }

    method Persist(pending: HomeSubmission, writable: bool) returns (ok: bool)
      modifies this
      ensures (Contents(), ok) == Persisted(old(Contents()), pending, writable)
    {
      var previous := submission;
      if previous.Some? && previous != Some(pending) {
        return false;
      }
      if !writable {
        return false;
      }
      submission := Some(pending);
      return true;
    }

    method Finish(pending: HomeSubmission, proposalId: Option<string>, writes: nat) returns (ok: bool)
      modifies this
      ensures (Contents(), ok) == Finished(old(Contents()), pending, proposalId, writes)
    {
      if submission != Some(pending) {
        return false;
      }
      if writes < 1 {
        return false;
      }
      if proposalId.Some? {
        proposal := proposalId;
      }
      if writes < 2 {
        return false;
      }
      draft := Some(pending.draft.(prompt := ""));
      if writes < 3 {
        return false;
      }
      prompt := None;
      if writes < 4 {
        return false;
      }
      submission := None;
      return true;
    }
  }

  // ---------------------------------------------------------------- a window

  // `flight` is the submission whose response is awaited; then `submissionLock` is set.
  datatype Window = Window(
    prompt: string, mode: Mode, agentID: string, pending: Option<HomeSubmission>, blocked: bool,
    flight: Option<HomeSubmission>)

  function Opened(device: Device, readable: bool, draftReadable: bool, promptReadable: bool): Window {
    var saved := ReadSubmission(device.submission, readable);
    var d := if saved.pending.Some? then saved.pending.value.draft
      else ReadDraft(device, draftReadable, promptReadable);
    Window(d.prompt, d.mode, d.agentID, saved.pending, saved.blocked, None)
  }

  function Composed(win: Window): HomeDraft {
    HomeDraft(win.prompt, win.mode, win.agentID)
  }

  datatype Outcome = Outcome(device: Device, window: Window, sent: Option<HomeSubmission>)

  // `permitted` stands for the workspace being ready and allowing this kind of request.
  function Submitted(device: Device, win: Window, key: string, permitted: bool, writable: bool): Outcome {
    if win.flight.Some? || win.blocked || !permitted || (win.pending.None? && !Sendable(Composed(win))) then
      Outcome(device, win, None)
    else
      var pending := if win.pending.Some? then win.pending.value else NewSubmission(Composed(win), key);
      var stored := Persisted(device, pending, writable);
      if !stored.1 then Outcome(stored.0, win, None)
      else Outcome(stored.0, win.(pending := Some(pending), flight := Some(pending)), Some(pending))
  }

  datatype Record = Record(id: string, path: string, body: Body)

  predicate Matches(record: Record, pending: HomeSubmission) {
    record.id != "" && record.path == pending.path && record.body == pending.body
  }

  function ProposalOf(pending: HomeSubmission, record: Record): Option<string> {
    if pending.draft.mode == WorkMode then None else Some(record.id)
  }

  function Answered(device: Device, win: Window, record: Record, writes: nat): Outcome
    requires win.flight.Some?
  {
    var pending, unlocked := win.flight.value, win.(flight := None);
    if !Matches(record, pending) then Outcome(device, unlocked, None)
    else
      var finished := Finished(device, pending, ProposalOf(pending, record), writes);
      Outcome(finished.0, if finished.1 then unlocked.(pending := None, prompt := "") else unlocked, None)
  }

  predicate CanForget(device: Device, win: Window, writable: bool) {
    win.flight.None? && (win.pending.Some? || win.blocked) && writable &&
    (win.pending.Some? ==> device.submission == win.pending)
  }

  function Forgotten(device: Device, win: Window, writable: bool): Outcome {
    if !CanForget(device, win, writable) then Outcome(device, win, None)
    else Outcome(device.(submission := None), win.(pending := None, blocked := false), None)
  }

  function Recovered(device: Device, win: Window, readable: bool): Window {
    if !win.blocked then win
    else
      var saved := ReadSubmission(device.submission, readable);
      var next := win.(pending := saved.pending, blocked := saved.blocked);
      if saved.pending.None? then next
      else
        var d := saved.pending.value.draft;
        next.(prompt := d.prompt, mode := d.mode, agentID := d.agentID)
  }

  class HomeWindow {
    const storage: LocalStorage
    var prompt: string
    var mode: Mode
    var agentID: string
    var pending: Option<HomeSubmission>
    var blocked: bool
    var flight: Option<HomeSubmission>

    function State(): Window
      reads this
    {
      Window(prompt, mode, agentID, pending, blocked, flight)
    }

    constructor (storage: LocalStorage, readable: bool, draftReadable: bool, promptReadable: bool)
      ensures this.storage == storage && State() == Opened(storage.Contents(), readable, draftReadable, promptReadable)
    {
      var saved := ReadSubmission(storage.Contents().submission, readable);
      var d := if saved.pending.Some? then saved.pending.value.draft
        else ReadDraft(storage.Contents(), draftReadable, promptReadable);
      this.storage := storage;
      prompt, mode, agentID := d.prompt, d.mode, d.agentID;
      pending, blocked, flight := saved.pending, saved.blocked, None;
    }

    method SetPrompt(value: string)
      modifies this
      ensures State() == old(State()).(prompt := if old(pending).Some? then old(prompt) else value)
    {
      if pending.None? {
        prompt := value;
      }
    }

    method Submit(key: string, permitted: bool, writable: bool) returns (sent: Option<HomeSubmission>)
      modifies this, storage
      ensures Outcome(storage.Contents(), State(), sent)
           == Submitted(old(storage.Contents()), old(State()), key, permitted, writable)
      ensures sent.Some? ==>
        storage.submission == sent && pending == sent && (old(pending).Some? ==> sent == old(pending))
      ensures sent.None? ==> storage.Contents() == old(storage.Contents()) && State() == old(State())
    {
      sent := None;
      if flight.Some? || blocked || !permitted {
        return;
      }
      var saved := pending;
      if saved.None? && !Sendable(HomeDraft(prompt, mode, agentID)) {
        return;
      }
      var next := if saved.Some? then saved.value else NewSubmission(HomeDraft(prompt, mode, agentID), key);
      var ok := storage.Persist(next, writable);
      if !ok {
        return;
      }
      pending := Some(next);
      flight := Some(next);
      sent := Some(next);
    }

    method Answer(record: Record, writes: nat)
      requires flight.Some?
      modifies this, storage
      ensures Outcome(storage.Contents(), State(), None)
           == Answered(old(storage.Contents()), old(State()), record, writes)
      ensures pending.None? && old(pending) == old(flight) ==>
        Matches(record, old(flight).value) && storage.submission.None? && prompt == ""
      ensures !Matches(record, old(flight).value) ==>
        storage.Contents() == old(storage.Contents()) && pending == old(pending)
    {
      var sent := flight.value;
      flight := None;
      if !Matches(record, sent) {
        return;
      }
      var ok := storage.Finish(sent, ProposalOf(sent, record), writes);
      if ok {
        pending := None;
        prompt := "";
      }
    }

    method ForgetSavedRequest(writable: bool)
      modifies this, storage
      ensures Outcome(storage.Contents(), State(), None) == Forgotten(old(storage.Contents()), old(State()), writable)
      ensures old(pending).Some? && old(storage.submission) != old(pending) ==>
        storage.Contents() == old(storage.Contents())
      ensures prompt == old(prompt) && storage.draft == old(storage.draft) && storage.prompt == old(storage.prompt)
    {
      if flight.Some? || (pending.None? && !blocked) {
        return;
      }
      if pending.Some? && storage.submission != pending {
        return;
      }
      if !writable {
        return;
      }
      storage.submission := None;
      pending, blocked := None, false;
    }

    method RetryRecovery(readable: bool)
      modifies this
      ensures State() == Recovered(old(storage.Contents()), old(State()), readable)
    {
      if !blocked {
        return;
      }
      var saved := ReadSubmission(storage.submission, readable);
      pending, blocked := saved.pending, saved.blocked;
      if saved.pending.Some? {
        prompt := saved.pending.value.draft.prompt;
        mode := saved.pending.value.draft.mode;
        agentID := saved.pending.value.draft.agentID;
      }
    }
  }

  // ---------------------------------------------------------------- results about one step

  // A request that was sent is read back unchanged, however often it is stored and reopened.
  lemma SentIsReadBack(device: Device, win: Window, key: string, permitted: bool, writable: bool)
    requires UuidShaped(key) && (win.pending.Some? ==> Acceptable(win.pending.value))
    ensures var out := Submitted(device, win, key, permitted, writable);
      out.sent.Some? ==> ReadSubmission(out.device.submission, true) == Reading(out.sent, false)
  {
  }

  // Whatever is stored, what a window takes up from it has the path and body its draft stands
  // for, so two readings of one draft can only differ in the key.
  lemma ReadingIsDetermined(a: Option<HomeSubmission>, b: Option<HomeSubmission>)
    requires ReadSubmission(a, true).pending.Some? && ReadSubmission(b, true).pending.Some?
    ensures a.value.draft == b.value.draft ==> a.value == b.value.(key := a.value.key)
  {
  }

  // The finish step may stop after any number of its writes. Reopening then finds the same
  // pending request with its original text, unless all four happened; then it finds nothing
  // pending, an empty text, and for a proposal its id saved. There is no third case.
  lemma FinishIsCrashSafe(device: Device, pending: HomeSubmission, record: Record, writes: nat, draftReadable: bool,
                         promptReadable: bool)
    requires device.submission == Some(pending) && Acceptable(pending)
    ensures var after := Finished(device, pending, ProposalOf(pending, record), writes).0;
      var reopened := Opened(after, true, draftReadable, promptReadable);
      if writes < 4 then
        reopened.pending == Some(pending) && Composed(reopened) == pending.draft && !reopened.blocked
      else
        reopened.pending.None? && !reopened.blocked && reopened.prompt == "" &&
        (pending.draft.mode != WorkMode ==> after.proposal == Some(record.id))
  {
  }
}
