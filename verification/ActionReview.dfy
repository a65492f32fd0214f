/**
  Reviewing an action before deciding on it (desktop/src/RunApproval.tsx): loads guarded by an
  epoch, a signature of what is shown that clears the consent when it changes, and a decision
  sent under an idempotency key that is kept for as long as nothing about it changes.
 */
module ActionReview {
  import opened Options
  import opened Text

  datatype Principal = Principal(kind: string, id: string)

  // `details` are the fields that are only displayed; a deadline that is not a date is None.
  datatype Checkpoint = Checkpoint(
    id: string, runId: string, actionCallId: string, status: string, revision: int,
    eligibleApprovers: seq<Principal>, deadline: Option<int>, details: string)

  datatype Call = Call(id: string, runId: string, approvalId: string, status: string, details: string)

  // The approval and the call on the screen. The source's signature is the JSON text of the pair,
  // which determines it.
  datatype Content = Content(approval: Checkpoint, action: Call)

  datatype Decision = Approve | Reject | RequestChanges

  datatype Fingerprint = Fingerprint(id: string, revision: int, decision: Decision, reason: string)

  datatype Pending = Pending(fingerprint: Fingerprint, key: string)

  datatype Run = Run(id: string, status: string, waitsOn: Option<string>)

  datatype Deciding = Deciding(approvalId: string, runId: string)

  // `deciding` is what the closure of the suspended `decide` holds; then `locked` is set. `ticked` is not
  // a variable of the source: it records what was on the screen when the user ticked "I reviewed
  // this action, its inputs, and its effects".
  datatype Review = Review(
    id: string, run: Run, canResolve: bool, now: int,
    content: Option<Content>, signature: Option<Content>, error: bool, loading: bool,
    choice: Option<Decision>, reason: string, reviewed: bool,
    pending: Option<Pending>, deciding: Option<Deciding>, epoch: nat, ticked: Option<Content>)

  // A load on its way, with the variables its closure holds.
  datatype Load = Load(request: nat, id: string, runId: string)

  // What a decision request carries: the path's id, the key, and the body.
  datatype Request = Request(id: string, key: string, expectedRevision: int, decisionId: string, decision: Decision,
    reason: string)

  const OPERATOR := Principal("user", "local-operator")
  const OPERATOR_ROLE := Principal("role", "operator")

  function Mounted(id: string, run: Run, canResolve: bool, now: int): Review {
    Review(id, run, canResolve, now, None, None, false, false, None, "", false, None, None, 0, None)
  }

  predicate Allowed(r: Review) {
    r.content.Some? &&
    (var c := r.content.value;
     c.approval.id == r.id && c.approval.status == "pending" && c.action.status == "waiting_for_approval" &&
     r.run.status == "waiting_for_approval" && r.run.waitsOn == Some(c.approval.id) &&
     c.approval.deadline.Some? && r.now < c.approval.deadline.value && r.canResolve &&
     (OPERATOR in c.approval.eligibleApprovers || OPERATOR_ROLE in c.approval.eligibleApprovers))
  }

  // ---------------------------------------------------------------- loading

  predicate CanLoad(r: Review) {
    r.id != "" && r.deciding.None?
  }

  function LoadBegun(r: Review): Review {
    if !CanLoad(r) then r else r.(epoch := r.epoch + 1, loading := true)
  }

  predicate Belongs(load: Load, c: Content) {
    c.approval.id == load.id && c.approval.runId == load.runId && c.action.runId == load.runId &&
    c.action.id == c.approval.actionCallId && c.action.approvalId == c.approval.id
  }

  function LoadFailed(r: Review, load: Load): Review {
    if load.request != r.epoch then r else r.(error := true, choice := None, reviewed := false, loading := false)
  }

  function LoadAnswered(r: Review, load: Load, c: Content): Review {
    if load.request != r.epoch || !Belongs(load, c) then LoadFailed(r, load)
    else
      var seen := if r.signature.Some? && r.signature != Some(c) then
        r.(choice := None, reviewed := false, pending := None) else r;
      seen.(signature := Some(c), content := Some(c), error := false, loading := false)
  }

  // The parent passes new properties. Another id abandons the loads under way and starts one.
  function PropsChanged(r: Review, id: string, run: Run, canResolve: bool): Review {
    var next := r.(id := id, run := run, canResolve := canResolve);
    if id == r.id then next else LoadBegun(next.(epoch := r.epoch + 1))
  }

  // ---------------------------------------------------------------- the form

  function TickedTo(r: Review, value: bool): Review {
    if !Allowed(r) || r.deciding.Some? || r.loading then r
    else r.(reviewed := value, ticked := if value then r.content else r.ticked)
  }

  function ChosenTo(r: Review, choice: Option<Decision>): Review {
    if !Allowed(r) then r
    else if choice.Some? then
      if r.choice.Some? || !r.reviewed || r.loading || r.error then r else r.(choice := choice)
    else if r.deciding.Some? then r else r.(choice := None)
  }

  function ReasonSet(r: Review, reason: string): Review {
    if !Allowed(r) || r.deciding.Some? then r else r.(reason := reason)
  }

  // ---------------------------------------------------------------- deciding

  predicate CanDecide(r: Review) {
    Allowed(r) && r.choice.Some? && r.deciding.None? && r.reviewed && !r.loading && !r.error &&
    (r.choice == Some(RequestChanges) ==> !Blank(r.reason))
  }

  function FingerprintOf(r: Review): Fingerprint
    requires CanDecide(r)
  {
    Fingerprint(r.content.value.approval.id, r.content.value.approval.revision, r.choice.value, Trim(r.reason))
  }

  function PendingFor(r: Review, minted: string): Pending
    requires CanDecide(r)
  {
    if r.pending.Some? && r.pending.value.fingerprint == FingerprintOf(r) then r.pending.value
    else Pending(FingerprintOf(r), minted)
  }

  function RequestFor(r: Review, minted: string): Request
    requires CanDecide(r)
  {
    var p, approval := PendingFor(r, minted), r.content.value.approval;
    Request(approval.id, p.key, approval.revision, p.key, r.choice.value, Trim(r.reason))
  }

  function DecisionBegun(r: Review, minted: string): Review {
    if !CanDecide(r) then r
    else
      r.(pending := Some(PendingFor(r, minted)), deciding := Some(Deciding(r.content.value.approval.id, r.run.id)),
        epoch := r.epoch + 1,
         loading := false, error := false)
  }

  function DecisionFailed(r: Review): Review
    requires r.deciding.Some?
  {
    r.(error := true, deciding := None)
  }

  function DecisionAnswered(r: Review, c: Content, runId: string): Review
    requires r.deciding.Some?
  {
    if c.approval.id != r.deciding.value.approvalId || runId != r.deciding.value.runId then DecisionFailed(r)
    else
      r.(signature := Some(c), content := Some(c), choice := None, reviewed := false, pending := None, deciding := None)
  }

  // ---------------------------------------------------------------- the component

  class RunApproval {
    var id: string
    var run: Run
    var canResolve: bool
    var now: int
    var content: Option<Content>
    var signature: Option<Content>
    var error: bool
    var loading: bool
    var choice: Option<Decision>
    var reason: string
    var reviewed: bool
    var pending: Option<Pending>
    var deciding: Option<Deciding>
    var epoch: nat
    var ticked: Option<Content>

    function State(): Review
      reads this
    {
      Review(id, run, canResolve, now, content, signature, error, loading, choice, reason, reviewed, pending, deciding,
        epoch, ticked)
    }

    constructor (id: string, run: Run, canResolve: bool, now: int)
      ensures State() == Mounted(id, run, canResolve, now)
    {
      this.id, this.run, this.canResolve, this.now := id, run, canResolve, now;
      content, signature, error, loading := None, None, false, false;
      choice, reason, reviewed := None, "", false;
      pending, deciding, epoch, ticked := None, None, 0, None;
    }

    method BeginLoad() returns (load: Option<Load>)
      modifies this
      ensures State() == LoadBegun(old(State()))
      ensures load.Some? ==> load.value.request == epoch > old(epoch)
      ensures load == if CanLoad(old(State())) then Some(Load(epoch, id, run.id)) else None
    {
      if id == "" || deciding.Some? {
        return None;
      }
      epoch := epoch + 1;
      loading := true;
      return Some(Load(epoch, id, run.id));
    }

    // `c` is None when either of the two requests failed.
    method EndLoad(load: Load, c: Option<Content>)
      modifies this
      ensures State() == if c.Some? then LoadAnswered(old(State()), load, c.value) else LoadFailed(old(State()), load)
      ensures load.request != old(epoch) ==> State() == old(State())
      ensures content != old(content) ==> content == c && c.Some? && Belongs(load, c.value)
      ensures signature != old(signature) && old(signature).Some? ==> choice.None? && !reviewed && pending.None?
    {
      if load.request != epoch {
        return;
      }
      loading := false;
      if c.None? || !Belongs(load, c.value) {
        error, choice, reviewed := true, None, false;
        return;
      }
      if signature.Some? && signature != c {
        choice, reviewed, pending := None, false, None;
      }
      signature, content, error := c, c, false;
    }

    method Decide(minted: string) returns (request: Option<Request>)
      modifies this
      ensures State() == DecisionBegun(old(State()), minted)
      ensures request.Some? ==>
        old(reviewed) && epoch > old(epoch) && pending.Some? && request.value.key == pending.value.key
      ensures request == if CanDecide(old(State())) then Some(RequestFor(old(State()), minted)) else None
    {
      if !Allowed(State()) || choice.None? || deciding.Some? || !reviewed || loading || error ||
         (choice == Some(RequestChanges) && Blank(reason)) {
        return None;
      }
      var approval := content.value.approval;
      var text := Trim(reason);
      var fingerprint := Fingerprint(approval.id, approval.revision, choice.value, text);
      if pending.None? || pending.value.fingerprint != fingerprint {
        pending := Some(Pending(fingerprint, minted));
      }
      deciding := Some(Deciding(approval.id, run.id));
      epoch := epoch + 1;
      loading, error := false, false;
      return Some(Request(approval.id, pending.value.key, approval.revision, pending.value.key, choice.value, text));
    }

    // `c` is None when the request failed.
    method EndDecide(c: Option<Content>, runId: string)
      requires deciding.Some?
      modifies this
      ensures State() == if c.Some? then DecisionAnswered(old(State()), c.value, runId)
        else DecisionFailed(old(State()))
    {
      var held := deciding.value;
      deciding := None;
      if c.None? || c.value.approval.id != held.approvalId || runId != held.runId {
        error := true;
        return;
      }
      signature, content := c, c;
      choice, reviewed, pending := None, false, None;
    }
  }
}
