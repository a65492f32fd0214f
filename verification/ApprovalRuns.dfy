/**
  Runs of a proposed change under review: evaluations, decisions and amendments in any order, by
  anyone, with the rules the change-set service applies to them (pkg/authoring/changeset.go).
 */
module ApprovalRuns {
  import opened Options
  import opened Text
  import opened Approvals

  datatype Submission = Submission(
    expectedRevision: int, key: string, digest: string, allowed: bool, findings: string, requirements: seq<Requirement>,
      actor: Actor)

  datatype Error =
    | Incomplete | KeyConflict | Stale | WrongStatus | NotActive
    | NotRequired | AlreadyDecided | Incompatible | BadRequirements

  datatype Outcome = Recorded(next: ChangeSet) | Replayed | Refused(error: Error)

  // ---------------------------------------------------------------- submitting an evaluation

  function TrimmedRequirement(q: Requirement): Requirement {
    q.(policyId := GoTrim(q.policyId), role := GoTrim(q.role), separationGroup := GoTrim(q.separationGroup))
  }

  function TrimmedRequirements(requirements: seq<Requirement>): seq<Requirement> {
    seq(|requirements|, i requires 0 <= i < |requirements| => TrimmedRequirement(requirements[i]))
  }

  predicate SoundRequirements(requirements: seq<Requirement>) {
    (forall q :: q in requirements ==> q.policyId != "" && q.role != "" && q.count >= 1) &&
      UniqueRequirements(requirements)
  }

  function WithKey(evaluations: seq<Evaluation>, key: string): Option<Evaluation> {
    if evaluations == [] then None
    else if evaluations[0].key == key then Some(evaluations[0])
    else WithKey(evaluations[1..], key)
  }

  // `minted` is the generated id; `ready` says whether the readiness checks find nothing.
  function Submit(c: ChangeSet, s: Submission, minted: string, ready: bool): Outcome {
    var key, digest := GoTrim(s.key), GoTrim(s.digest);
    var known := WithKey(c.evaluations, key);
    var requirements := TrimmedRequirements(s.requirements);
    if s.expectedRevision < 1 || digest == "" || key == "" || GoBlank(s.actor.kind) || GoBlank(s.actor.id) then
      Refused(Incomplete)
    else if known.Some? then
      (if (known.value.digest, known.value.allowed, known.value.findings, known.value.requirements,
        known.value.actor) ==
          (digest, s.allowed, s.findings, s.requirements, s.actor) then Replayed else Refused(KeyConflict))
    else if c.revision != s.expectedRevision || c.digest != digest then Refused(Stale)
    else if c.status != "review" && c.status != "evaluating" then Refused(WrongStatus)
    else if !SoundRequirements(requirements) || (!s.allowed && requirements != []) then Refused(BadRequirements)
    else
      var status :=
        if !s.allowed then "rejected"
        else if requirements != [] then AWAITING
        else if ready then "ready"
        else "blocked";
      Recorded(c.(evaluations := c.evaluations +
        [Evaluation(minted, key, digest, s.allowed, s.findings, requirements, s.actor)],
                  status := status, revision := c.revision + 1))
  }

  // ---------------------------------------------------------------- deciding

  function Trimmed(q: Request): Request {
    q.(evaluationId := GoTrim(q.evaluationId), policyId := GoTrim(q.policyId), role := GoTrim(q.role),
       reason := GoTrim(q.reason), key := GoTrim(q.key))
  }

  function TrimmedActor(a: Actor): Actor {
    Actor(GoTrim(a.kind), GoTrim(a.id))
  }

  function DecisionWithKey(decisions: seq<Decision>, key: string): Option<Decision> {
    if decisions == [] then None
    else if decisions[0].key == key then Some(decisions[0])
    else DecisionWithKey(decisions[1..], key)
  }

  function FirstRequired(requirements: seq<Requirement>, policyId: string, role: string): Option<Requirement> {
    if requirements == [] then None
    else if requirements[0].policyId == policyId && requirements[0].role == role then Some(requirements[0])
    else FirstRequired(requirements[1..], policyId, role)
  }

  // One principal may not approve two requirements of one separation group.
  predicate Separated(c: ChangeSet, e: Evaluation, actor: Actor, group: string) {
    group != "" &&
    exists d, q :: d in c.decisions && q in e.requirements && d.approved && d.actor == actor &&
      q.separationGroup == group &&
                   IsOn(d, Reference(e.id, q.policyId, q.role))
  }

  function Approvers(decisions: seq<Decision>, evaluationId: string, q: Requirement): nat {
    if decisions == [] then 0
    else
      Approvers(decisions[1..], evaluationId, q) +
      (if decisions[0].approved && IsOn(decisions[0], Reference(evaluationId, q.policyId, q.role)) then 1 else 0)
  }

  predicate Satisfied(e: Evaluation, decisions: seq<Decision>) {
    e.requirements != [] && forall q :: q in e.requirements ==> Approvers(decisions, e.id, q) >= q.count
  }

  function DecisionOf(q: Request, actor: Actor): Decision {
    Decision(q.key, q.evaluationId, q.policyId, q.role, q.approved, q.reason, actor)
  }

  // `q` and `actor` trimmed.
  function ResolveTrimmed(c: ChangeSet, q: Request, actor: Actor, ready: bool): Outcome {
    var known := DecisionWithKey(c.decisions, q.key);
    if q.expectedRevision < 1 || q.evaluationId == "" || q.policyId == "" || q.role == "" || q.key == "" ||
       actor.kind == "" || actor.id == "" then Refused(Incomplete)
    else if known.Some? then (if known.value == DecisionOf(q, actor) then Replayed else Refused(KeyConflict))
    else if c.revision != q.expectedRevision then Refused(Stale)
    else if c.status != AWAITING then Refused(WrongStatus)
    else if c.evaluations == [] then Refused(NotActive)
    else
      var e := c.evaluations[|c.evaluations| - 1];
      if e.id != q.evaluationId || !e.allowed then Refused(NotActive)
      else if FirstRequired(e.requirements, q.policyId, q.role).None? then Refused(NotRequired)
      else if Decided(c.decisions, actor, ReferenceOf(q)) then Refused(AlreadyDecided)
      else if q.approved &&
        Separated(c, e, actor, FirstRequired(e.requirements, q.policyId, q.role).value.separationGroup) then
        Refused(Incompatible)
      else
        var decisions := c.decisions + [DecisionOf(q, actor)];
        var status :=
          if !q.approved then "rejected"
          else if !Satisfied(e, decisions) then AWAITING
          else if ready then "ready"
          else "blocked";
        Recorded(c.(decisions := decisions, status := status, revision := c.revision + 1))
  }

  function Resolve(c: ChangeSet, q: Request, actor: Actor, ready: bool): Outcome {
    ResolveTrimmed(c, Trimmed(q), TrimmedActor(actor), ready)
  }

  // ---------------------------------------------------------------- runs

  // Every other operation may change the candidate and puts the change in a status of its own.
  datatype Step = Evaluate(submission: Submission, minted: string, ready: bool) |
                  Decide(request: Request, actor: Actor, ready: bool) |
                  Amend(digest: string, status: string)

  predicate Fresh(evaluations: seq<Evaluation>, id: string) {
    id != "" && GoTrim(id) == id && forall e :: e in evaluations ==> e.id != id
  }

  function After(c: ChangeSet, outcome: Outcome): ChangeSet {
    if outcome.Recorded? then outcome.next else c
  }

  function Next(c: ChangeSet, step: Step): ChangeSet {
    match step
    case Evaluate(s, minted, ready) => if Fresh(c.evaluations, minted) then After(c, Submit(c, s, minted, ready)) else c
    case Decide(q, actor, ready) => After(c, Resolve(c, q, actor, ready))
    case Amend(digest, status) => if status == AWAITING then c
      else c.(digest := digest, status := status, revision := c.revision + 1)
  }

  function Run(c: ChangeSet, steps: seq<Step>): ChangeSet {
    if steps == [] then c else Next(Run(c, steps[..|steps| - 1]), steps[|steps| - 1])
  }

  predicate Start(c: ChangeSet) {
    c.evaluations == [] && c.decisions == [] && c.status != AWAITING && c.revision >= 1
  }

  // ---------------------------------------------------------------- the invariant

  predicate SoundEvaluations(evaluations: seq<Evaluation>) {
    (forall i, j :: 0 <= i < j < |evaluations| ==> evaluations[i].id != evaluations[j].id) &&
    (forall i :: 0 <= i < |evaluations| ==> SoundEvaluation(evaluations[i]))
  }

  predicate SoundEvaluation(e: Evaluation) {
    e.id != "" && GoTrim(e.id) == e.id && SoundRequirements(e.requirements) &&
    forall q :: q in e.requirements ==> GoTrim(q.policyId) == q.policyId && GoTrim(q.role) == q.role
  }

  predicate SoundDecisions(decisions: seq<Decision>) {
    forall i, j :: 0 <= i < j < |decisions| ==>
      decisions[i].key != decisions[j].key &&
      !(decisions[i].actor == decisions[j].actor && IsOn(decisions[j], OnOf(decisions[i])))
  }

  function OnOf(d: Decision): Reference {
    Reference(d.evaluationId, d.policyId, d.role)
  }

  predicate DecisionsOn(decisions: seq<Decision>, evaluations: seq<Evaluation>) {
    forall d :: d in decisions ==> exists e :: e in evaluations && e.id == d.evaluationId
  }

  // Awaiting approval means that of the newest evaluation, which is of the candidate as it is.
  predicate AwaitsNewest(c: ChangeSet) {
    c.status == AWAITING ==>
      c.evaluations != [] &&
      (var e := c.evaluations[|c.evaluations| - 1]; e.allowed && e.requirements != [] && e.digest == c.digest)
  }

  predicate Inv(c: ChangeSet) {
    SoundEvaluations(c.evaluations) && SoundDecisions(c.decisions) && DecisionsOn(c.decisions, c.evaluations) &&
    AwaitsNewest(c) && c.revision >= 1
  }

  lemma {:induction false} NoneWithKey(decisions: seq<Decision>, key: string)
    ensures DecisionWithKey(decisions, key).None? ==> forall d :: d in decisions ==> d.key != key
    ensures var d := DecisionWithKey(decisions, key); d.Some? ==> d.value in decisions && d.value.key == key
  {
    if decisions != [] && decisions[0].key != key {
      NoneWithKey(decisions[1..], key);
    }
  }

  lemma TrimmedRequirementsAreTrimmed(requirements: seq<Requirement>)
    ensures forall q :: q in TrimmedRequirements(requirements) ==>
      GoTrim(q.policyId) == q.policyId && GoTrim(q.role) == q.role
  {
    forall i | 0 <= i < |requirements|
      ensures GoTrim(TrimmedRequirement(requirements[i]).policyId) == TrimmedRequirement(requirements[i]).policyId
      ensures GoTrim(TrimmedRequirement(requirements[i]).role) == TrimmedRequirement(requirements[i]).role
    {
      GoTrimIsIdempotent(requirements[i].policyId);
      GoTrimIsIdempotent(requirements[i].role);
    }
  }

  // What recording an evaluation needs and does.
  predicate Submits(c: ChangeSet, next: ChangeSet, e: Evaluation) {
    SoundRequirements(e.requirements) && e.digest == c.digest &&
    next == c.(evaluations := c.evaluations + [e], status := next.status, revision := c.revision + 1) &&
    (next.status == AWAITING ==> e.allowed && e.requirements != [])
  }

  lemma SubmittedEvaluation(c: ChangeSet, s: Submission, minted: string, ready: bool)
    requires Submit(c, s, minted, ready).Recorded?
    ensures var next := Submit(c, s, minted, ready).next;
      next.evaluations != [] &&
      (var e := next.evaluations[|next.evaluations| - 1];
       Submits(c, next, e) && e.id == minted && e.requirements == TrimmedRequirements(s.requirements))
  {
  }

  lemma SubmitsKeepsEvaluations(evaluations: seq<Evaluation>, e: Evaluation)
    requires SoundEvaluations(evaluations) && SoundEvaluation(e) && Fresh(evaluations, e.id)
    ensures SoundEvaluations(evaluations + [e])
  {
  }

  lemma SubmitsKeepsInv(c: ChangeSet, next: ChangeSet, e: Evaluation)
    requires Inv(c) && Submits(c, next, e) && SoundEvaluation(e) && Fresh(c.evaluations, e.id)
    ensures Inv(next)
  {
    SubmitsKeepsEvaluations(c.evaluations, e);
    forall d | d in next.decisions ensures exists f :: f in next.evaluations && f.id == d.evaluationId {
      var f :| f in c.evaluations && f.id == d.evaluationId;
      assert f in next.evaluations;
    }
  }

  lemma SubmitKeepsInv(c: ChangeSet, s: Submission, minted: string, ready: bool)
    requires Inv(c) && Fresh(c.evaluations, minted)
    ensures Inv(After(c, Submit(c, s, minted, ready)))
  {
    if Submit(c, s, minted, ready).Recorded? {
      var next := Submit(c, s, minted, ready).next;
      SubmittedEvaluation(c, s, minted, ready);
      TrimmedRequirementsAreTrimmed(s.requirements);
      SubmitsKeepsInv(c, next, next.evaluations[|next.evaluations| - 1]);
    }
  }

  // What recording a decision needs and does.
  predicate Records(c: ChangeSet, next: ChangeSet, d: Decision) {
    c.status == AWAITING && c.evaluations != [] && c.evaluations[|c.evaluations| - 1].id == d.evaluationId &&
    DecisionWithKey(c.decisions, d.key).None? && !Decided(c.decisions, d.actor, OnOf(d)) &&
    next == c.(decisions := c.decisions + [d], status := next.status, revision := c.revision + 1)
  }

  lemma RecordedDecision(c: ChangeSet, q: Request, actor: Actor, ready: bool)
    requires ResolveTrimmed(c, q, actor, ready).Recorded?
    ensures Records(c, ResolveTrimmed(c, q, actor, ready).next, DecisionOf(q, actor))
  {
  }

  lemma RecordsKeepsInv(c: ChangeSet, next: ChangeSet, d: Decision)
    requires Inv(c) && Records(c, next, d)
    ensures Inv(next)
  {
    NoneWithKey(c.decisions, d.key);
    RecordsKeepsDecisions(c.decisions, d);
    assert c.evaluations[|c.evaluations| - 1] in c.evaluations;
  }

  lemma RecordsKeepsDecisions(decisions: seq<Decision>, d: Decision)
    requires SoundDecisions(decisions) && !Decided(decisions, d.actor, OnOf(d))
    requires forall e :: e in decisions ==> e.key != d.key
    ensures SoundDecisions(decisions + [d])
  {
  }

  lemma ResolveKeepsInv(c: ChangeSet, q: Request, actor: Actor, ready: bool)
    requires Inv(c)
    ensures Inv(After(c, ResolveTrimmed(c, q, actor, ready)))
  {
    if ResolveTrimmed(c, q, actor, ready).Recorded? {
      RecordedDecision(c, q, actor, ready);
      RecordsKeepsInv(c, ResolveTrimmed(c, q, actor, ready).next, DecisionOf(q, actor));
    }
  }

  lemma {:induction false} RunKeepsInv(c: ChangeSet, steps: seq<Step>)
    requires Inv(c)
    ensures Inv(Run(c, steps))
  {
    if steps != [] {
      var front, last := Run(c, steps[..|steps| - 1]), steps[|steps| - 1];
      RunKeepsInv(c, steps[..|steps| - 1]);
      match last
      case Evaluate(s, minted, ready) =>
        if Fresh(front.evaluations, minted) { SubmitKeepsInv(front, s, minted, ready); }
      case Decide(q, actor, ready) => ResolveKeepsInv(front, Trimmed(q), TrimmedActor(actor), ready);
      case Amend(_, _) =>
    }
  }

  // ---------------------------------------------------------------- deciding once

  // However often, by whomever and in whatever order decisions are sent, an actor has at most one
  // on each requirement of an evaluation.
  lemma OneDecisionPerActor(c: ChangeSet, steps: seq<Step>, i: int, j: int)
    requires Start(c) && 0 <= i < j < |Run(c, steps).decisions|
    ensures var a, b := Run(c, steps).decisions[i], Run(c, steps).decisions[j];
      a.key != b.key && (a.actor, a.evaluationId, a.policyId, a.role) != (b.actor, b.evaluationId, b.policyId, b.role)
  {
    RunKeepsInv(c, steps);
  }

  lemma DecisionIsFound(decisions: seq<Decision>, d: Decision)
    requires SoundDecisions(decisions) && d in decisions
    ensures DecisionWithKey(decisions, d.key) == Some(d)
  {
    NoneWithKey(decisions, d.key);
  }

  lemma {:induction false} DecisionsStay(c: ChangeSet, steps: seq<Step>)
    ensures c.decisions <= Run(c, steps).decisions && c.evaluations <= Run(c, steps).evaluations
  {
    if steps != [] {
      DecisionsStay(c, steps[..|steps| - 1]);
      StepOnlyAdds(Run(c, steps[..|steps| - 1]), steps[|steps| - 1]);
    }
  }

  lemma StepOnlyAdds(c: ChangeSet, step: Step)
    ensures c.decisions <= Next(c, step).decisions && c.evaluations <= Next(c, step).evaluations
  {
    if step.Decide? && Next(c, step) != c {
      RecordedDecision(c, Trimmed(step.request), TrimmedActor(step.actor), step.ready);
    }
  }

  // Once a decision is recorded, whatever happens next the same request is answered with the change
  // as it is by then and records nothing, and it is let through for as long as the authorizer still
  // names its requirement.
  lemma RepeatIsReplayed(c: ChangeSet, q: Request, actor: Actor, ready: bool, steps: seq<Step>,
      authorized: seq<Reference>, again: bool)
    requires Inv(c) && Resolve(c, q, actor, ready).Recorded?
    requires TrimmedActor(actor) == actor && Trimmed(q) == q && ReferenceOf(q) in authorized
    ensures var later := Run(Resolve(c, q, actor, ready).next, steps);
      MayDecide(later, authorized, actor, q) && Resolve(later, q, actor, again) == Replayed
  {
    var recorded := Resolve(c, q, actor, ready).next;
    ResolveKeepsInv(c, q, actor, ready);
    RunKeepsInv(recorded, steps);
    DecisionsStay(recorded, steps);
    var d := recorded.decisions[|recorded.decisions| - 1];
    assert Run(recorded, steps).decisions[|recorded.decisions| - 1] == d;
    DecisionIsFound(Run(recorded, steps).decisions, d);
  }

  // ---------------------------------------------------------------- offered means accepted

  lemma ActiveIsNewest(c: ChangeSet)
    requires Inv(c) && c.status == AWAITING
    ensures c.evaluations != [] && Active(c.evaluations) == Some(c.evaluations[|c.evaluations| - 1])
  {
  }

  // In every run, what an actor is offered is exactly what is authorised, required by the newest
  // evaluation and not decided yet, each once: the keys cannot collide on submitted evaluations.
  lemma OfferIsExact(c: ChangeSet, steps: seq<Step>, authorized: seq<Reference>, actor: Actor, r: Reference)
    requires Start(c) && Run(c, steps).status == AWAITING
    ensures var now := Run(c, steps);
      now.evaluations != [] &&
      (r in Offered(Some(now), authorized, actor) <==>
       r in authorized && Open(now.evaluations[|now.evaluations| - 1], now.decisions, actor, r))
  {
    RunKeepsInv(c, steps);
    var now := Run(c, steps);
    ActiveIsNewest(now);
    OfferIsExactIff(now, authorized, actor);
    var e := now.evaluations[|now.evaluations| - 1];
    assert SoundEvaluation(e);
    UniqueRequirementsTellApart(authorized, e, now.decisions, actor);
  }

  // So what the owner is offered on the desktop is one thing at most: the owner requirement of the
  // newest evaluation, if that is the local policy's of the current candidate, until decided.
  lemma DesktopOffer(c: ChangeSet, steps: seq<Step>)
    requires Start(c) && Run(c, steps).status == AWAITING
    ensures var now := Run(c, steps);
      now.evaluations != [] &&
      (var e := now.evaluations[|now.evaluations| - 1];
       var ref := Reference(e.id, INSTALL_POLICY, OWNER_ROLE);
       Offered(Some(now), DesktopReferences(now.evaluations, now.digest), OWNER) ==
       if IsCurrentLocal(e, now.digest) && OwnerAmong(e.requirements) && !Decided(now.decisions, OWNER, ref) then [ref]
       else [])
  {
    RunKeepsInv(c, steps);
    var now := Run(c, steps);
    ActiveIsNewest(now);
    var e := now.evaluations[|now.evaluations| - 1];
    var ref := Reference(e.id, INSTALL_POLICY, OWNER_ROLE);
    var authorized := DesktopReferences(now.evaluations, now.digest);
    var offered := Offered(Some(now), authorized, OWNER);
    forall r ensures r in offered <==>
      r == ref && DesktopLists(now.evaluations, now.digest, ref) && Open(e, now.decisions, OWNER, ref) {
      OfferIsExact(c, steps, authorized, OWNER, r);
      DesktopReferencesAre(now.evaluations, now.digest, r);
    }
    ListedIsNewest(now.evaluations, now.digest, e);
    OfferIsExactIff(now, authorized, OWNER);
    OneOrNone(offered, ref);
  }

  lemma ListedIsNewest(evaluations: seq<Evaluation>, digest: string, e: Evaluation)
    requires SoundEvaluations(evaluations) && e in evaluations
    ensures DesktopLists(evaluations, digest, Reference(e.id, INSTALL_POLICY, OWNER_ROLE)) <==>
      IsCurrentLocal(e, digest) && OwnerAmong(e.requirements)
    ensures OwnerAmong(e.requirements) ==> Requires(e, Reference(e.id, INSTALL_POLICY, OWNER_ROLE))
  {
    forall f | f in evaluations && f.id == e.id ensures f == e {
      var i :| 0 <= i < |evaluations| && evaluations[i] == e;
      var j :| 0 <= j < |evaluations| && evaluations[j] == f;
      assert i == j;
    }
  }

  lemma Differ(offered: seq<Reference>, i: int, j: int)
    requires forall i, j :: 0 <= i < j < |offered| ==> offered[i] != offered[j]
    requires 0 <= i < j < |offered|
    ensures offered[i] != offered[j]
  {
  }

  lemma OneOrNone(offered: seq<Reference>, ref: Reference)
    requires forall r :: r in offered ==> r == ref
    requires forall i, j :: 0 <= i < j < |offered| ==> offered[i] != offered[j]
    ensures offered == if ref in offered then [ref] else []
  {
    forall i | 0 <= i < |offered| ensures offered[i] == ref {
      assert offered[i] in offered;
    }
    if |offered| >= 2 {
      Differ(offered, 0, 1);
    } else if |offered| == 1 {
      assert offered == [offered[0]];
    }
  }

  // On the desktop that is not for as long as one might think. A request that the owner was offered
  // and that was recorded, repeated any time later: it is let through exactly when the candidate is
  // still, or again, the one that was decided on.
  lemma DesktopRepeatIff(c: ChangeSet, q: Request, ready: bool, steps: seq<Step>)
    requires Inv(c) && Resolve(c, q, OWNER, ready).Recorded? && Trimmed(q) == q
    requires MayDecide(c, DesktopReferences(c.evaluations, c.digest), OWNER, q)
    ensures var later := Run(Resolve(c, q, OWNER, ready).next, steps);
      MayDecide(later, DesktopReferences(later.evaluations, later.digest), OWNER, q) <==> later.digest == c.digest
  {
    OwnerIsTrimmed();
    var recorded := Resolve(c, q, OWNER, ready).next;
    var later := Run(recorded, steps);
    RecordedDecision(c, q, OWNER, ready);
    ResolveKeepsInv(c, q, OWNER, ready);
    RunKeepsInv(recorded, steps);
    DecisionsStay(recorded, steps);
    OfferedIsLocal(c, q);
    var d := DecisionOf(q, OWNER);
    assert recorded.decisions[|recorded.decisions| - 1] == d && d in later.decisions;
    var n := |c.evaluations| - 1;
    assert later.evaluations[n] == c.evaluations[n];
    DecidedIsNotOffered(later, DesktopReferences(later.evaluations, later.digest), q, d);
    DesktopReferencesAre(later.evaluations, later.digest, ReferenceOf(q));
    ListedIsNewest(later.evaluations, later.digest, later.evaluations[n]);
  }

  lemma Untrimmed(s: string)
    requires s != "" && !IsGoSpace(s[0]) && !IsGoSpace(s[|s| - 1])
    ensures GoTrim(s) == s
  {
  }

  lemma OwnerIsTrimmed()
    ensures TrimmedActor(OWNER) == OWNER
  {
    Untrimmed(OWNER.kind);
    Untrimmed(OWNER.id);
  }

  lemma OwnerReviewIsTrimmed()
    ensures TrimmedRequirements(OWNER_REVIEW.requirements) == OWNER_REVIEW.requirements
    ensures SoundRequirements(OWNER_REVIEW.requirements) && OwnerAmong(OWNER_REVIEW.requirements)
    ensures GoTrim(INSTALL_POLICY) == INSTALL_POLICY && GoTrim(OWNER_ROLE) == OWNER_ROLE
  {
    Untrimmed(INSTALL_POLICY);
    Untrimmed(OWNER_ROLE);
    assert GoTrim("") == "";
    assert OWNER_REVIEW.requirements[0] in OWNER_REVIEW.requirements;
  }

  // What the desktop's evaluation of a change under review says, and what approving it says.
  predicate IsLocalSubmission(c: ChangeSet, s: Submission) {
    c.status == "review" && s.expectedRevision == c.revision && s.digest == c.digest &&
    s.allowed == OWNER_REVIEW.allowed && s.requirements == OWNER_REVIEW.requirements && s.actor == LOCAL_POLICY &&
    GoTrim(s.digest) == s.digest != "" && GoTrim(s.key) == s.key != ""
  }

  predicate IsOwnerApproval(c: ChangeSet, id: string, q: Request) {
    q.expectedRevision == c.revision && ReferenceOf(q) == Reference(id, INSTALL_POLICY, OWNER_ROLE) && q.approved &&
    Trimmed(q) == q && q.key != ""
  }

  lemma SubmissionIsRecorded(c: ChangeSet, s: Submission, id: string, ready: bool)
    requires Start(c) && c.status == "review" && s.expectedRevision == c.revision && s.digest == c.digest && s.allowed
    requires GoTrim(s.digest) == s.digest != "" && GoTrim(s.key) == s.key != ""
    requires !GoBlank(s.actor.kind) && !GoBlank(s.actor.id)
    requires TrimmedRequirements(s.requirements) == s.requirements
    requires SoundRequirements(s.requirements) && s.requirements != []
    ensures Submit(c, s, id, ready) == Recorded(c.(
      evaluations := [Evaluation(id, s.key, s.digest, true, s.findings, s.requirements, s.actor)],
      status := AWAITING, revision := c.revision + 1))
  {
  }

  lemma LocalPolicyIsNotBlank()
    ensures !GoBlank(LOCAL_POLICY.kind) && !GoBlank(LOCAL_POLICY.id)
  {
    assert LOCAL_POLICY.kind[0] in LOCAL_POLICY.kind && LOCAL_POLICY.id[0] in LOCAL_POLICY.id;
  }

  // So it happens, from the start: the local policy evaluates, the owner approves, the response is
  // lost, the candidate is renamed, and the repeat that should recover the response is turned away.
  lemma DesktopRepeatIsTurnedAway(c: ChangeSet, s: Submission, id: string, q: Request, digest: string, ready: bool)
    requires Start(c) && IsLocalSubmission(c, s) && Fresh(c.evaluations, id) && digest != c.digest
    requires IsOwnerApproval(Next(c, Step.Evaluate(s, id, ready)), id, q)
    ensures IsTurnedAway(Next(c, Step.Evaluate(s, id, ready)), q, digest, ready)
  {
    OwnerReviewIsTrimmed();
    LocalPolicyIsNotBlank();
    SubmissionIsRecorded(c, s, id, ready);
    SubmitKeepsInv(c, s, id, ready);
    TurnedAway(Submit(c, s, id, ready).next, q, digest, ready);
  }

  // The request is offered and recorded; after a renaming it would be confirmed, but is not let through.
  predicate IsTurnedAway(evaluated: ChangeSet, q: Request, digest: string, ready: bool) {
    MayDecide(evaluated, DesktopReferences(evaluated.evaluations, evaluated.digest), OWNER, q) &&
    Resolve(evaluated, q, OWNER, ready).Recorded? &&
    (var renamed := Run(Resolve(evaluated, q, OWNER, ready).next, [Amend(digest, "review")]);
     Resolve(renamed, q, OWNER, ready) == Replayed &&
     !MayDecide(renamed, DesktopReferences(renamed.evaluations, renamed.digest), OWNER, q))
  }

  lemma TurnedAway(c: ChangeSet, q: Request, digest: string, ready: bool)
    requires Inv(c) && c.status == AWAITING && |c.evaluations| == 1 && c.decisions == [] && digest != c.digest
    requires IsCurrentLocal(c.evaluations[0], c.digest) && c.evaluations[0].requirements == OWNER_REVIEW.requirements
    requires IsOwnerApproval(c, c.evaluations[0].id, q)
    ensures IsTurnedAway(c, q, digest, ready)
  {
    OwnerApprovalIsRecorded(c, q, ready);
    AmendsOnce(Resolve(c, q, OWNER, ready).next, digest);
    OwnerIsTrimmed();
    DesktopRepeatIff(c, q, ready, [Amend(digest, "review")]);
    RepeatIsReplayed(c, q, OWNER, ready, [Amend(digest, "review")], [ReferenceOf(q)], ready);
  }

  lemma AmendsOnce(c: ChangeSet, digest: string)
    ensures Run(c, [Amend(digest, "review")]).digest == digest
  {
    assert [Amend(digest, "review")][..0] == [];
    assert Run(c, []) == c;
  }

  lemma OwnerApprovalIsRecorded(c: ChangeSet, q: Request, ready: bool)
    requires Inv(c) && c.status == AWAITING && |c.evaluations| == 1 && c.decisions == []
    requires IsCurrentLocal(c.evaluations[0], c.digest) && c.evaluations[0].requirements == OWNER_REVIEW.requirements
    requires IsOwnerApproval(c, c.evaluations[0].id, q)
    ensures MayDecide(c, DesktopReferences(c.evaluations, c.digest), OWNER, q)
    ensures Resolve(c, q, OWNER, ready).Recorded? && Resolve(c, q, OWNER, ready).next.digest == c.digest
  {
    OwnerReviewIsTrimmed();
    OwnerIsTrimmed();
    OfferedWhileOpen(c, c.evaluations[0], q);
    OfferIsAccepted(c, DesktopReferences(c.evaluations, c.digest), OWNER, q, ready);
    RecordedDecision(c, q, OWNER, ready);
  }

  lemma OfferedWhileOpen(c: ChangeSet, e: Evaluation, q: Request)
    requires Inv(c) && c.status == AWAITING && c.evaluations == [e] && c.decisions == [] && IsCurrentLocal(e, c.digest)
    requires OwnerAmong(e.requirements) && ReferenceOf(q) == Reference(e.id, INSTALL_POLICY, OWNER_ROLE)
    ensures ReferenceOf(q) in Offered(Some(c), DesktopReferences(c.evaluations, c.digest), OWNER)
  {
    ActiveIsNewest(c);
    var authorized := DesktopReferences(c.evaluations, c.digest);
    assert e in c.evaluations;
    ListedIsNewest(c.evaluations, c.digest, e);
    DesktopReferencesAre(c.evaluations, c.digest, ReferenceOf(q));
    OfferIsExactIff(c, authorized, OWNER);
    assert SoundEvaluation(e);
    UniqueRequirementsTellApart(authorized, e, c.decisions, OWNER);
  }

  // Being offered to the owner means being the owner requirement of the local policy's newest evaluation.
  lemma OfferedIsLocal(c: ChangeSet, q: Request)
    requires Inv(c) && c.status == AWAITING && DecisionWithKey(c.decisions, q.key).None?
    requires MayDecide(c, DesktopReferences(c.evaluations, c.digest), OWNER, q)
    ensures c.evaluations != []
    ensures var e := c.evaluations[|c.evaluations| - 1];
      IsCurrentLocal(e, c.digest) && OwnerAmong(e.requirements) &&
      ReferenceOf(q) == Reference(e.id, INSTALL_POLICY, OWNER_ROLE)
  {
    ActiveIsNewest(c);
    NoneWithKey(c.decisions, q.key);
    var authorized := DesktopReferences(c.evaluations, c.digest);
    OfferIsExactIff(c, authorized, OWNER);
    DesktopReferencesAre(c.evaluations, c.digest, ReferenceOf(q));
    ListedIsNewest(c.evaluations, c.digest, c.evaluations[|c.evaluations| - 1]);
  }

  // What the actor has decided is not offered, so it is let through exactly when it is authorised.
  lemma DecidedIsNotOffered(c: ChangeSet, authorized: seq<Reference>, q: Request, d: Decision)
    requires d in c.decisions && d == DecisionOf(q, OWNER)
    ensures MayDecide(c, authorized, OWNER, q) <==> ReferenceOf(q) in authorized
  {
    if c.status == AWAITING && Active(c.evaluations).Some? {
      OfferIsExactIff(c, authorized, OWNER);
    }
  }

  lemma {:induction false} RequiredIsFound(requirements: seq<Requirement>, q: Requirement)
    requires q in requirements
    ensures FirstRequired(requirements, q.policyId, q.role).Some?
  {
    if !(requirements[0].policyId == q.policyId && requirements[0].role == q.role) {
      RequiredIsFound(requirements[1..], q);
    }
  }

  // Every offer is good: a new request for it, made of the current revision, is let through and
  // recorded, unless the actor would approve a second requirement of one separation group.
  lemma OfferIsAccepted(c: ChangeSet, authorized: seq<Reference>, actor: Actor, q: Request, ready: bool)
    requires Inv(c) && ReferenceOf(q) in Offered(Some(c), authorized, actor)
    requires TrimmedActor(actor) == actor && actor.kind != "" && actor.id != ""
    requires q.expectedRevision == c.revision && GoTrim(q.key) != ""
    requires DecisionWithKey(c.decisions, GoTrim(q.key)).None?
    ensures MayDecide(c, authorized, actor, q)
    ensures c.evaluations != []
    ensures var e := c.evaluations[|c.evaluations| - 1];
      FirstRequired(e.requirements, q.policyId, q.role).Some? &&
      (var conflict := q.approved &&
        Separated(c, e, actor, FirstRequired(e.requirements, q.policyId, q.role).value.separationGroup);
       if conflict then Resolve(c, q, actor, ready) == Refused(Incompatible)
       else Resolve(c, q, actor, ready).Recorded? &&
            Resolve(c, q, actor, ready).next.decisions == c.decisions + [DecisionOf(Trimmed(q), actor)])
  {
    ActiveIsNewest(c);
    OfferIsExactIff(c, authorized, actor);
    var e := c.evaluations[|c.evaluations| - 1];
    assert Open(e, c.decisions, actor, ReferenceOf(q)) && SoundEvaluation(e);
    var required :| required in e.requirements && required.policyId == q.policyId && required.role == q.role;
    RequiredIsFound(e.requirements, required);
    assert ReferenceOf(Trimmed(q)) == ReferenceOf(q);
  }

  // ---------------------------------------------------------------- when the desktop may install

  lemma NothingDecidedOnNew(decisions: seq<Decision>, evaluations: seq<Evaluation>, id: string)
    requires DecisionsOn(decisions, evaluations) && Fresh(evaluations, id)
    ensures forall d :: d in decisions ==> d.evaluationId != id
  {
  }

  // A new evaluation takes the permission to install away, whatever it says.
  lemma EvaluationRevokes(c: ChangeSet, s: Submission, minted: string, ready: bool)
    requires Inv(c) && Fresh(c.evaluations, minted) && Submit(c, s, minted, ready).Recorded?
    ensures !OwnerReviewed(Submit(c, s, minted, ready).next)
  {
    NothingDecidedOnNew(c.decisions, c.evaluations, minted);
  }

  // The owner's decision on what the local policy asks for gives the permission exactly when it
  // is an approval. (`q` trimmed, as the service has it.)
  lemma DecisionGrantsIff(c: ChangeSet, q: Request, ready: bool)
    requires Inv(c) && ResolveTrimmed(c, q, OWNER, ready).Recorded?
    requires q.policyId == INSTALL_POLICY && q.role == OWNER_ROLE
    requires c.evaluations[|c.evaluations| - 1].actor == LOCAL_POLICY
    requires exists r :: r in c.evaluations[|c.evaluations| - 1].requirements && IsOwnerRequirement(r) && r.count == 1
    ensures OwnerReviewed(ResolveTrimmed(c, q, OWNER, ready).next) <==> q.approved
  {
    ResolveKeepsInv(c, q, OWNER, ready);
    GrantedIff(c, ResolveTrimmed(c, q, OWNER, ready).next, DecisionOf(q, OWNER));
  }

  lemma GrantedIff(c: ChangeSet, next: ChangeSet, d: Decision)
    requires next.evaluations == c.evaluations && next.digest == c.digest && next.decisions == c.decisions + [d]
    requires SoundDecisions(next.decisions) && c.evaluations != []
    requires var e := c.evaluations[|c.evaluations| - 1];
      IsCurrentLocal(e, c.digest) && (exists r :: r in e.requirements && IsOwnerRequirement(r) && r.count == 1) &&
      d.actor == OWNER && IsOn(d, Reference(e.id, INSTALL_POLICY, OWNER_ROLE))
    ensures OwnerReviewed(next) <==> d.approved
  {
    assert d in next.decisions;
    if !d.approved {
      RejectedIsNotReviewed(next, d);
    }
  }

  // A change of the candidate takes it away exactly when it is not the reviewed candidate.
  lemma AmendmentRevokesIff(c: ChangeSet, digest: string, status: string)
    requires OwnerReviewed(c) && status != AWAITING
    ensures OwnerReviewed(Next(c, Amend(digest, status))) <==> digest == c.digest
  {
    var e := c.evaluations[|c.evaluations| - 1];
    var d :| d in c.decisions && IsOn(d, Reference(e.id, INSTALL_POLICY, OWNER_ROLE)) && d.actor == OWNER && d.approved;
    assert d in Next(c, Amend(digest, status)).decisions;
  }

  lemma RejectedIsNotReviewed(c: ChangeSet, d: Decision)
    requires SoundDecisions(c.decisions) && d in c.decisions && d.actor == OWNER && !d.approved
    requires c.evaluations != []
    requires IsOn(d, Reference(c.evaluations[|c.evaluations| - 1].id, INSTALL_POLICY, OWNER_ROLE))
    ensures !OwnerReviewed(c)
  {
    var i :| 0 <= i < |c.decisions| && c.decisions[i] == d;
    forall j | 0 <= j < |c.decisions| && c.decisions[j].actor == OWNER && IsOn(c.decisions[j], OnOf(d))
      ensures c.decisions[j] == d
    {
      if i < j {} else if j < i {}
    }
  }

  // A rejection by the owner is final: only a new evaluation lets the desktop install again.
  lemma RejectionIsFinal(c: ChangeSet, steps: seq<Step>, d: Decision)
    requires Inv(c) && d in c.decisions && d.actor == OWNER && !d.approved
    requires c.evaluations != []
    requires IsOn(d, Reference(c.evaluations[|c.evaluations| - 1].id, INSTALL_POLICY, OWNER_ROLE))
    requires Run(c, steps).evaluations == c.evaluations
    ensures !OwnerReviewed(Run(c, steps))
  {
    RunKeepsInv(c, steps);
    DecisionsStay(c, steps);
    RejectedIsNotReviewed(Run(c, steps), d);
  }

  // The step that records a decision is a request of its actor on the newest evaluation.
  lemma {:induction false} RecordedAt(c: ChangeSet, steps: seq<Step>, d: Decision) returns (j: int)
    requires Inv(c) && d !in c.decisions && d in Run(c, steps).decisions
    ensures 0 <= j < |steps| && steps[j].Decide? && TrimmedActor(steps[j].actor) == d.actor
    ensures DecisionOf(Trimmed(steps[j].request), d.actor) == d
    ensures var before := Run(c, steps[..j]);
      before.status == AWAITING && before.evaluations != [] &&
      before.evaluations[|before.evaluations| - 1].id == d.evaluationId
  {
    var n := |steps| - 1;
    if d in Run(c, steps[..n]).decisions {
      j := RecordedAt(c, steps[..n], d);
      assert steps[..n][..j] == steps[..j];
    } else {
      RecordingStep(Run(c, steps[..n]), steps[n], d);
      j := n;
    }
  }

  lemma RecordingStep(c: ChangeSet, step: Step, d: Decision)
    requires d !in c.decisions && d in Next(c, step).decisions
    ensures step.Decide? && TrimmedActor(step.actor) == d.actor && DecisionOf(Trimmed(step.request), d.actor) == d
    ensures c.status == AWAITING && c.evaluations != [] && c.evaluations[|c.evaluations| - 1].id == d.evaluationId
  {
    if step.Decide? {
      RecordedDecision(c, Trimmed(step.request), TrimmedActor(step.actor), step.ready);
    }
  }

  lemma SameNewest(before: seq<Evaluation>, now: seq<Evaluation>)
    requires SoundEvaluations(now) && before <= now && before != [] && before[|before| - 1].id == now[|now| - 1].id
    ensures before == now
  {
    assert before[|before| - 1] == now[|before| - 1];
  }

  // Whenever the desktop may install, the owner's approval was recorded when the newest evaluation
  // was the one it is now and the candidate was the one it is now.
  lemma InstallsWhatTheOwnerApproved(c: ChangeSet, steps: seq<Step>) returns (j: int)
    requires Start(c) && OwnerReviewed(Run(c, steps))
    ensures 0 <= j < |steps| && steps[j].Decide? && TrimmedActor(steps[j].actor) == OWNER && steps[j].request.approved
    ensures var before, now := Run(c, steps[..j]), Run(c, steps);
      before.evaluations == now.evaluations && before.digest == now.digest && before.status == AWAITING
  {
    RunKeepsInv(c, steps);
    var d := OwnersApproval(Run(c, steps));
    j := RecordedAt(c, steps, d);
    RunKeepsInv(c, steps[..j]);
    RunSplits(c, steps, j);
    DecisionsStay(Run(c, steps[..j]), steps[j..]);
    ApprovedThen(Run(c, steps[..j]), Run(c, steps), d);
  }

  lemma OwnersApproval(c: ChangeSet) returns (d: Decision)
    requires OwnerReviewed(c)
    ensures d in c.decisions && d.actor == OWNER && d.approved
    ensures d.evaluationId == c.evaluations[|c.evaluations| - 1].id
  {
    d :| d in c.decisions && IsOn(d, Reference(c.evaluations[|c.evaluations| - 1].id, INSTALL_POLICY, OWNER_ROLE)) &&
         d.actor == OWNER && d.approved;
  }

  lemma ApprovedThen(before: ChangeSet, now: ChangeSet, d: Decision)
    requires AwaitsNewest(before) && SoundEvaluations(now.evaluations)
    requires before.evaluations <= now.evaluations && OwnerReviewed(now)
    requires before.status == AWAITING && before.evaluations != []
    requires before.evaluations[|before.evaluations| - 1].id == d.evaluationId ==
      now.evaluations[|now.evaluations| - 1].id
    ensures before.evaluations == now.evaluations && before.digest == now.digest
  {
    SameNewest(before.evaluations, now.evaluations);
  }

  lemma RunOnce(c: ChangeSet, steps: seq<Step>)
    requires steps != []
    ensures Run(c, steps) == Next(Run(c, steps[..|steps| - 1]), steps[|steps| - 1])
  {
  }

  lemma {:induction false} RunSplits(c: ChangeSet, steps: seq<Step>, j: int)
    requires 0 <= j <= |steps|
    ensures Run(c, steps) == Run(Run(c, steps[..j]), steps[j..])
  {
    var n := |steps| - 1;
    if j <= n {
      var rest := steps[j..];
      RunSplits(c, steps[..n], j);
      assert steps[..n][..j] == steps[..j];
      assert steps[..n][j..] == rest[..|rest| - 1] && rest[|rest| - 1] == steps[n];
      RunOnce(Run(c, steps[..j]), rest);
      RunOnce(c, steps);
    } else {
      assert steps[..j] == steps;
    }
  }
}
