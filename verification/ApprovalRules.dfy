/**
  The rules of approval one by one: what a submitted evaluation and a decision come to, when enough
  people have approved, and that the desktop's own way from evaluation to installing is open.
 */
module ApprovalRules {
  import opened Options
  import opened Approvals
  import opened ApprovalRuns
  import opened Text

  // Not only white space.
  ghost predicate SaysSomething(s: string) {
    exists i :: 0 <= i < |s| && !IsGoSpace(s[i])
  }

  lemma GoBlankIff(s: string)
    ensures GoBlank(s) <==> !SaysSomething(s)
    ensures GoTrim(s) == "" <==> !SaysSomething(s)
  {
    GoTrimIsEmptyIff(s);
    if GoBlank(s) {
      forall i | 0 <= i < |s| ensures IsGoSpace(s[i]) {
        assert s[i] in s;
      }
    } else {
      var c :| c in s && !IsGoSpace(c);
      var i :| 0 <= i < |s| && s[i] == c;
    }
  }

  // ---------------------------------------------------------------- evaluations

  // The first evaluation submitted under the key, which is the only one.
  predicate IsFirstWith(evaluations: seq<Evaluation>, key: string, i: int) {
    0 <= i < |evaluations| && evaluations[i].key == key && forall j :: 0 <= j < i ==> evaluations[j].key != key
  }

  lemma {:induction false} WithKeyIsFirst(evaluations: seq<Evaluation>, key: string) returns (i: int)
    ensures WithKey(evaluations, key).Some? ==>
      IsFirstWith(evaluations, key, i) && WithKey(evaluations, key) == Some(evaluations[i])
    ensures WithKey(evaluations, key).None? ==> forall j :: 0 <= j < |evaluations| ==> evaluations[j].key != key
  {
    i := 0;
    if evaluations != [] && evaluations[0].key != key {
      var n := WithKeyIsFirst(evaluations[1..], key);
      i := n + 1;
      assert forall j :: 1 <= j < |evaluations| ==> evaluations[j] == evaluations[1..][j - 1];
    }
  }

  // Every requirement names a policy and a role and asks for someone, and no two ask for the same
  // role under the same policy, which is told by joining the two with NUL.
  ghost predicate AreRequirements(requirements: seq<Requirement>) {
    (forall i :: 0 <= i < |requirements| ==>
      SaysSomething(requirements[i].policyId) && SaysSomething(requirements[i].role) && requirements[i].count > 0) &&
    forall i, j :: 0 <= i < |requirements| && 0 <= j < |requirements| && i != j ==>
      GoTrim(requirements[i].policyId) + "\0" + GoTrim(requirements[i].role) !=
      GoTrim(requirements[j].policyId) + "\0" + GoTrim(requirements[j].role)
  }

  lemma AreRequirementsIff(requirements: seq<Requirement>)
    ensures AreRequirements(requirements) <==> SoundRequirements(TrimmedRequirements(requirements))
  {
    var trimmed := TrimmedRequirements(requirements);
    forall i | 0 <= i < |requirements|
      ensures SaysSomething(requirements[i].policyId) <==> trimmed[i].policyId != ""
      ensures SaysSomething(requirements[i].role) <==> trimmed[i].role != ""
    {
      GoBlankIff(requirements[i].policyId);
      GoBlankIff(requirements[i].role);
    }
    if SoundRequirements(trimmed) {
      forall i | 0 <= i < |trimmed|
        ensures trimmed[i].policyId != "" && trimmed[i].role != "" && trimmed[i].count >= 1
      {
        assert trimmed[i] in trimmed;
      }
    }
    if AreRequirements(requirements) {
      forall q | q in trimmed ensures q.policyId != "" && q.role != "" && q.count >= 1 {
        var i :| 0 <= i < |trimmed| && trimmed[i] == q;
      }
    }
  }

  // Where an evaluation takes a change set.
  function StatusAfter(allowed: bool, requirements: seq<Requirement>, ready: bool): string {
    if !allowed then "rejected"
    else if |requirements| > 0 then "awaiting_approval"
    else if ready then "ready"
    else "blocked"
  }

  // What a submitted evaluation comes to.
  lemma SubmissionComesTo(c: ChangeSet, s: Submission, minted: string, ready: bool) returns (i: int)
    ensures var key, outcome := GoTrim(s.key), Submit(c, s, minted, ready);
      if !(s.expectedRevision > 0 && SaysSomething(s.digest) && SaysSomething(s.key) && SaysSomething(s.actor.kind) &&
           SaysSomething(s.actor.id)) then outcome == Refused(Incomplete)
      else if exists j :: 0 <= j < |c.evaluations| && c.evaluations[j].key == key then
        IsFirstWith(c.evaluations, key, i) &&
        (var e := c.evaluations[i];
         var same := Evaluation(e.id, key, GoTrim(s.digest), s.allowed, s.findings, s.requirements, s.actor);
         outcome == if e == same then Replayed else Refused(KeyConflict))
      else if s.expectedRevision != c.revision || GoTrim(s.digest) != c.digest then outcome == Refused(Stale)
      else if c.status !in {"review", "evaluating"} then outcome == Refused(WrongStatus)
      else if !AreRequirements(s.requirements) || (!s.allowed && |s.requirements| > 0) then
        outcome == Refused(BadRequirements)
      else outcome.Recorded?
    ensures Submit(c, s, minted, ready).Recorded? ==>
      var next := Submit(c, s, minted, ready).next;
      |next.evaluations| == |c.evaluations| + 1 && next.evaluations[..|c.evaluations|] == c.evaluations &&
      (var e := next.evaluations[|c.evaluations|];
       e.id == minted && e.key == GoTrim(s.key) && e.digest == c.digest && e.allowed == s.allowed &&
       e.findings == s.findings && e.actor == s.actor && |e.requirements| == |s.requirements| &&
       forall k :: 0 <= k < |s.requirements| ==>
         e.requirements[k] == Requirement(GoTrim(s.requirements[k].policyId), GoTrim(s.requirements[k].role),
           s.requirements[k].count, GoTrim(s.requirements[k].separationGroup))) &&
      next == c.(evaluations := next.evaluations, status := StatusAfter(s.allowed, s.requirements, ready),
                 revision := c.revision + 1)
  {
    GoBlankIff(s.digest);
    GoBlankIff(s.key);
    GoBlankIff(s.actor.kind);
    GoBlankIff(s.actor.id);
    AreRequirementsIff(s.requirements);
    i := WithKeyIsFirst(c.evaluations, GoTrim(s.key));
  }

  // ---------------------------------------------------------------- decisions

  lemma {:induction false} DecisionWithKeyIsFirst(decisions: seq<Decision>, key: string) returns (i: int)
    ensures DecisionWithKey(decisions, key).Some? ==>
      0 <= i < |decisions| && decisions[i].key == key && DecisionWithKey(decisions, key) == Some(decisions[i])
    ensures DecisionWithKey(decisions, key).None? ==> forall j :: 0 <= j < |decisions| ==> decisions[j].key != key
  {
    i := 0;
    if decisions != [] && decisions[0].key != key {
      var n := DecisionWithKeyIsFirst(decisions[1..], key);
      i := n + 1;
      assert forall j :: 1 <= j < |decisions| ==> decisions[j] == decisions[1..][j - 1];
    }
  }

  // The requirement is among these, first of its policy and role.
  predicate IsRequired(requirements: seq<Requirement>, policyId: string, role: string, i: int) {
    0 <= i < |requirements| && requirements[i].policyId == policyId && requirements[i].role == role &&
    forall j :: 0 <= j < i ==> !(requirements[j].policyId == policyId && requirements[j].role == role)
  }

  lemma {:induction false} FirstRequiredIsFirst(requirements: seq<Requirement>, policyId: string, role: string)
    returns (i: int)
    ensures FirstRequired(requirements, policyId, role).Some? ==>
      IsRequired(requirements, policyId, role, i) &&
      FirstRequired(requirements, policyId, role) == Some(requirements[i])
    ensures FirstRequired(requirements, policyId, role).None? ==>
      forall j :: 0 <= j < |requirements| ==> !(requirements[j].policyId == policyId && requirements[j].role == role)
  {
    i := 0;
    if requirements != [] && !(requirements[0].policyId == policyId && requirements[0].role == role) {
      var n := FirstRequiredIsFirst(requirements[1..], policyId, role);
      i := n + 1;
      assert forall j :: 1 <= j < |requirements| ==> requirements[j] == requirements[1..][j - 1];
    }
  }

  // This actor has decided on this requirement of this evaluation.
  predicate HasDecidedOn(decisions: seq<Decision>, actor: Actor, evaluationId: string, policyId: string, role: string) {
    exists i :: 0 <= i < |decisions| && decisions[i].actor == actor && decisions[i].evaluationId == evaluationId &&
      decisions[i].policyId == policyId && decisions[i].role == role
  }

  // This actor has approved a requirement of this separation group, which has a name.
  predicate HasApprovedIn(c: ChangeSet, e: Evaluation, actor: Actor, group: string) {
    |group| > 0 &&
    exists i, k :: 0 <= i < |c.decisions| && 0 <= k < |e.requirements| && e.requirements[k].separationGroup == group &&
      c.decisions[i].approved && c.decisions[i].actor == actor && c.decisions[i].evaluationId == e.id &&
      c.decisions[i].policyId == e.requirements[k].policyId && c.decisions[i].role == e.requirements[k].role
  }

  lemma HasApprovedInIff(c: ChangeSet, e: Evaluation, actor: Actor, group: string)
    ensures HasApprovedIn(c, e, actor, group) <==> Separated(c, e, actor, group)
  {
    if Separated(c, e, actor, group) {
      var d, q :| d in c.decisions && q in e.requirements && d.approved && d.actor == actor &&
        q.separationGroup == group && IsOn(d, Reference(e.id, q.policyId, q.role));
      var i :| 0 <= i < |c.decisions| && c.decisions[i] == d;
      var k :| 0 <= k < |e.requirements| && e.requirements[k] == q;
    }
    if HasApprovedIn(c, e, actor, group) {
      var i, k :| 0 <= i < |c.decisions| && 0 <= k < |e.requirements| && e.requirements[k].separationGroup == group &&
        c.decisions[i].approved && c.decisions[i].actor == actor && c.decisions[i].evaluationId == e.id &&
        c.decisions[i].policyId == e.requirements[k].policyId && c.decisions[i].role == e.requirements[k].role;
      assert c.decisions[i] in c.decisions && e.requirements[k] in e.requirements;
    }
  }

  lemma HasDecidedOnIff(decisions: seq<Decision>, actor: Actor, q: Request)
    ensures HasDecidedOn(decisions, actor, q.evaluationId, q.policyId, q.role) <==>
      Decided(decisions, actor, ReferenceOf(q))
  {
    if Decided(decisions, actor, ReferenceOf(q)) {
      var d :| d in decisions && IsOn(d, ReferenceOf(q)) && d.actor == actor;
      var i :| 0 <= i < |decisions| && decisions[i] == d;
    }
    if HasDecidedOn(decisions, actor, q.evaluationId, q.policyId, q.role) {
      var i :| 0 <= i < |decisions| && decisions[i].actor == actor && decisions[i].evaluationId == q.evaluationId &&
        decisions[i].policyId == q.policyId && decisions[i].role == q.role;
      assert decisions[i] in decisions;
    }
  }

  // Why a decision is not even looked at against the newest evaluation; the request is trimmed.
  lemma DecisionIsTurnedAway(c: ChangeSet, q: Request, actor: Actor, ready: bool) returns (i: int)
    ensures var outcome := ResolveTrimmed(c, q, actor, ready);
      if !(q.expectedRevision > 0 && |q.evaluationId| > 0 && |q.policyId| > 0 && |q.role| > 0 && |q.key| > 0 &&
           |actor.kind| > 0 && |actor.id| > 0) then outcome == Refused(Incomplete)
      else if exists j :: 0 <= j < |c.decisions| && c.decisions[j].key == q.key then
        0 <= i < |c.decisions| && c.decisions[i].key == q.key &&
        outcome ==
          (if c.decisions[i] == Decision(q.key, q.evaluationId, q.policyId, q.role, q.approved, q.reason, actor)
           then Replayed else Refused(KeyConflict))
      else if q.expectedRevision != c.revision then outcome == Refused(Stale)
      else if c.status != "awaiting_approval" then outcome == Refused(WrongStatus)
      else if |c.evaluations| == 0 || c.evaluations[|c.evaluations| - 1].id != q.evaluationId ||
           !c.evaluations[|c.evaluations| - 1].allowed then outcome == Refused(NotActive)
      else outcome.Recorded? || (outcome.Refused? && outcome.error in {NotRequired, AlreadyDecided, Incompatible})
  {
    i := DecisionWithKeyIsFirst(c.decisions, q.key);
  }

  // The request is complete, new, up to date, and about the newest evaluation while that is waited for.
  predicate IsInOrder(c: ChangeSet, q: Request, actor: Actor) {
    q.expectedRevision == c.revision > 0 && |q.evaluationId| > 0 && |q.policyId| > 0 && |q.role| > 0 && |q.key| > 0 &&
    |actor.kind| > 0 && |actor.id| > 0 && (forall j :: 0 <= j < |c.decisions| ==> c.decisions[j].key != q.key) &&
    c.status == "awaiting_approval" && |c.evaluations| > 0 &&
    c.evaluations[|c.evaluations| - 1].id == q.evaluationId && c.evaluations[|c.evaluations| - 1].allowed
  }

  // The actors who approved this requirement of the evaluation.
  function Approving(decisions: seq<Decision>, evaluationId: string, q: Requirement): set<Actor> {
    set i | 0 <= i < |decisions| && decisions[i].approved && decisions[i].evaluationId == evaluationId &&
      decisions[i].policyId == q.policyId && decisions[i].role == q.role :: decisions[i].actor
  }

  // Decisions are counted; since nobody has two on one requirement, that counts people.
  lemma {:induction false} CountedAreActors(decisions: seq<Decision>, evaluationId: string, q: Requirement)
    requires SoundDecisions(decisions)
    ensures Approvers(decisions, evaluationId, q) == |Approving(decisions, evaluationId, q)|
  {
    if decisions != [] {
      var d, rest := decisions[0], decisions[1..];
      assert decisions == [d] + rest;
      CountedAreActors(rest, evaluationId, q);
      var more := Approving(rest, evaluationId, q);
      forall a ensures a in Approving(decisions, evaluationId, q) <==>
        a in more || (a == d.actor && Approves(d, evaluationId, q)) {
        ApprovingMore(d, rest, evaluationId, q, a);
      }
      if Approves(d, evaluationId, q) {
        assert Approving(decisions, evaluationId, q) == more + {d.actor};
        NotAgain(decisions, evaluationId, q);
      } else {
        assert Approving(decisions, evaluationId, q) == more;
      }
    }
  }

  lemma NotAgain(decisions: seq<Decision>, evaluationId: string, q: Requirement)
    requires decisions != [] && SoundDecisions(decisions) && Approves(decisions[0], evaluationId, q)
    ensures decisions[0].actor !in Approving(decisions[1..], evaluationId, q)
  {
    var rest := decisions[1..];
    forall i | 0 <= i < |rest| && Approves(rest[i], evaluationId, q) ensures rest[i].actor != decisions[0].actor {
      assert decisions[i + 1] == rest[i];
    }
  }

  predicate Approves(d: Decision, evaluationId: string, q: Requirement) {
    d.approved && d.evaluationId == evaluationId && d.policyId == q.policyId && d.role == q.role
  }

  lemma AmongApproving(decisions: seq<Decision>, i: int, evaluationId: string, q: Requirement)
    requires 0 <= i < |decisions| && Approves(decisions[i], evaluationId, q)
    ensures decisions[i].actor in Approving(decisions, evaluationId, q)
  {
  }

  lemma ApprovingMore(d: Decision, rest: seq<Decision>, evaluationId: string, q: Requirement, a: Actor)
    ensures a in Approving([d] + rest, evaluationId, q) <==>
      a in Approving(rest, evaluationId, q) || (a == d.actor && Approves(d, evaluationId, q))
  {
    var all := [d] + rest;
    if a in Approving(rest, evaluationId, q) {
      var i :| 0 <= i < |rest| && rest[i].actor == a && Approves(rest[i], evaluationId, q);
      assert all[i + 1] == rest[i];
      AmongApproving(all, i + 1, evaluationId, q);
    }
    if a == d.actor && Approves(d, evaluationId, q) {
      AmongApproving(all, 0, evaluationId, q);
    }
    if a in Approving(all, evaluationId, q) && !(a == d.actor && Approves(d, evaluationId, q)) {
      var i :| 0 <= i < |all| && all[i].actor == a && Approves(all[i], evaluationId, q);
      if i > 0 {
        assert all[i] == rest[i - 1];
        AmongApproving(rest, i - 1, evaluationId, q);
      }
    }
  }

  // Something is required, and as many different people approved each requirement as it asks for.
  predicate HasEnough(e: Evaluation, decisions: seq<Decision>) {
    |e.requirements| > 0 &&
    forall k :: 0 <= k < |e.requirements| ==>
      |Approving(decisions, e.id, e.requirements[k])| >= e.requirements[k].count
  }

  lemma HasEnoughIff(e: Evaluation, decisions: seq<Decision>)
    requires SoundDecisions(decisions)
    ensures HasEnough(e, decisions) <==> Satisfied(e, decisions)
  {
    forall q ensures Approvers(decisions, e.id, q) == |Approving(decisions, e.id, q)| {
      CountedAreActors(decisions, e.id, q);
    }
    if Satisfied(e, decisions) {
      forall k | 0 <= k < |e.requirements|
        ensures |Approving(decisions, e.id, e.requirements[k])| >= e.requirements[k].count
      {
        assert e.requirements[k] in e.requirements;
      }
    }
  }

  // What a decision in order comes to. It is recorded exactly if what it is about is required, its
  // actor has not decided on that, nor, in approving, approved another of its separation group. A
  // rejection ends the waiting; an approval does once enough different people approved everything.
  lemma DecisionComesTo(c: ChangeSet, q: Request, actor: Actor, ready: bool) returns (i: int)
    requires Inv(c) && IsInOrder(c, q, actor)
    ensures var e, outcome := c.evaluations[|c.evaluations| - 1], ResolveTrimmed(c, q, actor, ready);
      if forall j :: 0 <= j < |e.requirements| ==>
           e.requirements[j].policyId != q.policyId || e.requirements[j].role != q.role then
        outcome == Refused(NotRequired)
      else
        IsRequired(e.requirements, q.policyId, q.role, i) &&
        if HasDecidedOn(c.decisions, actor, q.evaluationId, q.policyId, q.role) then outcome == Refused(AlreadyDecided)
        else if q.approved && HasApprovedIn(c, e, actor, e.requirements[i].separationGroup) then
          outcome == Refused(Incompatible)
        else
          var d := Decision(q.key, e.id, q.policyId, q.role, q.approved, q.reason, actor);
          outcome == Recorded(c.(decisions := c.decisions + [d], revision := c.revision + 1, status :=
            if !q.approved then "rejected"
            else if !HasEnough(e, c.decisions + [d]) then "awaiting_approval"
            else if ready then "ready"
            else "blocked"))
  {
    var e := c.evaluations[|c.evaluations| - 1];
    InOrderIsDecided(c, e, q, actor, ready);
    i := FirstRequiredIsFirst(e.requirements, q.policyId, q.role);
    HasDecidedOnIff(c.decisions, actor, q);
    if FirstRequired(e.requirements, q.policyId, q.role).Some? {
      HasApprovedInIff(c, e, actor, e.requirements[i].separationGroup);
      RecordedIsSound(c, q, actor, ready);
      if SoundDecisions(c.decisions + [DecisionOf(q, actor)]) {
        HasEnoughIff(e, c.decisions + [DecisionOf(q, actor)]);
      }
    }
  }

  lemma RecordedIsSound(c: ChangeSet, q: Request, actor: Actor, ready: bool)
    requires Inv(c)
    ensures ResolveTrimmed(c, q, actor, ready).Recorded? ==> SoundDecisions(c.decisions + [DecisionOf(q, actor)])
  {
    if ResolveTrimmed(c, q, actor, ready).Recorded? {
      ResolveKeepsInv(c, q, actor, ready);
      RecordedDecision(c, q, actor, ready);
    }
  }

  lemma InOrderIsDecided(c: ChangeSet, e: Evaluation, q: Request, actor: Actor, ready: bool)
    requires IsInOrder(c, q, actor) && e == c.evaluations[|c.evaluations| - 1]
    ensures var required := FirstRequired(e.requirements, q.policyId, q.role);
      var outcome := ResolveTrimmed(c, q, actor, ready);
      if required.None? then outcome == Refused(NotRequired)
      else if Decided(c.decisions, actor, ReferenceOf(q)) then outcome == Refused(AlreadyDecided)
      else if q.approved && Separated(c, e, actor, required.value.separationGroup) then outcome == Refused(Incompatible)
      else
        var decisions := c.decisions + [DecisionOf(q, actor)];
        outcome == Recorded(c.(decisions := decisions, revision := c.revision + 1, status :=
          if !q.approved then "rejected"
          else if !Satisfied(e, decisions) then "awaiting_approval"
          else if ready then "ready"
          else "blocked"))
  {
    var n := DecisionWithKeyIsFirst(c.decisions, q.key);
  }

  // ---------------------------------------------------------------- installing

  // The desktop may install exactly if the newest evaluation is the local policy's, allows this
  // candidate and asks for one workspace owner, and the local operator approved that.
  lemma OwnerReviewedIff(c: ChangeSet)
    ensures OwnerReviewed(c) <==>
      (|c.evaluations| > 0 &&
       (var e := c.evaluations[|c.evaluations| - 1];
        e.allowed && e.digest == c.digest && e.actor == Actor("policy_evaluator", "local-desktop-policy") &&
        (exists k :: 0 <= k < |e.requirements| && e.requirements[k].policyId == "local-desktop-install" &&
          e.requirements[k].role == "workspace-owner" && e.requirements[k].count == 1) &&
        (exists i :: 0 <= i < |c.decisions| && c.decisions[i].approved && c.decisions[i].evaluationId == e.id &&
          c.decisions[i].policyId == "local-desktop-install" && c.decisions[i].role == "workspace-owner" &&
          c.decisions[i].actor == Actor("user", "local-operator"))))
  {
    if OwnerReviewed(c) {
      var e := c.evaluations[|c.evaluations| - 1];
      var q :| q in e.requirements && IsOwnerRequirement(q) && q.count == 1;
      var k :| 0 <= k < |e.requirements| && e.requirements[k] == q;
      var d :| d in c.decisions && IsOn(d, Reference(e.id, INSTALL_POLICY, OWNER_ROLE)) && d.actor == OWNER &&
        d.approved;
      var i :| 0 <= i < |c.decisions| && c.decisions[i] == d;
    }
    if |c.evaluations| > 0 {
      var e := c.evaluations[|c.evaluations| - 1];
      assert forall k :: 0 <= k < |e.requirements| ==> e.requirements[k] in e.requirements;
      assert forall i :: 0 <= i < |c.decisions| ==> c.decisions[i] in c.decisions;
    }
  }

  // And it gets there: a change under review that the desktop evaluates itself, and whose owner
  // approves what that asks for, may be installed, and waits for nothing else.
  lemma OwnerCanInstall(c: ChangeSet, s: Submission, id: string, q: Request, ready: bool)
    requires Start(c) && IsLocalSubmission(c, s) && Fresh(c.evaluations, id)
    requires IsOwnerApproval(Run(c, [Step.Evaluate(s, id, ready)]), id, q)
    ensures OwnerReviewed(Run(c, [Step.Evaluate(s, id, ready), Step.Decide(q, OWNER, ready)]))
    ensures Run(c, [Step.Evaluate(s, id, ready), Step.Decide(q, OWNER, ready)]).status ==
      if ready then "ready" else "blocked"
  {
    RunTwo(c, Step.Evaluate(s, id, ready), Step.Decide(q, OWNER, ready));
    Evaluated(c, s, id, ready);
    var evaluated := Submit(c, s, id, ready).next;
    OwnerApprovalIsRecorded(evaluated, q, ready);
    Approved(evaluated, q, ready);
  }

  lemma RunTwo(c: ChangeSet, first: Step, second: Step)
    ensures Run(c, [first]) == Next(c, first)
    ensures Run(c, [first, second]) == Next(Next(c, first), second)
  {
    assert [first][..0] == [] && Run(c, []) == c;
    assert [first, second][..1] == [first];
  }

  lemma Evaluated(c: ChangeSet, s: Submission, id: string, ready: bool)
    requires Start(c) && IsLocalSubmission(c, s) && Fresh(c.evaluations, id)
    ensures Submit(c, s, id, ready).Recorded? && Next(c, Step.Evaluate(s, id, ready)) == Submit(c, s, id, ready).next
    ensures var next := Submit(c, s, id, ready).next;
      Inv(next) && next.status == AWAITING && |next.evaluations| == 1 && next.decisions == [] &&
      next.evaluations[0].id == id && IsCurrentLocal(next.evaluations[0], next.digest) &&
      next.evaluations[0].requirements == OWNER_REVIEW.requirements
  {
    OwnerReviewIsTrimmed();
    LocalPolicyIsNotBlank();
    SubmissionIsRecorded(c, s, id, ready);
    SubmitKeepsInv(c, s, id, ready);
  }

  lemma Approved(c: ChangeSet, q: Request, ready: bool)
    requires Inv(c) && c.status == AWAITING && |c.evaluations| == 1 && c.decisions == []
    requires IsCurrentLocal(c.evaluations[0], c.digest) && c.evaluations[0].requirements == OWNER_REVIEW.requirements
    requires IsOwnerApproval(c, c.evaluations[0].id, q) && Resolve(c, q, OWNER, ready).Recorded?
    ensures OwnerReviewed(Resolve(c, q, OWNER, ready).next)
    ensures Resolve(c, q, OWNER, ready).next.status == if ready then "ready" else "blocked"
  {
    OwnerIsTrimmed();
    assert OWNER_REVIEW.requirements[0] in c.evaluations[0].requirements;
    DecisionGrantsIff(c, q, ready);
    var d := DecisionOf(q, OWNER);
    assert c.decisions + [d] == [d];
    assert [d][1..] == [];
    assert Approvers([d], c.evaluations[0].id, OWNER_REVIEW.requirements[0]) == 1;
  }

  // ---------------------------------------------------------------- who is let through

  // The desktop authorises the owner on exactly the owner requirements of the local policy's
  // evaluations that allow this candidate.
  lemma DesktopAuthorizesIff(evaluations: seq<Evaluation>, digest: string, r: Reference)
    ensures r in DesktopReferences(evaluations, digest) <==>
      (r.policyId == "local-desktop-install" && r.role == "workspace-owner" &&
       exists i, k :: 0 <= i < |evaluations| && 0 <= k < |evaluations[i].requirements| &&
         evaluations[i].id == r.evaluationId && evaluations[i].allowed && evaluations[i].digest == digest &&
         evaluations[i].actor == Actor("policy_evaluator", "local-desktop-policy") &&
         evaluations[i].requirements[k].policyId == "local-desktop-install" &&
         evaluations[i].requirements[k].role == "workspace-owner")
  {
    DesktopReferencesAre(evaluations, digest, r);
    if DesktopLists(evaluations, digest, r) {
      var e :| e in evaluations && IsCurrentLocal(e, digest) && e.id == r.evaluationId && OwnerAmong(e.requirements);
      var i :| 0 <= i < |evaluations| && evaluations[i] == e;
      var q :| q in e.requirements && IsOwnerRequirement(q);
      var k :| 0 <= k < |e.requirements| && e.requirements[k] == q;
    }
    forall i, k | 0 <= i < |evaluations| && 0 <= k < |evaluations[i].requirements|
      ensures evaluations[i] in evaluations && evaluations[i].requirements[k] in evaluations[i].requirements
    {
    }
  }

  lemma RequiresIff(e: Evaluation, r: Reference)
    ensures Requires(e, r) <==>
      (exists k :: 0 <= k < |e.requirements| &&
        e.requirements[k].policyId == r.policyId && e.requirements[k].role == r.role)
  {
    if Requires(e, r) {
      var q :| q in e.requirements && q.policyId == r.policyId && q.role == r.role;
      var k :| 0 <= k < |e.requirements| && e.requirements[k] == q;
    }
    assert forall k :: 0 <= k < |e.requirements| ==> e.requirements[k] in e.requirements;
  }

  // The request was recorded before, under its key.
  predicate IsRecorded(decisions: seq<Decision>, actor: Actor, q: Request) {
    exists i :: 0 <= i < |decisions| && decisions[i].key == q.key && decisions[i].actor == actor &&
      decisions[i].evaluationId == q.evaluationId && decisions[i].policyId == q.policyId && decisions[i].role == q.role
  }

  // A decision on this is waited for: the newest evaluation requires it and the actor has not
  // decided on it.
  predicate IsAwaited(c: ChangeSet, actor: Actor, q: Request) {
    c.status == "awaiting_approval" && |c.evaluations| > 0 &&
    (var e := c.evaluations[|c.evaluations| - 1];
     e.id == q.evaluationId &&
     (exists k :: 0 <= k < |e.requirements| &&
       e.requirements[k].policyId == q.policyId && e.requirements[k].role == q.role) &&
     !HasDecidedOn(c.decisions, actor, q.evaluationId, q.policyId, q.role))
  }

  lemma IsAwaitedIff(c: ChangeSet, actor: Actor, q: Request)
    requires c.evaluations != []
    ensures IsAwaited(c, actor, q) <==>
      c.status == AWAITING && Open(c.evaluations[|c.evaluations| - 1], c.decisions, actor, ReferenceOf(q))
  {
    RequiresIff(c.evaluations[|c.evaluations| - 1], ReferenceOf(q));
    HasDecidedOnIff(c.decisions, actor, q);
  }

  lemma IsRecordedIff(decisions: seq<Decision>, actor: Actor, q: Request)
    ensures IsRepeat(decisions, actor, q) <==> IsRecorded(decisions, actor, q)
  {
    if IsRepeat(decisions, actor, q) {
      var d :| d in decisions && d.key == q.key && d.actor == actor && IsOn(d, ReferenceOf(q));
      var i :| 0 <= i < |decisions| && decisions[i] == d;
    }
    assert forall i :: 0 <= i < |decisions| ==> decisions[i] in decisions;
  }

  lemma OfferedIff(c: ChangeSet, steps: seq<Step>, authorized: seq<Reference>, actor: Actor, q: Request)
    requires Start(c)
    ensures ReferenceOf(q) in Offered(Some(Run(c, steps)), authorized, actor) <==>
      ReferenceOf(q) in authorized && IsAwaited(Run(c, steps), actor, q)
  {
    if Run(c, steps).status == AWAITING {
      OfferIsExact(c, steps, authorized, actor, ReferenceOf(q));
      IsAwaitedIff(Run(c, steps), actor, q);
    }
  }

  // In every run, a request is let through exactly if its actor is authorised on what it is about
  // and it was recorded before or is waited for.
  lemma LetThroughIff(c: ChangeSet, steps: seq<Step>, authorized: seq<Reference>, actor: Actor, q: Request)
    requires Start(c)
    ensures var now := Run(c, steps);
      MayDecide(now, authorized, actor, q) <==>
      (Reference(q.evaluationId, q.policyId, q.role) in authorized &&
       (IsRecorded(now.decisions, actor, q) || IsAwaited(now, actor, q)))
  {
    OfferedIff(c, steps, authorized, actor, q);
    IsRecordedIff(Run(c, steps).decisions, actor, q);
  }

  // The evaluation that approvals are offered for is the newest that allows and asks for something.
  lemma {:induction false} ActiveIsTheNewestAsking(evaluations: seq<Evaluation>) returns (i: int)
    ensures Active(evaluations).Some? ==>
      0 <= i < |evaluations| && Active(evaluations) == Some(evaluations[i]) && evaluations[i].allowed &&
      |evaluations[i].requirements| > 0 &&
      forall j :: i < j < |evaluations| ==> !evaluations[j].allowed || |evaluations[j].requirements| == 0
    ensures Active(evaluations).None? ==>
      forall j :: 0 <= j < |evaluations| ==> !evaluations[j].allowed || |evaluations[j].requirements| == 0
  {
    i := |evaluations| - 1;
    if evaluations != [] && !(evaluations[i].allowed && evaluations[i].requirements != []) {
      var n := i;
      i := ActiveIsTheNewestAsking(evaluations[..n]);
      assert forall j :: 0 <= j < n ==> evaluations[..n][j] == evaluations[j];
    }
  }

  // White space around what a decision says does not count.
  lemma SpacesDoNotCount(c: ChangeSet, q: Request, actor: Actor, ready: bool)
    ensures var trimmed := Request(q.expectedRevision, GoTrim(q.evaluationId), GoTrim(q.policyId), GoTrim(q.role),
        q.approved, GoTrim(q.reason), GoTrim(q.key));
      Resolve(c, q, actor, ready) == ResolveTrimmed(c, trimmed, Actor(GoTrim(actor.kind), GoTrim(actor.id)), ready) &&
      Resolve(c, q, actor, ready) == Resolve(c, trimmed, actor, ready)
  {
    GoTrimIsIdempotent(q.evaluationId);
    GoTrimIsIdempotent(q.policyId);
    GoTrimIsIdempotent(q.role);
    GoTrimIsIdempotent(q.reason);
    GoTrimIsIdempotent(q.key);
  }
}
