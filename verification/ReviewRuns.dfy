/**
  Runs of an action review: polls and manual loads in any number and order, stale and failed
  responses, property changes, ticks, edits, decisions and their lost or late answers.
 */
module ReviewRuns {
  import opened Options
  import opened ActionReview
  import opened Text

  // A decision sent, with what was on the screen then and what had been when the user ticked.
  datatype Sent = Sent(request: Request, shown: Content, ticked: Option<Content>)

  // The life of idempotency keys: sent with a decision; dropped because what is shown changed
  // or because the decision was recorded.
  datatype KeyEvent = Used(fingerprint: Fingerprint, key: string) | Dropped

  datatype World = World(
    review: Review, loads: seq<Load>, sent: seq<Sent>, keys: map<string, Fingerprint>, log: seq<KeyEvent>)

  datatype Step =
    | BeginLoad
    | EndLoad(index: nat, found: Option<Content>)
    | Props(id: string, run: Run, canResolve: bool)
    | Clock(now: int)
    | Tick(value: bool)
    | Choose(choice: Option<Decision>)
    | SetReason(reason: string)
    | Decide(minted: string)
    | EndDecide(answer: Option<Content>, runId: string)

  function Begin(w: World, r: Review, begins: bool): World {
    w.(review := r, loads := if begins then w.loads + [Load(r.epoch, r.id, r.run.id)] else w.loads)
  }

  // Whether the kept key serves this decision too; otherwise a generated key, new, is taken.
  predicate Reuses(r: Review)
    requires CanDecide(r)
  {
    r.pending.Some? && r.pending.value.fingerprint == FingerprintOf(r)
  }

  function Next(w: World, step: Step): World {
    var r := w.review;
    match step
    case BeginLoad => Begin(w, LoadBegun(r), CanLoad(r))
    case EndLoad(index, found) =>
      if index >= |w.loads| then w
      else
        var next := if found.Some? then LoadAnswered(r, w.loads[index], found.value) else LoadFailed(r, w.loads[index]);
        w.(review := next, log := if r.pending.Some? && next.pending.None? then w.log + [Dropped] else w.log)
    case Props(id, run, canResolve) =>
      Begin(w, PropsChanged(r, id, run, canResolve), id != r.id && id != "" && r.deciding.None?)
    case Clock(now) => w.(review := r.(now := now))
    case Tick(value) => w.(review := TickedTo(r, value))
    case Choose(choice) => w.(review := ChosenTo(r, choice))
    case SetReason(reason) => w.(review := ReasonSet(r, reason))
    case Decide(minted) =>
      if !CanDecide(r) || (minted in w.keys && !Reuses(r)) then w
      else
        var p := PendingFor(r, minted);
        w.(review := DecisionBegun(r, minted),
           sent := w.sent + [Sent(RequestFor(r, minted), r.content.value, r.ticked)],
           keys := w.keys[p.key := p.fingerprint], log := w.log + [Used(p.fingerprint, p.key)])
    case EndDecide(answer, runId) =>
      if r.deciding.None? then w
      else
        var next := if answer.Some? then DecisionAnswered(r, answer.value, runId) else DecisionFailed(r);
        w.(review := next, log := if r.pending.Some? && next.pending.None? then w.log + [Dropped] else w.log)
  }

  function Run(w: World, steps: seq<Step>): World {
    if steps == [] then w else Next(Run(w, steps[..|steps| - 1]), steps[|steps| - 1])
  }

  predicate Start(w: World) {
    w.review == Mounted(w.review.id, w.review.run, w.review.canResolve, w.review.now) &&
    w.loads == [] && w.sent == [] && w.keys == map[] && w.log == []
  }

  // ---------------------------------------------------------------- the invariant

  predicate ReviewOk(r: Review) {
    r.signature == r.content && (r.reviewed ==> r.content.Some? && r.ticked == r.content)
  }

  // The load whose response still counts is the newest one, for the id shown now, and no decision
  // is under way.
  predicate LoadsOk(w: World) {
    forall i :: 0 <= i < |w.loads| ==>
      w.loads[i].request <= w.review.epoch &&
      (w.loads[i].request == w.review.epoch ==> w.loads[i].id == w.review.id && w.review.deciding.None?) &&
      forall j :: i < j < |w.loads| ==> w.loads[i].request < w.loads[j].request
  }

  predicate SentOk(keys: map<string, Fingerprint>, s: Sent) {
    s.ticked == Some(s.shown) && s.request.id == s.shown.approval.id &&
    s.request.expectedRevision == s.shown.approval.revision && s.request.decisionId == s.request.key &&
    s.request.key in keys &&
    keys[s.request.key] == Fingerprint(s.request.id, s.request.expectedRevision, s.request.decision, s.request.reason)
  }

  predicate KeysOk(w: World) {
    (w.review.pending.Some? ==>
       w.log != [] && w.log[|w.log| - 1] == Used(w.review.pending.value.fingerprint, w.review.pending.value.key)) &&
    (w.review.pending.None? ==> w.log == [] || w.log[|w.log| - 1].Dropped?) &&
    (forall i :: 0 <= i < |w.log| && w.log[i].Used? ==>
      w.log[i].key in w.keys && w.keys[w.log[i].key] == w.log[i].fingerprint) &&
    (forall i :: 0 <= i < |w.log| - 1 && w.log[i].Used? && w.log[i + 1].Used? ==>
      w.log[i].fingerprint == w.log[i + 1].fingerprint ==> w.log[i].key == w.log[i + 1].key)
  }

  predicate Inv(w: World) {
    ReviewOk(w.review) && LoadsOk(w) && (forall s :: s in w.sent ==> SentOk(w.keys, s)) && KeysOk(w)
  }

  lemma DecideKeepsInv(w: World, minted: string)
    requires Inv(w)
    ensures Inv(Next(w, Decide(minted)))
  {
    var w' := Next(w, Decide(minted));
    if w' != w {
      forall s | s in w'.sent ensures SentOk(w'.keys, s) {
        if s in w.sent {
          assert SentOk(w.keys, s);
        }
      }
    }
  }

  // An answer keeps the view in order, the epoch and the id, and at most drops the pending key.
  predicate Settles(r: Review, next: Review) {
    ReviewOk(next) && next.epoch == r.epoch && next.id == r.id &&
    (next.deciding == r.deciding || next.deciding.None?) &&
    (next.pending == r.pending || next.pending.None?)
  }

  lemma LoadSettles(r: Review, load: Load, found: Option<Content>)
    requires ReviewOk(r)
    ensures Settles(r, if found.Some? then LoadAnswered(r, load, found.value) else LoadFailed(r, load))
  {
  }

  lemma DecisionSettles(r: Review, answer: Option<Content>, runId: string)
    requires ReviewOk(r) && r.deciding.Some?
    ensures Settles(r, if answer.Some? then DecisionAnswered(r, answer.value, runId) else DecisionFailed(r))
  {
  }

  lemma SettledKeepsInv(w: World, next: Review)
    requires Inv(w) && Settles(w.review, next)
    ensures var log := if w.review.pending.Some? && next.pending.None? then w.log + [Dropped] else w.log;
      Inv(w.(review := next, log := log))
  {
    var log := if w.review.pending.Some? && next.pending.None? then w.log + [Dropped] else w.log;
    var w' := w.(review := next, log := log);
    assert KeysOk(w');
    assert LoadsOk(w');
  }

  lemma EndLoadKeepsInv(w: World, index: nat, found: Option<Content>)
    requires Inv(w)
    ensures Inv(Next(w, EndLoad(index, found)))
  {
    if index < |w.loads| {
      LoadSettles(w.review, w.loads[index], found);
      SettledKeepsInv(w, if found.Some? then LoadAnswered(w.review, w.loads[index], found.value)
        else LoadFailed(w.review, w.loads[index]));
    }
  }

  lemma EndDecideKeepsInv(w: World, answer: Option<Content>, runId: string)
    requires Inv(w)
    ensures Inv(Next(w, EndDecide(answer, runId)))
  {
    if w.review.deciding.Some? {
      DecisionSettles(w.review, answer, runId);
      SettledKeepsInv(w, if answer.Some? then DecisionAnswered(w.review, answer.value, runId)
        else DecisionFailed(w.review));
    }
  }

  lemma LoadOrPropsKeepsInv(w: World, step: Step)
    requires Inv(w) && (step.BeginLoad? || step.Props?)
    ensures Inv(Next(w, step))
  {
  }

  lemma FormKeepsInv(w: World, step: Step)
    requires Inv(w) && (step.Clock? || step.Tick? || step.Choose? || step.SetReason?)
    ensures Inv(Next(w, step))
  {
  }

  lemma StepKeepsInv(w: World, step: Step)
    requires Inv(w)
    ensures Inv(Next(w, step))
  {
    match step
    case Decide(minted) => DecideKeepsInv(w, minted);
    case EndLoad(index, found) => EndLoadKeepsInv(w, index, found);
    case EndDecide(answer, runId) => EndDecideKeepsInv(w, answer, runId);
    case BeginLoad => LoadOrPropsKeepsInv(w, step);
    case Props(_, _, _) => LoadOrPropsKeepsInv(w, step);
    case _ => FormKeepsInv(w, step);
  }

  lemma {:induction false} RunKeepsInv(w: World, steps: seq<Step>)
    requires Inv(w)
    ensures Inv(Run(w, steps))
  {
    if steps != [] {
      RunKeepsInv(w, steps[..|steps| - 1]);
      StepKeepsInv(Run(w, steps[..|steps| - 1]), steps[|steps| - 1]);
    }
  }

  // ---------------------------------------------------------------- results

  // Consent binds content. In every interleaving, a decision that is sent names the id and the
  // revision of exactly the approval-and-call pair the user was shown when ticking the box, and
  // that pair is still the one on the screen.
  lemma ConsentBindsContent(w: World, steps: seq<Step>, s: Sent)
    requires Start(w) && s in Run(w, steps).sent
    ensures s.ticked == Some(s.shown)
    ensures s.request.id == s.shown.approval.id && s.request.expectedRevision == s.shown.approval.revision
  {
    RunKeepsInv(w, steps);
    assert SentOk(Run(w, steps).keys, s);
  }

  // One idempotency key never carries two requests.
  lemma OneKeyOneBody(w: World, steps: seq<Step>, s: Sent, t: Sent)
    requires Start(w) && s in Run(w, steps).sent && t in Run(w, steps).sent && s.request.key == t.request.key
    ensures s.request == t.request
  {
    RunKeepsInv(w, steps);
    assert SentOk(Run(w, steps).keys, s) && SentOk(Run(w, steps).keys, t);
  }

  // An unchanged retry reuses the key: two decisions in a row with the same fingerprint go out
  // under the same key, unless in between what is shown changed or the decision was recorded.
  lemma UnchangedRetryReusesTheKey(w: World, steps: seq<Step>, i: nat)
    requires Start(w) && i + 1 < |Run(w, steps).log|
    requires Run(w, steps).log[i].Used? && Run(w, steps).log[i + 1].Used?
    requires Run(w, steps).log[i].fingerprint == Run(w, steps).log[i + 1].fingerprint
    ensures Run(w, steps).log[i].key == Run(w, steps).log[i + 1].key
  {
    RunKeepsInv(w, steps);
  }

  // A response changes the view only if it is the newest load's, for the id shown now, with no
  // decision under way; then what it shows belongs to that id.
  lemma StaleResponsesChangeNothing(w: World, steps: seq<Step>, index: nat, found: Option<Content>)
    requires Start(w) && index < |Run(w, steps).loads|
    ensures var before := Run(w, steps);
      var after := Next(before, EndLoad(index, found));
      after.review != before.review ==>
        before.loads[index].id == before.review.id && before.review.deciding.None? &&
        (forall j :: 0 <= j < |before.loads| && j != index ==> before.loads[j].request < before.loads[index].request) &&
        (after.review.content != before.review.content ==>
           after.review.content.Some? && after.review.content.value.approval.id == before.review.id)
  {
    RunKeepsInv(w, steps);
  }

  // At first nothing is shown, chosen, ticked, written, under way or wrong.
  lemma StartsWithNothing(w: World)
    requires Start(w)
    ensures var r := w.review;
      r.content.None? && r.signature.None? && r.choice.None? && r.reason == "" && r.pending.None? &&
      r.deciding.None? && r.ticked.None? && !(r.error || r.loading || r.reviewed) && r.epoch == 0
  {
  }

  // ---------------------------------------------------------------- when a decision goes out

  lemma LastStep(w: World, steps: seq<Step>, step: Step)
    ensures Run(w, steps + [step]) == Next(Run(w, steps), step)
  {
    assert (steps + [step])[..|steps|] == steps;
  }

  ghost predicate SomethingWritten(s: string) {
    exists c :: c in s && !IsSpace(c)
  }

  // Behind every decision that is sent: the approval shown is the one this task waits for, pending,
  // before its deadline, and this user may decide on it; the form says what and has been reviewed.
  lemma EveryDecisionIsOpen(w: World, steps: seq<Step>, step: Step)
    requires Run(w, steps + [step]).sent != Run(w, steps).sent
    ensures step.Decide? && Run(w, steps).review.content.Some?
    ensures var r := Run(w, steps).review;
      var approval, call := r.content.value.approval, r.content.value.action;
      approval.id == r.id && approval.status == "pending" && call.status == "waiting_for_approval" &&
      r.run.status == "waiting_for_approval" && r.run.waitsOn == Some(approval.id) && r.canResolve
    ensures var r := Run(w, steps).review;
      var approval := r.content.value.approval;
      approval.deadline.Some? && r.now < approval.deadline.value &&
      (Principal("user", "local-operator") in approval.eligibleApprovers ||
       Principal("role", "operator") in approval.eligibleApprovers)
    ensures var r := Run(w, steps).review;
      r.choice.Some? && r.reviewed && r.deciding.None? && !r.loading && !r.error &&
      (r.choice == Some(RequestChanges) ==> SomethingWritten(r.reason))
  {
    LastStep(w, steps, step);
    OnlyDecidingSends(Run(w, steps), step);
    BlankIff(Run(w, steps).review.reason);
  }

  lemma OnlyDecidingSends(w: World, step: Step)
    requires Next(w, step).sent != w.sent
    ensures step.Decide? && CanDecide(w.review)
  {
  }

  // And whenever all of that holds it goes out, with what is shown and written, under the key kept
  // for exactly this decision if there is one and the generated key otherwise.
  lemma OpenDecisionGoesOut(w: World, steps: seq<Step>, minted: string)
    requires Start(w) && minted !in Run(w, steps).keys && Run(w, steps).review.content.Some?
    requires var r := Run(w, steps).review;
      var approval, call := r.content.value.approval, r.content.value.action;
      approval.id == r.id && approval.status == "pending" && call.status == "waiting_for_approval" &&
      r.run.status == "waiting_for_approval" && r.run.waitsOn == Some(approval.id) && r.canResolve &&
      approval.deadline.Some? && r.now < approval.deadline.value &&
      (Principal("user", "local-operator") in approval.eligibleApprovers ||
       Principal("role", "operator") in approval.eligibleApprovers)
    requires var r := Run(w, steps).review;
      r.choice.Some? && r.reviewed && r.deciding.None? && !r.loading && !r.error &&
      (r.choice == Some(RequestChanges) ==> SomethingWritten(r.reason))
    ensures var now, next := Run(w, steps), Run(w, steps + [Decide(minted)]);
      var r, approval := now.review, now.review.content.value.approval;
      var f := Fingerprint(approval.id, approval.revision, r.choice.value, Trim(r.reason));
      var key := if r.pending.Some? && r.pending.value.fingerprint == f then r.pending.value.key else minted;
      next.sent == now.sent +
        [Sent(ActionReview.Request(f.id, key, f.revision, key, f.decision, f.reason), r.content.value, r.content)] &&
      next.review == r.(pending := Some(Pending(f, key)), deciding := Some(Deciding(r.id, r.run.id)),
                        epoch := next.review.epoch)
  {
    LastStep(w, steps, Decide(minted));
    RunKeepsInv(w, steps);
    BlankIff(Run(w, steps).review.reason);
  }

  // ---------------------------------------------------------------- what consent covers

  // The answer of the newest load, and that it is not the approval and the call of this task.
  predicate NewestFails(w: World, step: Step) {
    step.EndLoad? && step.index < |w.loads| && w.loads[step.index].request == w.review.epoch &&
    (step.found.None? ||
     (var approval, call, load := step.found.value.approval, step.found.value.action, w.loads[step.index];
      approval.id != load.id || approval.runId != load.runId || call.runId != load.runId ||
      call.id != approval.actionCallId || call.approvalId != approval.id))
  }

  predicate Reviewed(w: World, content: Option<Content>) {
    w.review.reviewed && w.review.content == content
  }

  // From after step j on: reviewed, of one content, and no failing load.
  predicate ReviewedFrom(w: World, steps: seq<Step>, j: nat, content: Option<Content>) {
    (forall k :: j < k <= |steps| ==> Reviewed(Run(w, steps[..k]), content)) &&
    (forall k :: j < k < |steps| ==> !NewestFails(Run(w, steps[..k]), steps[k]))
  }

  lemma ReviewedLonger(w: World, steps: seq<Step>, n: nat, j: nat, end: World)
    requires j < n == |steps| - 1 && ReviewedFrom(w, steps[..n], j, end.review.content)
    requires Reviewed(Run(w, steps), end.review.content) && !NewestFails(Run(w, steps[..n]), steps[n])
    ensures ReviewedFrom(w, steps, j, end.review.content)
  {
    forall k | j < k <= |steps| ensures Reviewed(Run(w, steps[..k]), end.review.content) {
      if k <= n {
        assert steps[..n][..k] == steps[..k];
        assert Reviewed(Run(w, steps[..n][..k]), end.review.content);
      } else {
        assert steps[..k] == steps;
      }
    }
    forall k | j < k < |steps| ensures !NewestFails(Run(w, steps[..k]), steps[k]) {
      if k < n {
        assert steps[..n][..k] == steps[..k];
        assert !NewestFails(Run(w, steps[..n][..k]), steps[..n][k]);
      }
    }
  }

  lemma AnswerLeavesReviewed(w: World, step: Step)
    requires ReviewOk(w.review) && Next(w, step).review.reviewed && (step.EndLoad? || step.EndDecide?)
    ensures w.review.reviewed && w.review.content == Next(w, step).review.content && !NewestFails(w, step)
  {
  }

  lemma PropsLeaveReviewed(w: World, step: Step)
    requires Next(w, step).review.reviewed && (step.BeginLoad? || step.Props? || step.Decide?)
    ensures w.review.reviewed && w.review.content == Next(w, step).review.content
  {
  }

  lemma StaysReviewed(w: World, step: Step)
    requires ReviewOk(w.review) && Next(w, step).review.reviewed && (step != Tick(true) || Next(w, step) == w)
    ensures w.review.reviewed && w.review.content == Next(w, step).review.content && !NewestFails(w, step)
  {
    if step.EndLoad? || step.EndDecide? {
      AnswerLeavesReviewed(w, step);
    } else if step.BeginLoad? || step.Props? || step.Decide? {
      PropsLeaveReviewed(w, step);
    }
  }

  // What is reviewed was ticked, and has been on the screen unchanged and without a failing load
  // ever since.
  lemma {:induction false} ReviewedSince(w: World, steps: seq<Step>) returns (j: nat)
    requires Start(w) && Run(w, steps).review.reviewed
    ensures j < |steps| && steps[j] == Tick(true) && ReviewedFrom(w, steps, j, Run(w, steps).review.content)
  {
    var n := |steps| - 1;
    var before := Run(w, steps[..n]);
    if steps[n] == Tick(true) && Run(w, steps) != before {
      j := n;
      assert steps[..|steps|] == steps;
    } else {
      RunKeepsInv(w, steps[..n]);
      StaysReviewed(before, steps[n]);
      j := ReviewedSince(w, steps[..n]);
      ReviewedLonger(w, steps, n, j, Run(w, steps));
    }
  }

  // ---------------------------------------------------------------- what the other steps do

  // Each load is for the id shown, and counts for as long as no other load is begun, no decision is
  // sent and the id stays: those, and nothing else, are what outdates it.
  lemma OutdatedIff(w: World, steps: seq<Step>, step: Step)
    ensures var now, next := Run(w, steps), Run(w, steps + [step]);
      var r := now.review;
      next.review.epoch >= r.epoch &&
      (next.review.epoch > r.epoch <==>
        (step.BeginLoad? && r.id != "" && r.deciding.None?) || (step.Props? && step.id != r.id) ||
        next.sent != now.sent)
    ensures var now, next := Run(w, steps), Run(w, steps + [step]);
      var begins := (step.BeginLoad? || (step.Props? && step.id != now.review.id)) &&
        next.review.id != "" && now.review.deciding.None?;
      next.loads == now.loads +
        if begins then [Load(next.review.epoch, next.review.id, next.review.run.id)] else []
    ensures var now, next := Run(w, steps), Run(w, steps + [step]);
      next.review.loading && !now.review.loading ==> next.loads != now.loads
    ensures var now, next := Run(w, steps), Run(w, steps + [step]);
      next.loads != now.loads ==> next.review.loading
  {
    LastStep(w, steps, step);
    OutdatedBy(Run(w, steps), step);
  }

  lemma OutdatedBy(w: World, step: Step)
    ensures Next(w, step).review.epoch >= w.review.epoch
    ensures Next(w, step).review.epoch > w.review.epoch <==>
      (step.BeginLoad? && w.review.id != "" && w.review.deciding.None?) || (step.Props? && step.id != w.review.id) ||
      Next(w, step).sent != w.sent
    ensures var begins := (step.BeginLoad? || (step.Props? && step.id != w.review.id)) &&
        Next(w, step).review.id != "" && w.review.deciding.None?;
      Next(w, step).loads == w.loads +
        if begins then [Load(Next(w, step).review.epoch, Next(w, step).review.id, Next(w, step).review.run.id)] else []
    ensures Next(w, step).review.loading && !w.review.loading ==> Next(w, step).loads != w.loads
    ensures Next(w, step).loads != w.loads ==> Next(w, step).review.loading
  {
    if step.Decide? && Next(w, step) != w {
      assert |Next(w, step).sent| == |w.sent| + 1;
    }
  }

  // An outdated answer changes nothing. One that counts is shown if it is the approval and the call
  // of this task, and then what was chosen, reviewed and kept for sending again stays exactly if it
  // is what was shown; otherwise there is an error, and nothing is chosen or reviewed any longer.
  lemma LoadAnswerDoes(w: World, steps: seq<Step>, index: nat, found: Option<Content>)
    requires Start(w) && index < |Run(w, steps).loads|
    ensures var now, next := Run(w, steps), Run(w, steps + [EndLoad(index, found)]);
      var r := now.review;
      if now.loads[index].request != r.epoch then next == now
      else if NewestFails(now, EndLoad(index, found)) then
        next == now.(review := r.(error := true, choice := None, reviewed := false, loading := false))
      else if r.content.None? || r.content == found then
        next == now.(review := r.(content := found, signature := found, error := false, loading := false))
      else
        next.review == r.(content := found, signature := found, error := false, loading := false,
                          choice := None, reviewed := false, pending := None) &&
        next.sent == now.sent && next.loads == now.loads && next.keys == now.keys
  {
    LastStep(w, steps, EndLoad(index, found));
    RunKeepsInv(w, steps);
  }

  // The answer to a decision is shown if it is of the approval and the task the decision was for,
  // and then the form starts anew. Otherwise there is an error, and the form and the key stay, so
  // that the same decision can be sent again as the same request.
  lemma DecisionAnswerDoes(w: World, steps: seq<Step>, answer: Option<Content>, runId: string)
    requires Start(w) && Run(w, steps).review.deciding.Some?
    ensures var now, next := Run(w, steps), Run(w, steps + [EndDecide(answer, runId)]);
      var r, d := now.review, now.review.deciding.value;
      if answer.Some? && answer.value.approval.id == d.approvalId && runId == d.runId then
        next.review == r.(content := answer, signature := answer, choice := None, reviewed := false,
                          pending := None, deciding := None)
      else next == now.(review := r.(error := true, deciding := None))
  {
    LastStep(w, steps, EndDecide(answer, runId));
  }

  // The form follows the user while the approval can be decided on: the box can be ticked while
  // nothing is under way; a decision is chosen only when reviewed, and taken back, as words are
  // written, unless it is being sent.
  lemma FormDoes(w: World, steps: seq<Step>, step: Step)
    requires step.Tick? || step.Choose? || step.SetReason?
    ensures var now, next := Run(w, steps), Run(w, steps + [step]);
      var r := now.review;
      next == now.(review := next.review) &&
      match step
      case Tick(value) =>
        next.review ==
          if Allowed(r) && r.deciding.None? && !r.loading && value then r.(reviewed := true, ticked := r.content)
          else if Allowed(r) && r.deciding.None? && !r.loading then r.(reviewed := false)
          else r
      case Choose(Some(d)) =>
        next.review ==
          if Allowed(r) && r.choice.None? && r.reviewed && !r.loading && !r.error then r.(choice := Some(d)) else r
      case Choose(None) => next.review == if Allowed(r) && r.deciding.None? then r.(choice := None) else r
      case SetReason(reason) => next.review == if Allowed(r) && r.deciding.None? then r.(reason := reason) else r
      case _ => true
  {
    LastStep(w, steps, step);
  }
}
