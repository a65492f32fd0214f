/**
  Answering the questions about a proposal over an unreliable network (desktop/src/ProposalReview.tsx),
  with the rules the change-set service applies to answers (pkg/authoring/changeset.go).
 */
module QuestionRuns {
  import opened Options
  import opened Questions

  // `open`: the proposal's status is one in which answers are taken.
  datatype Proposal = Proposal(revision: int, questions: seq<Question>, answers: seq<Answer>, open: bool)

  // What an answer's request says.
  datatype Body = Body(expectedRevision: int, questionId: string, value: Value)

  // The source's fingerprint is the JSON text of the operation and its request, which determines
  // them. There is one pending operation: an answer, or a retry of the generation.
  datatype Fingerprint = OfAnswer(body: Body) | OfRetry(revision: int)

  datatype Pending = Pending(fingerprint: Fingerprint, key: string)

  datatype Request = Request(key: string, body: Body)

  datatype Review = Review(proposal: Proposal, locked: bool, pending: Option<Pending>)

  // How a request ends: with the saved proposal; with a conflict, and perhaps the proposal read
  // again; or otherwise.
  datatype Outcome = Success(saved: Proposal) | Conflict(latest: Option<Proposal>) | Failure

  function Asked(p: Proposal): Option<Question> {
    NextQuestion(p.questions, p.answers)
  }

  // ---------------------------------------------------------------- the component

  predicate CanAnswer(r: Review, allowed: bool) {
    !r.locked && allowed && Asked(r.proposal).Some?
  }

  function BodyOf(r: Review, value: Value): Body
    requires Asked(r.proposal).Some?
  {
    Body(r.proposal.revision, Asked(r.proposal).value.id, value)
  }

  function PendingFor(r: Review, f: Fingerprint, minted: string): Pending {
    if r.pending.Some? && r.pending.value.fingerprint == f then r.pending.value else Pending(f, minted)
  }

  predicate CanRetry(r: Review, allowed: bool) {
    !r.locked && allowed
  }

  // A retry takes the place of the answer that is kept for sending again.
  function RetryBegun(r: Review, minted: string): Review {
    r.(locked := true, pending := Some(PendingFor(r, OfRetry(r.proposal.revision), minted)))
  }

  function Ended(r: Review, outcome: Outcome): Review {
    match outcome
    case Success(p) => Review(p, false, None)
    case Conflict(latest) => r.(locked := false, proposal := if latest.Some? then latest.value else r.proposal)
    case Failure => r.(locked := false)
  }

  class ProposalReview {
    var proposal: Proposal
    var locked: bool
    var pending: Option<Pending>

    function State(): Review
      reads this
    {
      Review(proposal, locked, pending)
    }

    constructor (proposal: Proposal)
      ensures State() == Review(proposal, false, None)
    {
      this.proposal, locked, pending := proposal, false, None;
    }

    // The form is shown for a question, so there is one. `minted` is a new random key.
    method BeginAnswer(value: Value, minted: string, allowed: bool) returns (request: Option<Request>)
      requires Asked(proposal).Some?
      modifies this
      ensures request.Some? == CanAnswer(old(State()), allowed)
      ensures request.None? ==> State() == old(State())
      ensures request.Some? ==>
        var body := BodyOf(old(State()), value);
        var p := PendingFor(old(State()), OfAnswer(body), minted);
        State() == old(State()).(locked := true, pending := Some(p)) && request == Some(Request(p.key, body))
      ensures request.Some? && old(pending).Some? && old(pending).value.fingerprint == OfAnswer(request.value.body) ==>
        request.value.key == old(pending).value.key
    {
      if locked || !allowed {
        return None;
      }
      locked := true;
      var question := NextQuestion(proposal.questions, proposal.answers);
      var body := Body(proposal.revision, question.value.id, value);
      if pending.None? || pending.value.fingerprint != OfAnswer(body) {
        pending := Some(Pending(OfAnswer(body), minted));
      }
      return Some(Request(pending.value.key, body));
    }

    // The key a retry of the generation is sent under.
    method BeginRetry(minted: string, allowed: bool) returns (key: Option<string>)
      modifies this
      ensures key.Some? == CanRetry(old(State()), allowed)
      ensures State() == if key.Some? then RetryBegun(old(State()), minted) else old(State())
      ensures key.Some? ==> pending.Some? && key == Some(pending.value.key) && pending.value.fingerprint.OfRetry?
    {
      if locked || !allowed {
        return None;
      }
      locked := true;
      var fingerprint := OfRetry(proposal.revision);
      if pending.None? || pending.value.fingerprint != fingerprint {
        pending := Some(Pending(fingerprint, minted));
      }
      return Some(pending.value.key);
    }

    method EndAnswer(outcome: Outcome)
      modifies this
      ensures State() == Ended(old(State()), outcome)
    {
      match outcome {
        case Success(saved) =>
          proposal := saved;
          pending := None;
        case Conflict(latest) =>
          if latest.Some? { proposal := latest.value; }
        case Failure =>
      }
      locked := false;
    }
  }

  // ---------------------------------------------------------------- the service

  datatype Reply = Saved | Replayed | KeyConflict | Stale | Closed | NotFound | NotAnswerable | Malformed

  // All the proposals there have been, the last being the current one, and the answer of each key.
  // `fits` says which values have the form a question asks for.
  datatype Server = Server(history: seq<Proposal>, keys: map<string, Answer>, fits: (Question, Value) -> bool)

  function QuestionOf(questions: seq<Question>, id: string): Option<Question> {
    if questions == [] then None else if questions[0].id == id then Some(questions[0])
    else QuestionOf(questions[1..], id)
  }

  function AnswerOf(body: Body): Answer {
    Answer(body.questionId, body.value)
  }

  function ReplyTo(s: Server, q: Request): Reply
    requires s.history != []
  {
    var now := s.history[|s.history| - 1];
    if q.key in s.keys then (if s.keys[q.key] == AnswerOf(q.body) then Replayed else KeyConflict)
    else if now.revision != q.body.expectedRevision then Stale
    else if !now.open then Closed
    else if QuestionOf(now.questions, q.body.questionId).None? then NotFound
    else if AnswerTo(now.answers, q.body.questionId).None? &&
            (Asked(now).None? || Asked(now).value.id != q.body.questionId) then NotAnswerable
    else if !s.fits(QuestionOf(now.questions, q.body.questionId).value, q.body.value) then Malformed
    else Saved
  }

  function Serve(s: Server, q: Request): Server
    requires s.history != []
  {
    if ReplyTo(s, q) != Saved then s
    else
      var now := s.history[|s.history| - 1];
      s.(history := s.history +
        [now.(revision := now.revision + 1, answers := now.answers + [AnswerOf(q.body)], open := false)],
         keys := s.keys[q.key := AnswerOf(q.body)])
  }

  // ---------------------------------------------------------------- runs

  datatype World = World(review: Review, server: Server, sent: seq<Request>, minted: map<string, Body>)

  // Proposals are seen at any age and requests arrive at any time, any number of times. Others
  // (other windows, the generation of proposals, a retry of it) change the proposal in any way.
  datatype Step =
    | See(at: nat)
    | Answers(value: Value, key: string, allowed: bool)
    | Retries(key: string, allowed: bool)
    | Arrives(index: nat)
    | Ends(outcome: Outcome)
    | OthersChange(questions: seq<Question>, answers: seq<Answer>, open: bool)

  predicate HasBeen(s: Server, p: Proposal) {
    p in s.history
  }

  predicate Genuine(s: Server, outcome: Outcome) {
    match outcome
    case Success(p) => HasBeen(s, p)
    case Conflict(latest) => latest.Some? ==> HasBeen(s, latest.value)
    case Failure => true
  }

  function Next(w: World, step: Step): World
    requires w.server.history != []
    ensures Next(w, step).server.history != []
  {
    match step
    case See(at) => if at < |w.server.history| then w.(review := w.review.(proposal := w.server.history[at])) else w
    case Answers(value, key, allowed) =>
      if !CanAnswer(w.review, allowed) then w
      else
        var body := BodyOf(w.review, value);
        var p := PendingFor(w.review, OfAnswer(body), key);
        if p.key in w.minted && w.minted[p.key] != body then w
        else w.(review := w.review.(locked := true, pending := Some(p)),
                sent := w.sent + [Request(p.key, body)], minted := w.minted[p.key := body])
    case Retries(key, allowed) => if CanRetry(w.review, allowed) then w.(review := RetryBegun(w.review, key)) else w
    case Arrives(index) => if index < |w.sent| then w.(server := Serve(w.server, w.sent[index])) else w
    case Ends(outcome) => if w.review.locked && Genuine(w.server, outcome) then w.(review := Ended(w.review, outcome))
      else w
    case OthersChange(questions, answers, open) =>
      var now := w.server.history[|w.server.history| - 1];
      w.(server := w.server.(history := w.server.history + [Proposal(now.revision + 1, questions, answers, open)]))
  }

  function Run(w: World, steps: seq<Step>): World
    requires w.server.history != []
    ensures Run(w, steps).server.history != []
  {
    if steps == [] then w else Next(Run(w, steps[..|steps| - 1]), steps[|steps| - 1])
  }

  predicate Start(w: World) {
    w.server.history != [] && w.review == Review(w.server.history[0], false, None) && |w.server.history| == 1 &&
    w.server.keys == map[] && w.sent == [] && w.minted == map[]
  }

  // ---------------------------------------------------------------- the invariant

  predicate Numbered(history: seq<Proposal>) {
    forall i, j :: 0 <= i < j < |history| ==> history[i].revision < history[j].revision
  }

  // The body answers what was the next question at its revision.
  predicate WasNext(history: seq<Proposal>, body: Body) {
    exists p :: p in history && p.revision == body.expectedRevision && Asked(p).Some? &&
      Asked(p).value.id == body.questionId
  }

  predicate AllWereNext(history: seq<Proposal>, minted: map<string, Body>) {
    forall k :: k in minted ==> WasNext(history, minted[k])
  }

  // One key, one answer: of what was sent, of what was saved, and of what is kept for a retry.
  predicate OneAnswerPerKey(w: World) {
    (forall r :: r in w.sent ==> r.key in w.minted && w.minted[r.key] == r.body) &&
    (forall k :: k in w.server.keys ==> k in w.minted && w.server.keys[k] == AnswerOf(w.minted[k])) &&
    (w.review.pending.Some? && w.review.pending.value.fingerprint.OfAnswer? ==>
      w.review.pending.value.key in w.minted &&
      w.minted[w.review.pending.value.key] == w.review.pending.value.fingerprint.body)
  }

  predicate Inv(w: World) {
    w.server.history != [] && Numbered(w.server.history) && w.review.proposal in w.server.history &&
    AllWereNext(w.server.history, w.minted) && OneAnswerPerKey(w)
  }

  lemma HistoryGrows(history: seq<Proposal>, p: Proposal)
    requires history != [] && Numbered(history) && p.revision == history[|history| - 1].revision + 1
    ensures Numbered(history + [p])
    ensures forall body :: WasNext(history, body) ==> WasNext(history + [p], body)
  {
    forall body | WasNext(history, body) ensures WasNext(history + [p], body) {
      var q :| q in history && q.revision == body.expectedRevision && Asked(q).Some? &&
        Asked(q).value.id == body.questionId;
      assert q in history + [p];
    }
  }

  lemma AnswersKeepsInv(w: World, value: Value, key: string, allowed: bool)
    requires Inv(w)
    ensures Inv(Next(w, Answers(value, key, allowed)))
  {
    if CanAnswer(w.review, allowed) {
      assert WasNext(w.server.history, BodyOf(w.review, value));
      AnswersKeepKeys(w, value, key, allowed);
    }
  }

  lemma AnswersKeepKeys(w: World, value: Value, key: string, allowed: bool)
    requires w.server.history != [] && OneAnswerPerKey(w)
    ensures OneAnswerPerKey(Next(w, Answers(value, key, allowed)))
  {
  }

  lemma AllWereNextGrows(history: seq<Proposal>, p: Proposal, minted: map<string, Body>)
    requires history != [] && Numbered(history) && p.revision == history[|history| - 1].revision + 1
    requires AllWereNext(history, minted)
    ensures Numbered(history + [p]) && AllWereNext(history + [p], minted)
  {
    HistoryGrows(history, p);
  }

  lemma SavedKeepsKeys(w: World, s: Server, r: Request)
    requires OneAnswerPerKey(w) && r in w.sent && s.keys == w.server.keys[r.key := AnswerOf(r.body)]
    ensures OneAnswerPerKey(w.(server := s))
  {
  }

  lemma ServeKeepsInv(w: World, r: Request)
    requires Inv(w) && r in w.sent
    ensures Inv(w.(server := Serve(w.server, r)))
  {
    if ReplyTo(w.server, r) == Saved {
      var now := w.server.history[|w.server.history| - 1];
      AllWereNextGrows(w.server.history,
        now.(revision := now.revision + 1, answers := now.answers + [AnswerOf(r.body)], open := false), w.minted);
      SavedKeepsKeys(w, Serve(w.server, r), r);
    }
  }

  lemma StepKeepsInv(w: World, step: Step)
    requires Inv(w)
    ensures Inv(Next(w, step))
  {
    match step
    case See(_) =>
    case Answers(value, key, allowed) => AnswersKeepsInv(w, value, key, allowed);
    case Retries(_, _) =>
    case Arrives(index) => if index < |w.sent| { ServeKeepsInv(w, w.sent[index]); }
    case Ends(_) =>
    case OthersChange(questions, answers, open) =>
      AllWereNextGrows(w.server.history,
        Proposal(w.server.history[|w.server.history| - 1].revision + 1, questions, answers, open), w.minted);
  }

  lemma {:induction false} RunKeepsInv(w: World, steps: seq<Step>)
    requires Start(w)
    ensures Inv(Run(w, steps))
  {
    if steps != [] {
      RunKeepsInv(w, steps[..|steps| - 1]);
      StepKeepsInv(Run(w, steps[..|steps| - 1]), steps[|steps| - 1]);
    }
  }

  // The answer is saved, confirmed again, or refused as out of date, while no answers are taken, or
  // for its form; it is saved only as the answer to the next question.
  predicate InTurn(s: Server, r: Request)
    requires s.history != []
  {
    var p := s.history[|s.history| - 1];
    ReplyTo(s, r) in {Saved, Replayed, Stale, Closed, Malformed} &&
    (ReplyTo(s, r).Saved? ==>
      Asked(p).Some? && Asked(p).value.id == r.body.questionId && IsOpen(p.answers, Asked(p).value))
  }

  // What was next in the revision there is now is next now.
  lemma WasNextIsNext(history: seq<Proposal>, body: Body)
    requires history != [] && Numbered(history) && WasNext(history, body)
    requires history[|history| - 1].revision == body.expectedRevision
    ensures var now := history[|history| - 1]; Asked(now).Some? && Asked(now).value.id == body.questionId
  {
    var p :| p in history && p.revision == body.expectedRevision && Asked(p).Some? &&
      Asked(p).value.id == body.questionId;
    var i :| 0 <= i < |history| && history[i] == p;
  }

  lemma WasNextIsInTurn(s: Server, r: Request)
    requires s.history != [] && Numbered(s.history) && WasNext(s.history, r.body)
    requires r.key in s.keys ==> s.keys[r.key] == AnswerOf(r.body)
    ensures InTurn(s, r)
  {
    var now := s.history[|s.history| - 1];
    if now.revision == r.body.expectedRevision {
      WasNextIsNext(s.history, r.body);
      AskedIsOpen(now);
    }
  }

  lemma AskedIsOpen(p: Proposal)
    requires Asked(p).Some?
    ensures IsOpen(p.answers, Asked(p).value) && QuestionOf(p.questions, Asked(p).value.id).Some?
  {
    var k := NextIsFirstHighest(p.questions, p.answers);
    QuestionIsFound(p.questions, k);
  }

  lemma {:induction false} QuestionIsFound(questions: seq<Question>, k: int)
    requires 0 <= k < |questions|
    ensures QuestionOf(questions, questions[k].id).Some?
  {
    if questions[0].id != questions[k].id {
      QuestionIsFound(questions[1..], k - 1);
    }
  }

  // Every answer sent, whenever it arrives, is in turn: it is never refused as one to a question
  // that cannot be asked, and no key carries two answers.
  lemma AnswersAreInTurn(w: World, steps: seq<Step>, k: int)
    requires Start(w) && 0 <= k < |Run(w, steps).sent|
    ensures InTurn(Run(w, steps).server, Run(w, steps).sent[k])
  {
    RunKeepsInv(w, steps);
    SentInTurn(Run(w, steps), k);
  }

  lemma SentInTurn(w: World, k: int)
    requires Inv(w) && 0 <= k < |w.sent|
    ensures InTurn(w.server, w.sent[k])
  {
    assert w.sent[k] in w.sent;
    WasNextIsInTurn(w.server, w.sent[k]);
  }

  lemma {:induction false} SavedStays(w: World, steps: seq<Step>)
    requires w.server.history != []
    ensures forall k :: k in w.server.keys ==>
      k in Run(w, steps).server.keys && Run(w, steps).server.keys[k] == w.server.keys[k]
    ensures w.sent <= Run(w, steps).sent
  {
    if steps != [] {
      SavedStays(w, steps[..|steps| - 1]);
      StepKeepsSaved(Run(w, steps[..|steps| - 1]), steps[|steps| - 1]);
    }
  }

  lemma StepKeepsSaved(w: World, step: Step)
    requires w.server.history != []
    ensures forall k :: k in w.server.keys ==>
      k in Next(w, step).server.keys && Next(w, step).server.keys[k] == w.server.keys[k]
    ensures w.sent <= Next(w, step).sent
  {
  }

  // Once an answer is saved, every later arrival of a request under its key, in any run, is
  // confirmed and changes nothing.
  lemma AnsweredOnce(w: World, steps: seq<Step>, more: seq<Step>, k: int)
    requires Start(w) && 0 <= k < |Run(w, steps).sent| && Run(w, steps).sent[k].key in Run(w, steps).server.keys
    ensures var later := Run(Run(w, steps), more);
      k < |later.sent| && later.sent[k] == Run(w, steps).sent[k] &&
      ReplyTo(later.server, later.sent[k]) == Replayed && Next(later, Arrives(k)) == later
  {
    RunKeepsInv(w, steps);
    SavedStays(Run(w, steps), more);
    SavedIsOwn(Run(w, steps), k);
  }

  lemma SavedIsOwn(w: World, k: int)
    requires OneAnswerPerKey(w) && 0 <= k < |w.sent| && w.sent[k].key in w.server.keys
    ensures w.server.keys[w.sent[k].key] == AnswerOf(w.sent[k].body)
  {
    assert w.sent[k] in w.sent;
  }

  function Current(s: Server): Proposal
    requires s.history != []
  {
    s.history[|s.history| - 1]
  }

  lemma {:induction false} RevisionGrows(w: World, steps: seq<Step>)
    requires w.server.history != []
    ensures Current(w.server).revision <= Current(Run(w, steps).server).revision
  {
    if steps != [] {
      RevisionGrows(w, steps[..|steps| - 1]);
      StepRevisionGrows(Run(w, steps[..|steps| - 1]), steps[|steps| - 1]);
    }
  }

  lemma StepRevisionGrows(w: World, step: Step)
    requires w.server.history != []
    ensures Current(w.server).revision <= Current(Next(w, step).server).revision
  {
  }

  // A retry in between makes a repeated answer go out under another key. It is still saved once: of
  // two answers to one revision of the proposal at most one ever is, in any run.
  lemma OneAnswerPerRevision(w: World, q: Request, r: Request, more: seq<Step>)
    requires w.server.history != [] && ReplyTo(w.server, q) == Saved
    requires r.body.expectedRevision == q.body.expectedRevision
    ensures ReplyTo(Run(w.(server := Serve(w.server, q)), more).server, r) != Saved
  {
    RevisionGrows(w.(server := Serve(w.server, q)), more);
  }

  // ---------------------------------------------------------------- exactly when

  lemma LastStep(w: World, steps: seq<Step>, step: Step)
    requires w.server.history != []
    ensures Run(w, steps + [step]) == Next(Run(w, steps), step)
  {
    assert (steps + [step])[..|steps|] == steps;
  }

  // In every run, an answer is sent exactly if nothing is under way, the user may answer, and some
  // question can be asked. It is to the first of the highest priority among these, for the revision
  // shown, and goes out under the key kept for just that answer if there is one.
  lemma AnswerIsSentIff(w: World, steps: seq<Step>, value: Value, key: string, allowed: bool) returns (j: int)
    requires Start(w) && key !in Run(w, steps).minted
    ensures var now, next := Run(w, steps), Run(w, steps + [Answers(value, key, allowed)]);
      var r, p := now.review, now.review.proposal;
      if (!r.locked && allowed && exists k :: 0 <= k < |p.questions| && IsOpen(p.answers, p.questions[k])) then
        0 <= j < |p.questions| && IsOpen(p.answers, p.questions[j]) &&
        (forall k :: 0 <= k < |p.questions| && IsOpen(p.answers, p.questions[k]) ==>
          p.questions[k].priority <= p.questions[j].priority &&
          (k < j ==> p.questions[k].priority < p.questions[j].priority)) &&
        (var body := Body(p.revision, p.questions[j].id, value);
         var kept := r.pending.Some? && r.pending.value.fingerprint == OfAnswer(body);
         var sent := Request(if kept then r.pending.value.key else key, body);
         next.sent == now.sent + [sent] &&
         next.review == Review(p, true, Some(Pending(OfAnswer(body), sent.key))))
      else next == now
  {
    LastStep(w, steps, Answers(value, key, allowed));
    RunKeepsInv(w, steps);
    var p := Run(w, steps).review.proposal;
    j := NextIsFirstHighest(p.questions, p.answers);
  }

  lemma {:induction false} QuestionIsFirst(questions: seq<Question>, id: string) returns (i: int)
    ensures QuestionOf(questions, id).Some? ==>
      0 <= i < |questions| && questions[i].id == id && QuestionOf(questions, id) == Some(questions[i]) &&
      forall j :: 0 <= j < i ==> questions[j].id != id
    ensures QuestionOf(questions, id).None? ==> forall j :: 0 <= j < |questions| ==> questions[j].id != id
  {
    i := 0;
    if questions != [] && questions[0].id != id {
      var n := QuestionIsFirst(questions[1..], id);
      i := n + 1;
      assert forall j :: 1 <= j < |questions| ==> questions[j] == questions[1..][j - 1];
    }
  }

  // What the service makes of an answer that arrives: confirmed or contradicted if its key is
  // known; then too late, not taken now, to no question, out of turn, not fitting; or saved.
  lemma AnswerComesTo(s: Server, q: Request) returns (i: int)
    requires s.history != []
    ensures var now, a := s.history[|s.history| - 1], Answer(q.body.questionId, q.body.value);
      var reply := ReplyTo(s, q);
      if q.key in s.keys then reply == if s.keys[q.key] == a then Replayed else KeyConflict
      else if q.body.expectedRevision != now.revision then reply == Stale
      else if !now.open then reply == Closed
      else if forall j :: 0 <= j < |now.questions| ==> now.questions[j].id != a.questionId then reply == NotFound
      else
        0 <= i < |now.questions| && now.questions[i].id == a.questionId &&
        (forall j :: 0 <= j < i ==> now.questions[j].id != a.questionId) &&
        if Unanswered(now.answers, a.questionId) && !IsNext(now, a.questionId) then reply == NotAnswerable
        else reply == if s.fits(now.questions[i], a.value) then Saved else Malformed
    ensures var now, a := s.history[|s.history| - 1], Answer(q.body.questionId, q.body.value);
      Serve(s, q) ==
        if ReplyTo(s, q) != Saved then s
        else
          var saved := Proposal(now.revision + 1, now.questions, now.answers + [a], false);
          s.(history := s.history + [saved], keys := s.keys[q.key := a])
  {
    var now := s.history[|s.history| - 1];
    i := QuestionIsFirst(now.questions, q.body.questionId);
    var k := AnswerToIsNewest(now.answers, q.body.questionId);
    var n := NextIsFirstHighest(now.questions, now.answers);
    IsNextIff(now, q.body.questionId);
  }

  // The question with this id can be asked, and no other that can be comes before it.
  predicate IsNext(p: Proposal, id: string) {
    exists j :: 0 <= j < |p.questions| && p.questions[j].id == id && ComesNext(p, j)
  }

  predicate ComesNext(p: Proposal, j: int)
    requires 0 <= j < |p.questions|
  {
    IsOpen(p.answers, p.questions[j]) &&
    forall k :: 0 <= k < |p.questions| && IsOpen(p.answers, p.questions[k]) ==>
      p.questions[k].priority <= p.questions[j].priority &&
      (k < j ==> p.questions[k].priority < p.questions[j].priority)
  }

  lemma IsNextIff(p: Proposal, id: string)
    ensures IsNext(p, id) <==> Asked(p).Some? && Asked(p).value.id == id
  {
    var n := NextIsFirstHighest(p.questions, p.answers);
    if IsNext(p, id) {
      var j :| 0 <= j < |p.questions| && p.questions[j].id == id && ComesNext(p, j);
      assert j == n;
    }
    if Asked(p).Some? {
      assert ComesNext(p, n);
    }
  }

  // A saved answer shows the saved proposal and is not kept; a conflict shows the latest proposal
  // if there is one; otherwise what is shown stays. Unless it was saved, the answer and its key are
  // kept to be sent again.
  lemma AnswerEnds(w: World, steps: seq<Step>, outcome: Outcome)
    requires Start(w) && Run(w, steps).review.locked
    requires match outcome
             case Success(p) => p in Run(w, steps).server.history
             case Conflict(p) => p.Some? ==> p.value in Run(w, steps).server.history
             case Failure => true
    ensures var now, next := Run(w, steps), Run(w, steps + [Ends(outcome)]);
      var shown :=
        if outcome.Success? then outcome.saved
        else if outcome.Conflict? && outcome.latest.Some? then outcome.latest.value
        else now.review.proposal;
      next == now.(review := Review(shown, false, if outcome.Success? then None else now.review.pending))
  {
    LastStep(w, steps, Ends(outcome));
  }

  // A retry goes out under a key of its own: the one kept for just that retry, or a new one, which
  // takes the place of what was kept for an answer.
  lemma RetryIsBegunIff(w: World, steps: seq<Step>, key: string, allowed: bool)
    requires Start(w)
    ensures var now, next := Run(w, steps), Run(w, steps + [Retries(key, allowed)]);
      var r, retry := now.review, OfRetry(now.review.proposal.revision);
      if allowed && !r.locked then
        next == now.(review := Review(r.proposal, true,
          if r.pending.Some? && r.pending.value.fingerprint == retry then r.pending else Some(Pending(retry, key))))
      else next == now
  {
    LastStep(w, steps, Retries(key, allowed));
  }
}
