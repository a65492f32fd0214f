/**
  The questions about a proposal and the order they are asked in (desktop/src/ProposalReview.tsx).
 */
module Questions {
  import opened Options

  // `other` stands for the parts of an answer no dependency looks at.
  datatype Value = Value(optionIds: seq<string>, skillIds: seq<string>, other: string)

  datatype Answer = Answer(questionId: string, value: Value)

  datatype Dependency = Dependency(questionId: string, requiredOptionIds: seq<string>)

  datatype Question = Question(id: string, priority: int, dependsOn: seq<Dependency>)

  // The answer that counts is the last one given.
  function AnswerTo(answers: seq<Answer>, id: string): Option<Value> {
    if answers == [] then None
    else if answers[|answers| - 1].questionId == id then Some(answers[|answers| - 1].value)
    else AnswerTo(answers[..|answers| - 1], id)
  }

  predicate Met(answers: seq<Answer>, d: Dependency) {
    AnswerTo(answers, d.questionId).Some? &&
    (var v := AnswerTo(answers, d.questionId).value;
     forall id :: id in d.requiredOptionIds ==> id in v.optionIds + v.skillIds)
  }

  predicate Askable(answers: seq<Answer>, q: Question) {
    AnswerTo(answers, q.id).None? && forall d :: d in q.dependsOn ==> Met(answers, d)
  }

  function Askables(questions: seq<Question>, answers: seq<Answer>): seq<Question> {
    if questions == [] then []
    else
      var front, last := Askables(questions[..|questions| - 1], answers), questions[|questions| - 1];
      if Askable(answers, last) then front + [last] else front
  }

  // A stable sort, highest priority first.
  function InsertByPriority(q: Question, sorted: seq<Question>): seq<Question> {
    if sorted == [] || q.priority > sorted[0].priority then [q] + sorted
    else [sorted[0]] + InsertByPriority(q, sorted[1..])
  }

  function ByPriority(questions: seq<Question>): seq<Question> {
    if questions == [] then []
    else InsertByPriority(questions[|questions| - 1], ByPriority(questions[..|questions| - 1]))
  }

  function NextQuestion(questions: seq<Question>, answers: seq<Answer>): Option<Question> {
    var sorted := ByPriority(Askables(questions, answers));
    if sorted == [] then None else Some(sorted[0])
  }

  // ---------------------------------------------------------------- which one it is

  // `q` is of the highest priority, and the first such: nothing before `k` is.
  predicate IsFirstHighest(questions: seq<Question>, k: int, q: Question) {
    0 <= k < |questions| && questions[k] == q &&
    (forall j :: 0 <= j < |questions| ==> questions[j].priority <= q.priority) &&
    (forall j :: 0 <= j < k ==> questions[j].priority < q.priority)
  }

  lemma {:induction false} SortedHead(questions: seq<Question>) returns (k: int)
    requires questions != []
    ensures ByPriority(questions) != [] && IsFirstHighest(questions, k, ByPriority(questions)[0])
  {
    var n := |questions| - 1;
    var front := ByPriority(questions[..n]);
    if n == 0 {
      assert front == [];
      k := 0;
    } else {
      k := SortedHead(questions[..n]);
      if questions[n].priority > front[0].priority {
        k := n;
      }
    }
    InsertedHead(questions[n], front);
  }

  lemma InsertedHead(q: Question, sorted: seq<Question>)
    ensures InsertByPriority(q, sorted) != []
    ensures InsertByPriority(q, sorted)[0] == if sorted == [] || q.priority > sorted[0].priority then q else sorted[0]
  {
  }

  // The answers are a list to which newer ones are added; the newest to a question is what counts.
  predicate IsNewestTo(answers: seq<Answer>, i: int, id: string) {
    0 <= i < |answers| && answers[i].questionId == id &&
    forall j :: i < j < |answers| ==> answers[j].questionId != id
  }

  predicate Unanswered(answers: seq<Answer>, id: string) {
    forall i :: 0 <= i < |answers| ==> answers[i].questionId != id
  }

  // The newest answer to a question has chosen, among the options or the skills, all of these.
  predicate HasChosen(answers: seq<Answer>, id: string, required: seq<string>) {
    exists i :: 0 <= i < |answers| && IsNewestTo(answers, i, id) &&
      forall k :: 0 <= k < |required| ==>
        required[k] in answers[i].value.optionIds || required[k] in answers[i].value.skillIds
  }

  // A question can be asked: nobody has answered it, and whatever it depends on has been answered
  // with what it requires.
  predicate IsOpen(answers: seq<Answer>, q: Question) {
    Unanswered(answers, q.id) &&
    forall k :: 0 <= k < |q.dependsOn| ==>
      HasChosen(answers, q.dependsOn[k].questionId, q.dependsOn[k].requiredOptionIds)
  }

  lemma {:induction false} AnswerToIsNewest(answers: seq<Answer>, id: string) returns (i: int)
    ensures AnswerTo(answers, id).Some? ==>
      IsNewestTo(answers, i, id) && AnswerTo(answers, id).value == answers[i].value
    ensures AnswerTo(answers, id).None? ==> Unanswered(answers, id)
  {
    i := |answers| - 1;
    if answers != [] && answers[i].questionId != id {
      var n := i;
      i := AnswerToIsNewest(answers[..n], id);
      assert forall j :: 0 <= j < n ==> answers[..n][j] == answers[j];
    }
  }

  lemma NewestIsUnique(answers: seq<Answer>, i: int, j: int, id: string)
    requires IsNewestTo(answers, j, id)
    requires AnswerTo(answers, id).Some? ==> IsNewestTo(answers, i, id)
    requires AnswerTo(answers, id).None? ==> Unanswered(answers, id)
    ensures AnswerTo(answers, id).Some? && i == j
  {
    assert answers[j].questionId == id;
    assert AnswerTo(answers, id).Some? ==> answers[i].questionId == id;
  }

  lemma MetIff(answers: seq<Answer>, d: Dependency)
    ensures Met(answers, d) <==> HasChosen(answers, d.questionId, d.requiredOptionIds)
  {
    var i := AnswerToIsNewest(answers, d.questionId);
    if Met(answers, d) {
      forall k | 0 <= k < |d.requiredOptionIds|
        ensures d.requiredOptionIds[k] in answers[i].value.optionIds ||
          d.requiredOptionIds[k] in answers[i].value.skillIds
      {
        assert d.requiredOptionIds[k] in d.requiredOptionIds;
      }
    }
    if HasChosen(answers, d.questionId, d.requiredOptionIds) {
      var j :| IsNewestTo(answers, j, d.questionId) &&
        forall k :: 0 <= k < |d.requiredOptionIds| ==>
          d.requiredOptionIds[k] in answers[j].value.optionIds || d.requiredOptionIds[k] in answers[j].value.skillIds;
      NewestIsUnique(answers, i, j, d.questionId);
    }
  }

  lemma AskableIff(answers: seq<Answer>, q: Question)
    ensures Askable(answers, q) <==> IsOpen(answers, q)
  {
    var i := AnswerToIsNewest(answers, q.id);
    forall d ensures Met(answers, d) <==> HasChosen(answers, d.questionId, d.requiredOptionIds) {
      MetIff(answers, d);
    }
    if IsOpen(answers, q) {
      forall d | d in q.dependsOn ensures Met(answers, d) {
        var k :| 0 <= k < |q.dependsOn| && q.dependsOn[k] == d;
      }
    }
    if Askable(answers, q) {
      forall k | 0 <= k < |q.dependsOn|
        ensures HasChosen(answers, q.dependsOn[k].questionId, q.dependsOn[k].requiredOptionIds)
      {
        assert q.dependsOn[k] in q.dependsOn;
      }
    }
  }

  lemma {:induction false} AskablesInOrder(questions: seq<Question>, answers: seq<Answer>) returns (at: seq<int>)
    ensures |at| == |Askables(questions, answers)|
    ensures forall i :: 0 <= i < |at| ==>
      0 <= at[i] < |questions| && Askables(questions, answers)[i] == questions[at[i]]
    ensures forall i :: 0 <= i < |at| ==> Askable(answers, questions[at[i]])
    ensures forall i, j :: 0 <= i < j < |at| ==> at[i] < at[j]
    ensures forall j :: 0 <= j < |questions| && Askable(answers, questions[j]) ==> j in at
  {
    at := [];
    if questions != [] {
      var n := |questions| - 1;
      at := AskablesInOrder(questions[..n], answers);
      if Askable(answers, questions[n]) {
        at := at + [n];
      }
    }
  }

  lemma NextIsFirstAskable(questions: seq<Question>, answers: seq<Answer>) returns (k: int)
    ensures NextQuestion(questions, answers).None? <==>
      forall j :: 0 <= j < |questions| ==> !Askable(answers, questions[j])
    ensures NextQuestion(questions, answers).Some? ==>
      0 <= k < |questions| && NextQuestion(questions, answers) == Some(questions[k]) &&
      Askable(answers, questions[k]) &&
      forall j :: 0 <= j < |questions| && Askable(answers, questions[j]) ==>
        questions[j].priority <= questions[k].priority && (j < k ==> questions[j].priority < questions[k].priority)
  {
    var askable := Askables(questions, answers);
    var at := AskablesInOrder(questions, answers);
    if askable == [] {
      k := 0;
    } else {
      var first := SortedHead(askable);
      k := at[first];
      forall j | 0 <= j < |questions| && Askable(answers, questions[j])
        ensures questions[j].priority <= questions[k].priority
        ensures (j < k ==> questions[j].priority < questions[k].priority)
      {
        var i :| 0 <= i < |at| && at[i] == j;
        assert askable[i] == questions[j];
      }
    }
  }

  // The next question can be asked, and is the first of the highest priority among those that can;
  // there is none only when none can be.
  lemma NextIsFirstHighest(questions: seq<Question>, answers: seq<Answer>) returns (k: int)
    ensures NextQuestion(questions, answers).None? <==>
      forall j :: 0 <= j < |questions| ==> !IsOpen(answers, questions[j])
    ensures NextQuestion(questions, answers).Some? ==>
      0 <= k < |questions| && NextQuestion(questions, answers) == Some(questions[k]) &&
      IsOpen(answers, questions[k]) &&
      forall j :: 0 <= j < |questions| && IsOpen(answers, questions[j]) ==>
        questions[j].priority <= questions[k].priority && (j < k ==> questions[j].priority < questions[k].priority)
  {
    k := NextIsFirstAskable(questions, answers);
    forall q: Question ensures Askable(answers, q) <==> IsOpen(answers, q) {
      AskableIff(answers, q);
    }
  }

  // ---------------------------------------------------------------- a run of answers

  // Each value answers the question that is next by then.
  function Interview(questions: seq<Question>, values: seq<Value>): seq<Answer> {
    if values == [] then []
    else
      var answers := Interview(questions, values[..|values| - 1]);
      var next := NextQuestion(questions, answers);
      if next.None? then answers else answers + [Answer(next.value.id, values[|values| - 1])]
  }

  lemma {:induction false} Answered(answers: seq<Answer>, id: string)
    ensures AnswerTo(answers, id).Some? <==> exists i :: 0 <= i < |answers| && answers[i].questionId == id
  {
    if answers != [] {
      Answered(answers[..|answers| - 1], id);
      if exists i :: 0 <= i < |answers| && answers[i].questionId == id {
        var i :| 0 <= i < |answers| && answers[i].questionId == id;
        assert i < |answers| - 1 ==> answers[..|answers| - 1][i].questionId == id;
      }
    }
  }

  // Every answer was to a question all of whose dependencies had been answered before with the
  // options they require, the first of the highest priority, and not answered before.
  lemma {:induction false} AnswersRespectDependencies(questions: seq<Question>, values: seq<Value>, i: int)
    returns (k: int)
    requires 0 <= i < |Interview(questions, values)|
    ensures var answers := Interview(questions, values);
      0 <= k < |questions| && questions[k].id == answers[i].questionId &&
      NextQuestion(questions, answers[..i]) == Some(questions[k]) && IsOpen(answers[..i], questions[k]) &&
      forall j :: 0 <= j < i ==> answers[j].questionId != answers[i].questionId
  {
    var answers, before := Interview(questions, values), Interview(questions, values[..|values| - 1]);
    if i < |before| {
      k := AnswersRespectDependencies(questions, values[..|values| - 1], i);
      assert answers[..i] == before[..i];
    } else {
      k := NextIsFirstHighest(questions, before);
      assert answers[..i] == before;
      Answered(before, questions[k].id);
    }
  }

  predicate HasId(questions: seq<Question>, id: string) {
    exists k :: 0 <= k < |questions| && questions[k].id == id
  }

  lemma {:induction false} NoMoreThan(ids: seq<string>, among: seq<Question>)
    requires forall i, j :: 0 <= i < j < |ids| ==> ids[i] != ids[j]
    requires forall i :: 0 <= i < |ids| ==> HasId(among, ids[i])
    ensures |ids| <= |among|
  {
    if ids != [] {
      var n := |ids| - 1;
      var k :| 0 <= k < |among| && among[k].id == ids[n];
      var rest := among[..k] + among[k + 1..];
      forall i | 0 <= i < n ensures HasId(rest, ids[..n][i]) {
        var l :| 0 <= l < |among| && among[l].id == ids[i];
        assert rest[if l < k then l else l - 1].id == ids[i];
      }
      NoMoreThan(ids[..n], rest);
    }
  }

  lemma NoMoreAnswersThanQuestions(questions: seq<Question>, values: seq<Value>)
    ensures |Interview(questions, values)| <= |questions|
  {
    var answers := Interview(questions, values);
    var ids := seq(|answers|, i requires 0 <= i < |answers| => answers[i].questionId);
    forall i | 0 <= i < |ids|
      ensures HasId(questions, ids[i])
      ensures forall j :: 0 <= j < i ==> ids[j] != ids[i]
    {
      var k := AnswersRespectDependencies(questions, values, i);
    }
    NoMoreThan(ids, questions);
  }

  lemma {:induction false} EveryValueIsUsed(questions: seq<Question>, values: seq<Value>)
    ensures NextQuestion(questions, Interview(questions, values)).Some? ==> |Interview(questions, values)| == |values|
  {
    if values != [] {
      EveryValueIsUsed(questions, values[..|values| - 1]);
    }
  }

  // The run is over within the number of questions, and over only when every question that is not
  // answered has a dependency that is not met.
  lemma RunEnds(questions: seq<Question>, values: seq<Value>)
    ensures |values| > |questions| ==> NextQuestion(questions, Interview(questions, values)).None?
    ensures NextQuestion(questions, Interview(questions, values)).None? <==>
      forall j :: 0 <= j < |questions| && Unanswered(Interview(questions, values), questions[j].id) ==>
        exists d :: d in questions[j].dependsOn &&
          !HasChosen(Interview(questions, values), d.questionId, d.requiredOptionIds)
  {
    NoMoreAnswersThanQuestions(questions, values);
    EveryValueIsUsed(questions, values);
    var answers := Interview(questions, values);
    var k := NextIsFirstHighest(questions, answers);
    forall j | 0 <= j < |questions| && Unanswered(answers, questions[j].id)
      ensures IsOpen(answers, questions[j]) <==>
        forall d :: d in questions[j].dependsOn ==> HasChosen(answers, d.questionId, d.requiredOptionIds)
    {
    }
  }
}
