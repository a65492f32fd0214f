/**
  Runs of one composer slot: edits, sends, lost responses, failed writes, crashes and reopenings,
  over a network that may delay and repeat requests. The server answers a key it has committed
  with the committed message, and a key it refused definitively it never commits
  (pkg/runtime/conversation_service.go:325-359 looks the key up first, and a stale revision stays stale).
 */
module ComposerRuns {
  import opened Options
  import opened Composer
  import opened Text

  datatype Verdict = Committed(body: string) | Refused

  // What a generated key was made for: the text, the body, and which composed draft it was,
  // counting the drafts cleared from the device before it.
  datatype Made = Made(text: string, body: string, number: nat)

  datatype World = World(
    slot: Option<Draft>, component: Option<Component>, posts: seq<Attempt>, server: map<string, Verdict>,
    made: map<string, Made>, confirmed: set<string>, cleared: nat)

  datatype Step =
    | Mount
    | Crash
    | Edit(text: string, ok: bool)
    | Submit(minted: Attempt, enabled: bool, ok: bool)
    | Deliver(index: nat, accept: bool)
    | Receive(answer: Answer, ok: bool)

  // An answer is only what the server can say about that key.
  predicate Possible(w: World, key: string, answer: Answer) {
    match answer
    case Success(_) => key in w.server && w.server[key].Committed?
    case Definitive => key in w.server && w.server[key].Refused?
    case Ambiguous => true
  }

  function Next(w: World, step: Step): World {
    match step
    case Mount => if w.component.None? then w.(component := Some(Mounted(w.slot))) else w
    case Crash => w.(component := None)
    case Deliver(index, accept) =>
      if index < |w.posts| && w.posts[index].key !in w.server then
        w.(server := w.server[w.posts[index].key := if accept then Committed(w.posts[index].body) else Refused])
      else w
    case _ => if w.component.None? then w else ComponentStep(w, w.component.value, step)
  }

  function ComponentStep(w: World, c: Component, step: Step): World {
    match step
    case Edit(text, ok) =>
      var r := Edited(w.slot, c, text, ok);
      w.(slot := r.slot, component := Some(r.component))
    case Submit(minted, enabled, ok) =>
      var r := Submitted(w.slot, c, minted, enabled, ok);
      if r.sent.None? || (c.draft.pending.None? && minted.key in w.made) then w
      else
        w.(slot := r.slot, component := Some(r.component), posts := w.posts + [r.sent.value],
           made := if c.draft.pending.Some? then w.made
                   else w.made[minted.key := Made(c.draft.text, minted.body, w.cleared)])
    case Receive(answer, ok) =>
      if c.flight.None? || c.flight.value.pending.None? || !Possible(w, c.flight.value.pending.value.key, answer) then w
      else
        var r := Answered(w.slot, c, answer, ok);
        if answer.Success? && answer.recognised && ok then
          w.(slot := r.slot, component := Some(r.component),
             confirmed := w.confirmed + {c.flight.value.pending.value.key}, cleared := w.cleared + 1)
        else w.(slot := r.slot, component := Some(r.component))
    case _ => w
  }

  function Run(w: World, steps: seq<Step>): World {
    if steps == [] then w else Next(Run(w, steps[..|steps| - 1]), steps[|steps| - 1])
  }

  predicate Start(w: World) {
    w == World(None, None, [], map[], map[], {}, 0)
  }

  // ---------------------------------------------------------------- the invariant

  predicate AttemptOk(w: World, text: string, a: Attempt) {
    a.key in w.made && w.made[a.key].text == text && w.made[a.key].body == a.body
  }

  predicate DraftOk(w: World, d: Draft) {
    |d.text| <= 16000 && (d.pending.Some? ==> AttemptOk(w, d.text, d.pending.value))
  }

  predicate IsRefused(w: World, key: string) {
    key in w.server && w.server[key].Refused?
  }

  // The attempt both the device and the component, if there is one, hold on to.
  predicate Held(w: World, key: string) {
    w.slot.Some? && w.slot.value.pending.Some? && w.slot.value.pending.value.key == key &&
    (w.component.Some? ==> w.component.value.draft == w.slot.value)
  }

  predicate Settled(w: World, key: string) {
    key in w.confirmed || IsRefused(w, key) || (Held(w, key) && key in w.made && w.made[key].number == w.cleared)
  }

  predicate ComponentOk(w: World, c: Component) {
    DraftOk(w, c.draft) &&
    (c.draft.pending.Some? ==> w.slot == Some(c.draft)) &&
    (c.flight.Some? ==> c.flight == Some(c.draft) && c.draft.pending.Some?)
  }

  predicate Inv(w: World) {
    (w.slot.Some? ==> DraftOk(w, w.slot.value)) &&
    (w.component.Some? ==> ComponentOk(w, w.component.value)) &&
    (forall a :: a in w.posts ==> a.key in w.made && w.made[a.key].body == a.body) &&
    (forall k :: k in w.server ==> k in w.made && (w.server[k].Committed? ==> w.server[k].body == w.made[k].body)) &&
    (forall k :: k in w.confirmed ==>
      k in w.made && w.made[k].number < w.cleared && k in w.server && w.server[k].Committed?) &&
    (forall k, l :: k in w.confirmed && l in w.confirmed && k != l ==> w.made[k].number != w.made[l].number) &&
    (forall k :: k in w.made ==> Settled(w, k))
  }

  lemma EditKeepsInv(w: World, text: string, ok: bool)
    requires Inv(w) && w.component.Some?
    ensures Inv(Next(w, Edit(text, ok)))
  {
    var w' := Next(w, Edit(text, ok));
    forall k | k in w'.made ensures Settled(w', k) {
      assert Settled(w, k);
    }
  }

  lemma SubmitKeepsInv(w: World, minted: Attempt, enabled: bool, ok: bool)
    requires Inv(w) && w.component.Some?
    ensures Inv(Next(w, Submit(minted, enabled, ok)))
  {
    var w' := Next(w, Submit(minted, enabled, ok));
    forall k | k in w'.made ensures Settled(w', k) {
      assert k in w.made ==> Settled(w, k);
    }
  }

  lemma ReceiveKeepsInv(w: World, answer: Answer, ok: bool)
    requires Inv(w) && w.component.Some?
    ensures Inv(Next(w, Receive(answer, ok)))
  {
    var c, w' := w.component.value, Next(w, Receive(answer, ok));
    if w' != w {
      var key := c.flight.value.pending.value.key;
      assert Settled(w, key);
      forall k | k in w'.made ensures Settled(w', k) {
        assert Settled(w, k);
      }
    }
  }

  lemma OtherStepKeepsInv(w: World, step: Step)
    requires Inv(w) && (step.Mount? || step.Crash? || step.Deliver?)
    ensures Inv(Next(w, step))
  {
    var w' := Next(w, step);
    forall k | k in w'.made ensures Settled(w', k) {
      assert Settled(w, k);
    }
  }

  lemma StepKeepsInv(w: World, step: Step)
    requires Inv(w)
    ensures Inv(Next(w, step))
  {
    match step
    case Edit(text, ok) => if w.component.Some? { EditKeepsInv(w, text, ok); }
    case Submit(minted, enabled, ok) => if w.component.Some? { SubmitKeepsInv(w, minted, enabled, ok); }
    case Receive(answer, ok) => if w.component.Some? { ReceiveKeepsInv(w, answer, ok); }
    case Mount => OtherStepKeepsInv(w, step);
    case Crash => OtherStepKeepsInv(w, step);
    case Deliver(_, _) => OtherStepKeepsInv(w, step);
  }

  lemma {:induction false} RunKeepsInv(w: World, steps: seq<Step>)
    requires Inv(w)
    ensures Inv(Run(w, steps))
  {
    if steps != [] {
      RunKeepsInv(w, steps[..|steps| - 1]);
      StepKeepsInv(Run(w, steps[..|steps| - 1]), steps[|steps| - 1]);
    }
  }

  // ---------------------------------------------------------------- results

  // At most one message per composed draft: two messages the server committed never belong to
  // the same draft, that is, the device was cleared (after a confirmed post) between them.
  lemma AtMostOneMessagePerDraft(w: World, steps: seq<Step>, k: string, l: string)
    requires Start(w) && k != l
    requires k in Run(w, steps).server && Run(w, steps).server[k].Committed?
    requires l in Run(w, steps).server && Run(w, steps).server[l].Committed?
    ensures k in Run(w, steps).made && l in Run(w, steps).made
    ensures Run(w, steps).made[k].number != Run(w, steps).made[l].number
  {
    RunKeepsInv(w, steps);
    var end := Run(w, steps);
    assert Settled(end, k) && Settled(end, l);
  }

  // The text and the body of a pending attempt never change: wherever it is found, on the device,
  // in the component, on the network or at the server, it is what its key was made for.
  lemma AttemptsNeverChange(w: World, steps: seq<Step>)
    requires Start(w)
    ensures var end := Run(w, steps);
      (end.slot.Some? && end.slot.value.pending.Some? ==>
        AttemptOk(end, end.slot.value.text, end.slot.value.pending.value)) &&
      (end.component.Some? && end.component.value.draft.pending.Some? ==>
         AttemptOk(end, end.component.value.draft.text, end.component.value.draft.pending.value) &&
         end.slot == Some(end.component.value.draft)) &&
      (forall a :: a in end.posts ==> a.key in end.made && a.body == end.made[a.key].body) &&
      (forall m :: m in end.server && end.server[m].Committed? ==>
        m in end.made && end.server[m].body == end.made[m].body)
  {
    RunKeepsInv(w, steps);
  }

  predicate Extends(a: map<string, Made>, b: map<string, Made>) {
    forall k :: k in a ==> k in b && b[k] == a[k]
  }

  // And what a key was made for stays what it was.
  lemma {:induction false} MadeNeverChanges(w: World, steps: seq<Step>, more: seq<Step>)
    ensures Extends(Run(w, steps).made, Run(w, steps + more).made)
  {
    if more == [] {
      assert steps + more == steps;
    } else {
      var front := more[..|more| - 1];
      MadeNeverChanges(w, steps, front);
      assert (steps + more)[..|steps + more| - 1] == steps + front;
      assert (steps + more)[|steps + more| - 1] == more[|more| - 1];
      StepOnlyMakes(Run(w, steps + front), more[|more| - 1]);
    }
  }

  lemma StepOnlyMakes(w: World, step: Step)
    ensures Extends(w.made, Next(w, step).made)
  {
  }

  // ---------------------------------------------------------------- exactly when

  lemma LastStep(w: World, steps: seq<Step>, step: Step)
    ensures Run(w, steps + [step]) == Next(Run(w, steps), step)
  {
    assert (steps + [step])[..|steps|] == steps;
  }

  ghost predicate SomethingWritten(s: string) {
    exists c :: c in s && !IsSpace(c)
  }

  // In every run, a message is sent exactly if none is under way, there is an attempt to repeat or
  // the channel can be written to, something is written, and the device takes the attempt first.
  // What is sent is the attempt there is, or else a new one; nothing else about the text changes.
  lemma MessageIsSentIff(w: World, steps: seq<Step>, minted: Attempt, enabled: bool, ok: bool)
    requires Start(w) && Run(w, steps).component.Some? && minted.key !in Run(w, steps).made
    ensures var now, next := Run(w, steps), Run(w, steps + [Submit(minted, enabled, ok)]);
      var c := now.component.value;
      if (c.flight.None? && (enabled || c.draft.pending.Some?) && SomethingWritten(c.draft.text) && ok) then
        var a := if c.draft.pending.Some? then c.draft.pending.value else minted;
        var d := Draft(c.draft.text, Some(a));
        next.posts == now.posts + [a] && next.slot == Some(d) && next.component == Some(Component(d, Some(d)))
      else next == now
  {
    LastStep(w, steps, Submit(minted, enabled, ok));
    BlankIff(Run(w, steps).component.value.draft.text);
  }

  // Typing changes the text exactly while there is no attempt to repeat, and keeps it on the device
  // if the device takes it.
  lemma TypingCountsIff(w: World, steps: seq<Step>, text: string, ok: bool)
    requires Start(w) && Run(w, steps).component.Some? && |text| <= 16000
    ensures var now, next := Run(w, steps), Run(w, steps + [Edit(text, ok)]);
      if now.component.value.draft.pending.None? then
        next == now.(component := Some(Component(Draft(text, None), None)),
                     slot := if !ok then now.slot else if text == "" then None else Some(Draft(text, None)))
      else next == now
  {
    LastStep(w, steps, Edit(text, ok));
    RunKeepsInv(w, steps);
  }

  predicate HasText(d: Draft) {
    d.pending.Some? ==> d.text != ""
  }

  predicate AllHaveText(w: World) {
    (w.slot.Some? ==> HasText(w.slot.value)) &&
    (w.component.Some? ==>
      HasText(w.component.value.draft) &&
      (w.component.value.flight.Some? ==> HasText(w.component.value.flight.value)))
  }

  lemma {:induction false} AttemptsHaveText(w: World, steps: seq<Step>)
    requires Start(w)
    ensures AllHaveText(Run(w, steps))
  {
    if steps != [] {
      AttemptsHaveText(w, steps[..|steps| - 1]);
      StepKeepsText(Run(w, steps[..|steps| - 1]), steps[|steps| - 1]);
    }
  }

  lemma StepKeepsText(w: World, step: Step)
    requires AllHaveText(w)
    ensures AllHaveText(Next(w, step))
  {
  }

  // An answer that can come clears the text exactly if it confirms the message and the device can
  // be cleared, frees it exactly if it refuses the message for good, and leaves all as it was
  // otherwise, ready to be sent again.
  lemma AnswerDoes(w: World, steps: seq<Step>, answer: Answer, ok: bool)
    requires Start(w) && Run(w, steps).component.Some? && Run(w, steps).component.value.flight.Some?
    requires Run(w, steps).component.value.flight.value.pending.Some?
    requires Possible(Run(w, steps), Run(w, steps).component.value.flight.value.pending.value.key, answer)
    ensures var now, next := Run(w, steps), Run(w, steps + [Receive(answer, ok)]);
      var d := now.component.value.draft;
      if answer == Success(true) && ok then next.component == Some(Component(EMPTY, None)) && next.slot.None?
      else if answer.Definitive? then
        next.component == Some(Component(Draft(d.text, None), None)) &&
        next.slot == if ok then Some(Draft(d.text, None)) else now.slot
      else next.component == Some(Component(d, None)) && next.slot == now.slot == Some(d)
  {
    LastStep(w, steps, Receive(answer, ok));
    RunKeepsInv(w, steps);
    AttemptsHaveText(w, steps);
  }

  // A composer opens with what the slot holds exactly if that is within the limit of a message.
  lemma OpensWithTheSlotIff(slot: Option<Draft>)
    ensures Mounted(slot) ==
      if slot.Some? && |slot.value.text| <= 16000 then Component(slot.value, None) else Component(Draft("", None), None)
  {
  }

  // A write that the device takes leaves the draft in the slot, or nothing if there is neither a text
  // nor an attempt; any other leaves the slot alone.
  lemma SlotHoldsIff(slot: Option<Draft>, next: Draft, ok: bool)
    ensures Stored(slot, next, ok) ==
      if ok && next.text == "" && next.pending.None? then None else if ok then Some(next) else slot
  {
  }

  // Whatever is on the device comes back after a crash; an attempt always does.
  lemma SurvivesACrash(w: World, steps: seq<Step>)
    requires Start(w) && Run(w, steps).component.Some?
    ensures var now := Run(w, steps);
      var c, again := now.component.value, Next(Next(now, Crash), Mount);
      again == now.(component := Some(Component(if now.slot.Some? then now.slot.value else EMPTY, None))) &&
      (c.draft.pending.Some? ==> again.component == Some(Component(c.draft, None)))
  {
    RunKeepsInv(w, steps);
  }
}
