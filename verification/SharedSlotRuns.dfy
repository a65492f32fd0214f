/**
  Runs of several composers on one storage slot (desktop/src/ChannelComposer.tsx), which is written
  without looking at what it holds. When is a text that was composed once sent once?
 */
module SharedSlotRuns {
  import opened Options
  import opened Text
  import opened Composer

  datatype Verdict = Committed | Refused

  // Which composing a draft comes from: every edit is a new one, and it goes along with the text
  // into the slot, into a composer that opens on it, and to the key it is sent under. There have
  // been `count` of them.
  datatype Editing = Editing(state: Component, composing: nat)

  // `slotComposing` is that of what the slot holds.
  datatype World = World(
    slot: Option<Draft>, slotComposing: nat, composers: map<nat, Editing>, posts: seq<Attempt>,
    server: map<string, Verdict>, made: map<string, nat>, count: nat)

  datatype Step =
    | Mount(n: nat)
    | Crash(n: nat)
    | Edit(n: nat, text: string, ok: bool)
    | Submit(n: nat, minted: Attempt, enabled: bool, ok: bool)
    | Deliver(index: nat, accept: bool)
    | Receive(n: nat, answer: Answer, ok: bool)

  predicate Possible(server: map<string, Verdict>, key: string, answer: Answer) {
    match answer
    case Success(_) => key in server && server[key].Committed?
    case Definitive => key in server && server[key].Refused?
    case Ambiguous => true
  }

  function Next(w: World, step: Step): World {
    match step
    case Mount(n) =>
      if n in w.composers then w
      else
        var composing := if w.slot.Some? then w.slotComposing else w.count;
        w.(composers := w.composers[n := Editing(Mounted(w.slot), composing)], count := w.count + 1)
    case Crash(n) => w.(composers := w.composers - {n})
    case Deliver(index, accept) =>
      if index < |w.posts| && w.posts[index].key !in w.server then
        w.(server := w.server[w.posts[index].key := if accept then Committed else Refused])
      else w
    case _ => if step.n !in w.composers then w else ComposerStep(w, step.n, w.composers[step.n], step)
  }

  // A write of what the slot holds already, or of the same draft, keeps its composing.
  function Written(w: World, slot: Option<Draft>, composing: nat): World {
    w.(slot := slot, slotComposing := if slot == w.slot then w.slotComposing else composing)
  }

  function ComposerStep(w: World, n: nat, e: Editing, step: Step): World {
    var c := e.state;
    match step
    case Edit(_, text, ok) =>
      var r := Edited(w.slot, c, text, ok);
      if c.flight.Some? || c.draft.pending.Some? || |text| > 16000 then w
      else
        w.(slot := r.slot, slotComposing := if ok then w.count else w.slotComposing,
           composers := w.composers[n := Editing(r.component, w.count)], count := w.count + 1)
    case Submit(_, minted, enabled, ok) =>
      var r := Submitted(w.slot, c, minted, enabled, ok);
      if r.sent.None? || (c.draft.pending.None? && minted.key in w.made) then w
      else
        var composing := if w.slot == Some(c.draft) then w.slotComposing else e.composing;
        w.(slot := r.slot, slotComposing := composing, composers := w.composers[n := Editing(r.component, composing)],
           posts := w.posts + [r.sent.value], made := if c.draft.pending.Some? then w.made
             else w.made[minted.key := composing])
    case Receive(_, answer, ok) =>
      if c.flight.None? || c.flight.value.pending.None? ||
        !Possible(w.server, c.flight.value.pending.value.key, answer) then w
      else
        var r := Answered(w.slot, c, answer, ok);
        var composing := if w.slot == c.flight then w.slotComposing else e.composing;
        Written(w, r.slot, composing).(composers := w.composers[n := Editing(r.component, composing)])
    case _ => w
  }

  function Run(w: World, steps: seq<Step>): World {
    if steps == [] then w else Next(Run(w, steps[..|steps| - 1]), steps[|steps| - 1])
  }

  const START := World(None, 0, map[], [], map[], map[], 0)

  // ---------------------------------------------------------------- the rule

  // Compare before writing: a composer sends only what the slot holds, and frees the text of a
  // refused attempt only if the slot holds that attempt, or the freed text already. Each can be
  // checked by reading the slot. Editing, and clearing after a success, need no check.
  predicate Follows(w: World, step: Step) {
    match step
    case Submit(n, minted, enabled, ok) =>
      n in w.composers && Submitted(w.slot, w.composers[n].state, minted, enabled, ok).sent.Some? ==>
        w.slot == Some(w.composers[n].state.draft)
    case Receive(n, answer, _) =>
      n in w.composers && answer.Definitive? && w.composers[n].state.flight.Some? ==>
        w.slot == w.composers[n].state.flight || w.slot == Some(Draft(w.composers[n].state.flight.value.text, None))
    case _ => true
  }

  predicate FollowsAll(w: World, steps: seq<Step>) {
    steps == [] || (FollowsAll(w, steps[..|steps| - 1]) && Follows(Run(w, steps[..|steps| - 1]), steps[|steps| - 1]))
  }

  // ---------------------------------------------------------------- the invariant

  predicate IsRefused(server: map<string, Verdict>, key: string) {
    key in server && server[key].Refused?
  }

  // All attempts at sending a composing have been refused, except perhaps this one.
  predicate AllRefused(w: World, composing: nat, but: Option<string>) {
    forall k :: k in w.made && w.made[k] == composing && Some(k) != but ==> IsRefused(w.server, k)
  }

  predicate SlotOk(w: World) {
    w.slot.Some? ==>
      w.slotComposing < w.count &&
      (if w.slot.value.pending.None? then AllRefused(w, w.slotComposing, None)
       else
         var key := w.slot.value.pending.value.key;
         key in w.made && w.made[key] == w.slotComposing && AllRefused(w, w.slotComposing, Some(key)))
  }

  predicate OneLiveEach(w: World) {
    forall k, l :: k in w.made && l in w.made && k != l && w.made[k] == w.made[l] ==>
      IsRefused(w.server, k) || IsRefused(w.server, l)
  }

  predicate ComposersOk(w: World) {
    forall n :: n in w.composers ==>
      w.composers[n].composing < w.count &&
      (w.composers[n].state.draft.pending.Some? ==> w.composers[n].state.draft.pending.value.key in w.made) &&
      (w.composers[n].state.flight.Some? ==>
        w.composers[n].state.flight == Some(w.composers[n].state.draft) && w.composers[n].state.draft.pending.Some?)
  }

  predicate Inv(w: World) {
    SlotOk(w) && OneLiveEach(w) && ComposersOk(w) && (forall k :: k in w.made ==> w.made[k] < w.count) &&
    (forall a :: a in w.posts ==> a.key in w.made) && (forall k :: k in w.server ==> k in w.made)
  }

  lemma MountKeepsInv(w: World, n: nat)
    requires Inv(w)
    ensures Inv(Next(w, Mount(n)))
  {
  }

  lemma DeliverKeepsInv(w: World, index: nat, accept: bool)
    requires Inv(w)
    ensures Inv(Next(w, Deliver(index, accept)))
  {
  }

  lemma EditKeepsInv(w: World, n: nat, text: string, ok: bool)
    requires Inv(w)
    ensures Inv(Next(w, Edit(n, text, ok)))
  {
  }

  lemma SubmitKeepsInv(w: World, n: nat, minted: Attempt, enabled: bool, ok: bool)
    requires Inv(w) && Follows(w, Submit(n, minted, enabled, ok))
    ensures Inv(Next(w, Submit(n, minted, enabled, ok)))
  {
  }

  lemma ReceiveKeepsInv(w: World, n: nat, answer: Answer, ok: bool)
    requires Inv(w) && Follows(w, Receive(n, answer, ok))
    ensures Inv(Next(w, Receive(n, answer, ok)))
  {
  }

  lemma StepKeepsInv(w: World, step: Step)
    requires Inv(w) && Follows(w, step)
    ensures Inv(Next(w, step))
  {
    match step
    case Mount(n) => MountKeepsInv(w, n);
    case Crash(_) =>
    case Edit(n, text, ok) => EditKeepsInv(w, n, text, ok);
    case Submit(n, minted, enabled, ok) => SubmitKeepsInv(w, n, minted, enabled, ok);
    case Deliver(index, accept) => DeliverKeepsInv(w, index, accept);
    case Receive(n, answer, ok) => ReceiveKeepsInv(w, n, answer, ok);
  }

  lemma {:induction false} RunKeepsInv(steps: seq<Step>)
    requires FollowsAll(START, steps)
    ensures Inv(Run(START, steps))
  {
    if steps != [] {
      RunKeepsInv(steps[..|steps| - 1]);
      StepKeepsInv(Run(START, steps[..|steps| - 1]), steps[|steps| - 1]);
    }
  }

  predicate IsCommitted(w: World, key: string) {
    key in w.made && key in w.server && w.server[key].Committed?
  }

  // Any number of composers that keep to the rule, through crashes, failed writes and lost
  // responses: what was composed once is committed once at most.
  lemma OneMessagePerComposing(steps: seq<Step>, k: string, l: string)
    requires FollowsAll(START, steps) && k != l
    requires IsCommitted(Run(START, steps), k) && IsCommitted(Run(START, steps), l)
    ensures Run(START, steps).made[k] != Run(START, steps).made[l]
  {
    RunKeepsInv(steps);
    OnlyOneLive(Run(START, steps), k, l);
  }

  lemma OnlyOneLive(w: World, k: string, l: string)
    requires OneLiveEach(w) && k != l && IsCommitted(w, k) && IsCommitted(w, l)
    ensures w.made[k] != w.made[l]
  {
  }

  // ---------------------------------------------------------------- the rule is exact

  // What can be in the slot: nothing, a text, or a text that is being sent.
  predicate CanHold(slot: Option<Draft>) {
    slot.Some? ==>
      slot.value.text != "" && |slot.value.text| <= 16000 && (slot.value.pending.Some? ==> !Blank(slot.value.text))
  }

  predicate SentTwice(w: World, k: string, l: string) {
    k != l && IsCommitted(w, k) && IsCommitted(w, l) && w.made[k] == w.made[l]
  }

  lemma Push(before: seq<Step>, step: Step)
    ensures Run(START, before + [step]) == Next(Run(START, before), step)
    ensures FollowsAll(START, before) && Follows(Run(START, before), step) ==> FollowsAll(START, before + [step])
  {
    assert (before + [step])[..|before|] == before;
  }

  // A run so far that keeps to the rule: composer 0 shows nothing, the slot is empty, and composer
  // 1 still has a draft whose text went out under `sent`.
  predicate Aside(w: World, d: Draft, flight: Option<Draft>, sent: string) {
    w.slot.None? && 0 in w.composers && w.composers[0].state == Component(EMPTY, None) &&
    1 in w.composers && w.composers[1].state == Component(d, flight) &&
    IsCommitted(w, sent) && w.made[sent] == w.composers[1].composing &&
    forall k :: k in w.server ==> k in w.made
  }

  // Composer 0 can then bring the slot to hold anything, within the rule.
  lemma Fills(before: seq<Step>, slot: Option<Draft>, d: Draft, flight: Option<Draft>, sent: string)
    returns (after: seq<Step>)
    requires FollowsAll(START, before) && Aside(Run(START, before), d, flight, sent) && CanHold(slot)
    requires slot.Some? && slot.value.pending.Some? ==> slot.value.pending.value.key !in Run(START, before).made
    ensures FollowsAll(START, after)
    ensures var w, w' := Run(START, before), Run(START, after);
      w'.slot == slot && 1 in w'.composers && w'.composers[1] == w.composers[1] && IsCommitted(w', sent) &&
      w'.made[sent] == w.made[sent] && w'.server == w.server &&
      w'.made.Keys == w.made.Keys + if slot.Some? && slot.value.pending.Some? then {slot.value.pending.value.key}
        else {}
  {
    after := before;
    if slot.Some? {
      Push(after, Edit(0, slot.value.text, true));
      after := after + [Edit(0, slot.value.text, true)];
      if slot.value.pending.Some? {
        Push(after, Submit(0, slot.value.pending.value, true, true));
        after := after + [Submit(0, slot.value.pending.value, true, true)];
      }
    }
  }

  // Sending and committing under a new key.
  lemma SendsAndCommits(w: World, a: Attempt, sent: string)
    requires 1 in w.composers && w.composers[1].state == Component(w.composers[1].state.draft, None)
    requires w.composers[1].state.draft.pending.None? && !Blank(w.composers[1].state.draft.text)
    requires a.key !in w.made && a.key !in w.server && IsCommitted(w, sent)
    requires w.made[sent] == if w.slot == Some(w.composers[1].state.draft) then w.slotComposing
      else w.composers[1].composing
    ensures SentTwice(Next(Next(w, Submit(1, a, true, true)), Deliver(|w.posts|, true)), sent, a.key)
  {
  }

  // Composer 0 composes a text.
  lemma Composes(text: string) returns (steps: seq<Step>)
    requires text != "" && |text| <= 16000
    ensures FollowsAll(START, steps)
    ensures Run(START, steps) ==
      World(Some(Draft(text, None)), 1, map[0 := Editing(Component(Draft(text, None), None), 1)], [], map[], map[], 2)
  {
    steps := [];
    Push(steps, Mount(0));
    steps := steps + [Mount(0)];
    assert Run(START, steps) == START.(composers := map[0 := Editing(Component(EMPTY, None), 0)], count := 1);
    Push(steps, Edit(0, text, true));
    steps := steps + [Edit(0, text, true)];
  }

  // It sends what the slot holds and the server commits it.
  lemma SendsFromSlot(before: seq<Step>, text: string, a: Attempt) returns (steps: seq<Step>)
    requires FollowsAll(START, before) && !Blank(text)
    requires var w := Run(START, before);
      w.slot == Some(Draft(text, None)) && 0 in w.composers &&
      w.composers[0].state == Component(Draft(text, None), None) &&
      a.key !in w.made && a.key !in w.server
    ensures FollowsAll(START, steps)
    ensures var w, w' := Run(START, before), Run(START, steps);
      w' == w.(slot := None, composers := w.composers[0 := Editing(Component(EMPTY, None), w.slotComposing)],
               posts := w.posts + [a], server := w.server[a.key := Committed], made := w.made[a.key := w.slotComposing])
  {
    var w := Run(START, before);
    var d := Draft(text, Some(a));
    Push(before, Submit(0, a, true, true));
    steps := before + [Submit(0, a, true, true)];
    var w1 := w.(slot := Some(d), composers := w.composers[0 := Editing(Component(d, Some(d)), w.slotComposing)],
                 posts := w.posts + [a], made := w.made[a.key := w.slotComposing]);
    assert Run(START, steps) == w1;
    Push(steps, Deliver(|w.posts|, true));
    steps := steps + [Deliver(|w.posts|, true)];
    assert Run(START, steps) == w1.(server := w.server[a.key := Committed]);
    Push(steps, Receive(0, Success(true), true));
    steps := steps + [Receive(0, Success(true), true)];
    var flying := Editing(Component(d, Some(d)), w.slotComposing);
    var cleared := Editing(Component(EMPTY, None), w.slotComposing);
    assert w.composers[0 := flying][0 := cleared] == w.composers[0 := cleared];
  }

  // A text that was never sent from here: whatever else the slot holds, there is a run in which
  // only this sending breaks the rule, and which commits the text twice.
  lemma SendingNeedsTheRule(text: string, slot: Option<Draft>, a: Attempt, b: Attempt)
    returns (before: seq<Step>, after: seq<Step>)
    requires !Blank(text) && |text| <= 16000 && CanHold(slot) && slot != Some(Draft(text, None)) && a.key != b.key
    requires slot.Some? && slot.value.pending.Some? ==> slot.value.pending.value.key !in {a.key, b.key}
    ensures FollowsAll(START, before)
    ensures var w := Run(START, before);
      w.slot == slot && 1 in w.composers && w.composers[1].state == Component(Draft(text, None), None) &&
      FollowsAll(Next(w, Submit(1, b, true, true)), after) &&
      SentTwice(Run(Next(w, Submit(1, b, true, true)), after), a.key, b.key)
  {
    NotBlankIsNotEmpty(text);
    var steps := Composes(text);
    Push(steps, Mount(1));
    steps := steps + [Mount(1)];
    steps := SendsFromSlot(steps, text, a);
    before := Fills(steps, slot, Draft(text, None), None, a.key);
    var w := Run(START, before);
    SendsAndCommits(w, b, a.key);
    after := [Deliver(|w.posts|, true)];
    Once(Next(w, Submit(1, b, true, true)), Deliver(|w.posts|, true));
  }

  lemma NotBlankIsNotEmpty(text: string)
    requires !Blank(text)
    ensures text != ""
  {
  }

  lemma Once(w: World, step: Step)
    ensures Run(w, [step]) == Next(w, step) && (Follows(w, step) ==> FollowsAll(w, [step]))
  {
    assert [step][..0] == [];
    assert Run(w, []) == w && FollowsAll(w, []);
  }

  // Composer 0 sends a text, and composer 1 opens on that attempt, perhaps to send it too.
  lemma OpensOnAttempt(text: string, a: Attempt, flying: bool) returns (steps: seq<Step>)
    requires !Blank(text) && |text| <= 16000
    ensures FollowsAll(START, steps)
    ensures var d := Draft(text, Some(a));
      Run(START, steps) ==
      World(Some(d), 1, map[0 := Editing(Component(d, Some(d)), 1),
        1 := Editing(Component(d, if flying then Some(d) else None), 1)],
            if flying then [a, a] else [a], map[], map[a.key := 1], 3)
  {
    NotBlankIsNotEmpty(text);
    var d := Draft(text, Some(a));
    steps := Composes(text);
    Push(steps, Submit(0, a, true, true));
    steps := steps + [Submit(0, a, true, true)];
    var sent := World(Some(d), 1, map[0 := Editing(Component(d, Some(d)), 1)], [a], map[], map[a.key := 1], 2);
    assert Run(START, steps) == sent;
    Push(steps, Mount(1));
    steps := steps + [Mount(1)];
    OpensAndResends(sent, d, a);
    if flying {
      Push(steps, Submit(1, a, true, true));
      steps := steps + [Submit(1, a, true, true)];
    }
  }

  lemma OpensAndResends(w: World, d: Draft, a: Attempt)
    requires w.slot == Some(d) && d.pending == Some(a) && !Blank(d.text) && |d.text| <= 16000 && w.composers.Keys == {0}
    ensures var two := w.(composers := map[0 := w.composers[0], 1 := Editing(Component(d, None), w.slotComposing)],
      count := w.count + 1);
      Next(w, Mount(1)) == two &&
      Next(two, Submit(1, a, true, true)) ==
      two.(composers := map[0 := w.composers[0], 1 := Editing(Component(d, Some(d)), w.slotComposing)],
        posts := w.posts + [a]) &&
      Follows(w, Mount(1)) && Follows(two, Submit(1, a, true, true))
  {
  }

  // The attempt is refused, and composer 0 frees the text.
  lemma RefusesAndFrees(before: seq<Step>, text: string, a: Attempt) returns (steps: seq<Step>)
    requires FollowsAll(START, before) && text != ""
    requires var w, d := Run(START, before), Draft(text, Some(a));
      w.slot == Some(d) && 0 in w.composers && w.composers[0].state == Component(d, Some(d)) && w.posts != [] &&
      w.posts[0] == a &&
      w.server == map[]
    ensures FollowsAll(START, steps)
    ensures var w := Run(START, before);
      Run(START, steps) == w.(slot := Some(Draft(text, None)), server := map[a.key := Refused],
        composers := w.composers[0 := Editing(Component(Draft(text, None), None), w.slotComposing)])
  {
    Push(before, Deliver(0, false));
    steps := before + [Deliver(0, false)];
    assert Run(START, steps) == Run(START, before).(server := map[a.key := Refused]);
    Push(steps, Receive(0, Definitive, true));
    steps := steps + [Receive(0, Definitive, true)];
  }

  // Then composer 0 sends the text again, and that is committed. Composer 1 still has the attempt.
  lemma LeavesARefusedAttempt(text: string, a: Attempt, b: Attempt, flying: bool) returns (steps: seq<Step>)
    requires !Blank(text) && |text| <= 16000 && a.key != b.key
    ensures FollowsAll(START, steps)
    ensures var w, d := Run(START, steps), Draft(text, Some(a));
      Aside(w, d, if flying then Some(d) else None, b.key) && IsRefused(w.server, a.key) &&
      w.made.Keys == {a.key, b.key}
  {
    NotBlankIsNotEmpty(text);
    steps := OpensOnAttempt(text, a, flying);
    steps := RefusesAndFrees(steps, text, a);
    steps := SendsFromSlot(steps, text, b);
  }

  // A refused attempt sent again overwrites the slot, and its text is free again.
  lemma ResentIsFreed(w: World, text: string, a: Attempt)
    requires !Blank(text) && 1 in w.composers && w.composers[1].state == Component(Draft(text, Some(a)), None)
    requires w.slot != Some(Draft(text, Some(a))) && IsRefused(w.server, a.key)
    ensures var w1 := Next(w, Submit(1, a, true, true));
      var w2 := Next(w1, Receive(1, Definitive, true));
      Follows(w1, Receive(1, Definitive, true)) && w2.slot == Some(Draft(text, None)) &&
      w2.slotComposing == w.composers[1].composing &&
      1 in w2.composers && w2.composers[1].state == Component(Draft(text, None), None) && w2.made == w.made &&
      w2.server == w.server
  {
    NotBlankIsNotEmpty(text);
  }

  // The same of sending an attempt again that the slot no longer holds.
  lemma ResendingNeedsTheRule(text: string, slot: Option<Draft>, a: Attempt, b: Attempt, c: Attempt)
    returns (before: seq<Step>, after: seq<Step>)
    requires !Blank(text) && |text| <= 16000 && CanHold(slot) && slot != Some(Draft(text, Some(a)))
    requires a.key != b.key && c.key !in {a.key, b.key}
    requires slot.Some? && slot.value.pending.Some? ==> slot.value.pending.value.key !in {a.key, b.key, c.key}
    ensures FollowsAll(START, before)
    ensures var w := Run(START, before);
      w.slot == slot && 1 in w.composers && w.composers[1].state == Component(Draft(text, Some(a)), None) &&
      FollowsAll(Next(w, Submit(1, a, true, true)), after) &&
      SentTwice(Run(Next(w, Submit(1, a, true, true)), after), b.key, c.key)
  {
    var d := Draft(text, Some(a));
    var steps := LeavesARefusedAttempt(text, a, b, false);
    before := Fills(steps, slot, d, None, b.key);
    var w := Run(START, before);
    var w1 := Next(w, Submit(1, a, true, true));
    var w2 := Next(w1, Receive(1, Definitive, true));
    ResentIsFreed(w, text, a);
    SendsAndCommits(w2, c, b.key);
    after := [Receive(1, Definitive, true), Submit(1, c, true, true), Deliver(|w2.posts|, true)];
    Thrice(w1, after[0], after[1], after[2]);
  }

  // And of freeing the text of a refused attempt in a slot that holds something else.
  lemma FreeingNeedsTheRule(text: string, slot: Option<Draft>, a: Attempt, b: Attempt, c: Attempt)
    returns (before: seq<Step>, after: seq<Step>)
    requires !Blank(text) && |text| <= 16000 && CanHold(slot)
    requires slot != Some(Draft(text, Some(a))) && slot != Some(Draft(text, None))
    requires a.key != b.key && c.key !in {a.key, b.key}
    requires slot.Some? && slot.value.pending.Some? ==> slot.value.pending.value.key !in {a.key, b.key, c.key}
    ensures FollowsAll(START, before)
    ensures var w := Run(START, before);
      w.slot == slot && 1 in w.composers && w.composers[1].state.flight == Some(Draft(text, Some(a))) &&
      FollowsAll(Next(w, Receive(1, Definitive, true)), after) &&
      SentTwice(Run(Next(w, Receive(1, Definitive, true)), after), b.key, c.key)
  {
    var d := Draft(text, Some(a));
    var steps := LeavesARefusedAttempt(text, a, b, true);
    before := Fills(steps, slot, d, Some(d), b.key);
    var w := Run(START, before);
    var w1 := Next(w, Receive(1, Definitive, true));
    assert w1.slot == Some(Draft(text, None)) && w1.slotComposing == w.composers[1].composing;
    assert w1.composers[1] == Editing(Component(Draft(text, None), None), w.composers[1].composing);
    SendsAndCommits(w1, c, b.key);
    after := [Submit(1, c, true, true), Deliver(|w1.posts|, true)];
    Twice(w1, after[0], after[1]);
  }

  lemma Twice(w: World, a: Step, b: Step)
    ensures Run(w, [a, b]) == Next(Next(w, a), b)
    ensures Follows(w, a) && Follows(Next(w, a), b) ==> FollowsAll(w, [a, b])
  {
    assert [a, b][..1] == [a];
    Once(w, a);
  }

  lemma Thrice(w: World, a: Step, b: Step, c: Step)
    ensures Run(w, [a, b, c]) == Next(Next(Next(w, a), b), c)
    ensures Follows(w, a) && Follows(Next(w, a), b) && Follows(Next(Next(w, a), b), c) ==> FollowsAll(w, [a, b, c])
  {
    assert [a, b, c][..2] == [a, b];
    Twice(w, a, b);
  }
}
