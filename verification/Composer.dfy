/**
  The channel composer (desktop/src/ChannelComposer.tsx): a draft and, once it is sent, its
  pending attempt, kept on the device until the outcome is known. A definitive answer (400, 401,
  403, 404, 409 or 422) frees the text under a new attempt; anything else keeps the same attempt.
 */
module Composer {
  import opened Options
  import opened Text

  // The body is built from the trimmed text and the channel as it was when the attempt was made.
  datatype Attempt = Attempt(key: string, body: string)

  datatype Draft = Draft(text: string, pending: Option<Attempt>)

  // `flight` is the draft `submit` is suspended with; then `lock` is set.
  datatype Component = Component(draft: Draft, flight: Option<Draft>)

  const EMPTY := Draft("", None)

  function Restored(slot: Option<Draft>): Draft {
    if slot.Some? && |slot.value.text| <= 16000 then slot.value else EMPTY
  }

  function Mounted(slot: Option<Draft>): Component {
    Component(Restored(slot), None)
  }

  // `save`: what the device holds afterwards; a write that throws changes nothing.
  function Stored(slot: Option<Draft>, next: Draft, ok: bool): Option<Draft> {
    if !ok then slot else if next.text != "" || next.pending.Some? then Some(next) else None
  }

  datatype Result = Result(slot: Option<Draft>, component: Component, sent: Option<Attempt>)

  function Edited(slot: Option<Draft>, c: Component, text: string, ok: bool): Result {
    if c.flight.Some? || c.draft.pending.Some? || |text| > 16000 then Result(slot, c, None)
    else Result(Stored(slot, Draft(text, None), ok), c.(draft := Draft(text, None)), None)
  }

  function Submitted(slot: Option<Draft>, c: Component, minted: Attempt, enabled: bool, ok: bool): Result {
    if c.flight.Some? || (!enabled && c.draft.pending.None?) || Blank(c.draft.text) then Result(slot, c, None)
    else
      var pending := if c.draft.pending.Some? then c.draft.pending.value else minted;
      var next := c.draft.(pending := Some(pending));
      if !ok then Result(slot, c, None)
      else Result(Stored(slot, next, true), Component(next, Some(next)), Some(pending))
  }

  // `Success(false)`: the caller's handler did not recognise the result and threw.
  datatype Answer = Success(recognised: bool) | Definitive | Ambiguous

  function Answered(slot: Option<Draft>, c: Component, answer: Answer, ok: bool): Result
    requires c.flight.Some?
  {
    match answer
    case Success(recognised) =>
      if recognised && ok then Result(Stored(slot, EMPTY, true), Component(EMPTY, None), None)
      else Result(slot, c.(flight := None), None)
    case Definitive =>
      var next := Draft(c.flight.value.text, None);
      Result(Stored(slot, next, ok), Component(next, None), None)
    case Ambiguous => Result(slot, c.(flight := None), None)
  }

  class Slot {
    var value: Option<Draft>

    method Save(next: Draft, ok: bool)
      modifies this
      ensures value == Stored(old(value), next, ok)
    {
      if ok {
        value := if next.text != "" || next.pending.Some? then Some(next) else None;
      }
    }
  }

  class ChannelComposer {
    const slot: Slot
    var draft: Draft
    var flight: Option<Draft>

    function State(): Component
      reads this
    {
      Component(draft, flight)
    }

    constructor (slot: Slot)
      ensures this.slot == slot && State() == Mounted(slot.value)
    {
      this.slot := slot;
      draft, flight := Restored(slot.value), None;
    }

    method Edit(text: string, ok: bool)
      modifies this, slot
      ensures Result(slot.value, State(), None) == Edited(old(slot.value), old(State()), text, ok)
      ensures old(draft).pending.Some? ==> draft == old(draft) && slot.value == old(slot.value)
    {
      if flight.Some? || draft.pending.Some? || |text| > 16000 {
        return;
      }
      draft := Draft(text, None);
      slot.Save(draft, ok);
    }

    method Submit(minted: Attempt, enabled: bool, ok: bool) returns (sent: Option<Attempt>)
      modifies this, slot
      ensures Result(slot.value, State(), sent) == Submitted(old(slot.value), old(State()), minted, enabled, ok)
      ensures sent.Some? ==> slot.value == Some(draft) && draft == old(draft).(pending := sent)
      ensures sent.Some? && old(draft).pending.Some? ==> sent == old(draft).pending
      ensures sent.None? ==> slot.value == old(slot.value) && draft == old(draft)
    {
      sent := None;
      if flight.Some? || (!enabled && draft.pending.None?) || Blank(draft.text) {
        return;
      }
      var pending := if draft.pending.Some? then draft.pending.value else minted;
      slot.Save(draft.(pending := Some(pending)), ok);
      if !ok {
        return;
      }
      draft := draft.(pending := Some(pending));
      flight := Some(draft);
      sent := Some(pending);
    }

    method Receive(answer: Answer, ok: bool)
      requires flight.Some?
      modifies this, slot
      ensures Result(slot.value, State(), None) == Answered(old(slot.value), old(State()), answer, ok)
      ensures answer.Ambiguous? ==> draft == old(draft) && slot.value == old(slot.value)
      ensures answer.Definitive? ==> draft == Draft(old(flight).value.text, None)
    {
      var captured := flight.value;
      flight := None;
      match answer
      case Success(recognised) =>
        if recognised {
          slot.Save(EMPTY, ok);
          if ok {
            draft := EMPTY;
          }
        }
      case Definitive =>
        draft := Draft(captured.text, None);
        slot.Save(draft, ok);
      case Ambiguous =>
    }
  }
}
