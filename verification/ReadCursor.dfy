/**
  How far a reader has read a channel (desktop/src/ChannelReadState.tsx): the saved cursor is
  loaded in the background and on request, and moved forward by marking messages read.
 */
module ReadCursor {
  import opened Options
  import Channels

  // `belongs`: the cursor is of this channel, scope and reader, and its numbers are integers.
  datatype Cursor = Cursor(belongs: bool, delivered: int, read: int, revision: int)

  // What a call comes back with: a cursor, "not found", or nothing that can be relied on.
  datatype Response = Answer(value: Cursor) | NotFound | Failure

  datatype Request = Request(expectedRevision: int, delivered: int, read: int)

  // The call the component waits for; while there is one, its lock is set.
  datatype Flight = Idle | Loading(manual: bool) | Marking(target: int)

  datatype Reader = Reader(known: Option<Cursor>, loaded: bool, error: bool, check: bool, alive: bool, flight: Flight)

  const OPENED := Reader(None, false, false, false, true, Idle)

  function Read(c: Option<Cursor>): int {
    if c.Some? then c.value.read else 0
  }

  function Delivered(c: Option<Cursor>): int {
    if c.Some? then c.value.delivered else 0
  }

  function Revision(c: Option<Cursor>): int {
    if c.Some? then c.value.revision else 0
  }

  function Max(a: int, b: int): int {
    if a >= b then a else b
  }

  predicate Consistent(c: Cursor) {
    c.belongs && c.revision >= 1 && c.read >= 0 && c.delivered >= c.read
  }

  // No coordinate of the cursor goes back, and a cursor does not disappear.
  predicate NotOlder(known: Option<Cursor>, next: Option<Cursor>) {
    known.Some? ==>
      next.Some? && next.value.revision >= known.value.revision && next.value.read >= known.value.read &&
      next.value.delivered >= known.value.delivered
  }

  predicate Validates(known: Option<Cursor>, c: Cursor) {
    Consistent(c) && NotOlder(known, Some(c))
  }

  // ---------------------------------------------------------------- transitions

  predicate CanLoad(r: Reader, manual: bool) {
    r.alive && r.flight.Idle? && (manual || (!r.check && !r.error))
  }

  function LoadBegun(r: Reader, manual: bool): Reader {
    r.(flight := Loading(manual))
  }

  predicate LoadAccepts(known: Option<Cursor>, response: Response) {
    match response
    case Answer(c) => Validates(known, c)
    case NotFound => known.None?
    case Failure => false
  }

  function Loaded(r: Reader, response: Response): Reader
    requires r.flight.Loading?
  {
    var idle := r.(flight := Idle);
    if !r.alive then idle
    else if !LoadAccepts(r.known, response) then idle.(error := true)
    else idle.(known := if response.Answer? then Some(response.value) else None, loaded := true, error := false,
               check := if r.flight.manual then false else r.check)
  }

  predicate CanMark(r: Reader, shownThrough: int, ready: bool) {
    r.alive && r.flight.Idle? && r.loaded && ready && !r.check && !r.error && shownThrough > Read(r.known)
  }

  function RequestFor(r: Reader, shownThrough: int): Request {
    Request(Revision(r.known), Max(shownThrough, Delivered(r.known)), shownThrough)
  }

  function MarkBegun(r: Reader, shownThrough: int): Reader {
    r.(flight := Marking(shownThrough), error := false)
  }

  predicate MarkAccepts(known: Option<Cursor>, target: int, response: Response) {
    response.Answer? && Validates(known, response.value) && response.value.read == target
  }

  function Marked(r: Reader, response: Response): Reader
    requires r.flight.Marking?
  {
    var idle := r.(flight := Idle);
    if !r.alive then idle
    else if MarkAccepts(r.known, r.flight.target, response) then idle.(known := Some(response.value), loaded := true)
    else idle.(check := true, error := true)
  }

  // ---------------------------------------------------------------- the component

  class ReadState {
    var known: Option<Cursor>
    var cursor: Option<Cursor>
    var loaded: bool
    var error: bool
    var check: bool
    var alive: bool
    var flight: Flight

    // Rendering is atomic: what is shown is what is known.
    predicate Valid()
      reads this
    {
      cursor == known
    }

    function State(): Reader
      reads this
    {
      Reader(known, loaded, error, check, alive, flight)
    }

    constructor ()
      ensures Valid() && State() == OPENED
    {
      known, cursor, loaded, error, check, alive, flight := None, None, false, false, false, true, Idle;
    }

    // Also tells the list of channels (`notifyRead`): the notice is what it is told.
    method Accept(value: Option<Cursor>) returns (readSequence: int, revision: int)
      modifies this
      ensures Valid() && State() == old(State()).(known := value, loaded := true)
      ensures readSequence == Read(value) && revision == Revision(value)
    {
      known := value;
      cursor := value;
      loaded := true;
      readSequence := if value.Some? then value.value.read else 0;
      revision := if value.Some? then value.value.revision else 0;
    }

    // The call `validate`: whether it returns rather than throws.
    method Validate(value: Cursor) returns (ok: bool)
      ensures ok == Validates(known, value)
    {
      if !value.belongs || value.revision < 1 || value.read < 0 || value.delivered < value.read {
        return false;
      }
      if known.Some? && (value.revision < known.value.revision || value.read < known.value.read ||
                         value.delivered < known.value.delivered) {
        return false;
      }
      return true;
    }

    method BeginLoad(manual: bool) returns (begun: bool)
      requires alive && (manual || (!check && !error))
      modifies this
      ensures begun == CanLoad(old(State()), manual)
      ensures State() == if begun then LoadBegun(old(State()), manual) else old(State())
      ensures known == old(known) && cursor == old(cursor)
    {
      if flight != Idle { return false; }
      flight := Loading(manual);
      return true;
    }

    method EndLoad(response: Response) returns (notice: Option<(int, int)>)
      requires Valid() && flight.Loading?
      modifies this
      ensures Valid() && State() == Loaded(old(State()), response)
      ensures notice == if old(alive) && LoadAccepts(old(known), response) then Some((Read(known), Revision(known)))
        else None
    {
      notice := None;
      var manual := flight.manual;
      var value: Option<Cursor> := None;
      var failed := false;
      if response.Answer? {
        var ok := Validate(response.value);
        if ok { value := Some(response.value); } else { failed := true; }
      } else if response.Failure? || known.Some? {
        failed := true;
      }
      if alive {
        if failed {
          error := true;
        } else {
          var readSequence, revision := Accept(value);
          notice := Some((readSequence, revision));
          error := false;
          if manual { check := false; }
        }
      }
      flight := Idle;
    }

    method BeginMark(shownThrough: int, ready: bool) returns (request: Option<Request>)
      requires Valid() && alive
      modifies this
      ensures Valid() && request.Some? == CanMark(old(State()), shownThrough, ready)
      ensures State() == if request.Some? then MarkBegun(old(State()), shownThrough) else old(State())
      ensures request.Some? ==> request.value == RequestFor(old(State()), shownThrough)
    {
      if flight != Idle || !loaded || !ready || check || error ||
         shownThrough <= (if cursor.Some? then cursor.value.read else 0) {
        return None;
      }
      flight := Marking(shownThrough);
      error := false;
      var delivered := if cursor.Some? then cursor.value.delivered else 0;
      request := Some(Request(if cursor.Some? then cursor.value.revision else 0,
                              if shownThrough >= delivered then shownThrough else delivered, shownThrough));
    }

    method EndMark(response: Response) returns (notice: Option<(int, int)>)
      requires Valid() && flight.Marking?
      modifies this
      ensures Valid() && State() == Marked(old(State()), response)
      ensures notice == if old(alive) && MarkAccepts(old(known), old(flight).target, response)
                        then Some((Read(known), Revision(known))) else None
    {
      notice := None;
      var target := flight.target;
      if alive {
        var ok := response.Answer?;
        if ok { ok := Validate(response.value); }
        if ok && response.value.read == target {
          var readSequence, revision := Accept(Some(response.value));
          notice := Some((readSequence, revision));
        } else {
          check := true;
          error := true;
        }
      }
      flight := Idle;
    }
  }

  // ---------------------------------------------------------------- runs

  // What happens, in order: a cursor accepted (and the list told), a mark sent, a mark whose
  // effect is unknown, a load that failed, a read position checked by the reader.
  datatype Entry = Accepted(cursor: Option<Cursor>) | Sent(request: Request) | Lost | Failed | Checked

  datatype World = World(reader: Reader, log: seq<Entry>)

  datatype Step = Load(manual: bool) | LoadEnds(response: Response) | Mark(shownThrough: int, ready: bool) |
                  MarkEnds(response: Response) | Close

  function Next(w: World, step: Step): World {
    var r := w.reader;
    match step
    case Load(manual) => if CanLoad(r, manual) then w.(reader := LoadBegun(r, manual)) else w
    case LoadEnds(response) =>
      if !r.flight.Loading? then w
      else
        var next := Loaded(r, response);
        World(next, w.log + (if !r.alive then []
                             else if !LoadAccepts(r.known, response) then [Failed]
                             else [Accepted(next.known)] + (if r.flight.manual then [Checked] else [])))
    case Mark(shownThrough, ready) =>
      if !CanMark(r, shownThrough, ready) then w
      else World(MarkBegun(r, shownThrough), w.log + [Sent(RequestFor(r, shownThrough))])
    case MarkEnds(response) =>
      if !r.flight.Marking? then w
      else
        var next := Marked(r, response);
        World(next, w.log + (if !r.alive then []
                             else if MarkAccepts(r.known, r.flight.target, response) then [Accepted(next.known)]
                             else [Lost]))
    case Close => w.(reader := r.(alive := false))
  }

  function Run(steps: seq<Step>): World {
    if steps == [] then World(OPENED, []) else Next(Run(steps[..|steps| - 1]), steps[|steps| - 1])
  }

  // The cursor the component shows after a log.
  function Shown(log: seq<Entry>): Option<Cursor> {
    if log == [] then None
    else if log[|log| - 1].Accepted? then log[|log| - 1].cursor
    else Shown(log[..|log| - 1])
  }

  // A mark whose effect is unknown has not been followed by a check.
  predicate Uncertain(log: seq<Entry>) {
    log != [] && (log[|log| - 1].Lost? || (!log[|log| - 1].Checked? && Uncertain(log[..|log| - 1])))
  }

  // What an entry must be after what came before it.
  predicate Follows(log: seq<Entry>, e: Entry) {
    match e
    case Accepted(c) => NotOlder(Shown(log), c) && (c.Some? ==> Consistent(c.value))
    case Sent(q) =>
      !Uncertain(log) && q.expectedRevision == Revision(Shown(log)) && q.delivered >= q.read &&
      q.read > Read(Shown(log)) && q.delivered >= Delivered(Shown(log))
    case _ => true
  }

  predicate Sound(log: seq<Entry>) {
    forall i :: 0 <= i < |log| ==> Follows(log[..i], log[i])
  }

  // The last thing that happened went wrong.
  predicate Troubled(log: seq<Entry>) {
    log != [] && (log[|log| - 1].Failed? || log[|log| - 1].Lost?)
  }

  predicate HasLoaded(log: seq<Entry>) {
    exists i :: 0 <= i < |log| && log[i].Accepted?
  }

  predicate Inv(w: World) {
    w.reader.known == Shown(w.log) && w.reader.check == Uncertain(w.log) && Sound(w.log) &&
    w.reader.error == Troubled(w.log) && w.reader.loaded == HasLoaded(w.log) &&
    (w.reader.flight.Marking? ==> !w.reader.error)
  }

  lemma OneMore(log: seq<Entry>, e: Entry)
    requires Sound(log) && Follows(log, e)
    ensures Sound(log + [e])
    ensures Shown(log + [e]) == if e.Accepted? then e.cursor else Shown(log)
    ensures Uncertain(log + [e]) == (e.Lost? || (!e.Checked? && Uncertain(log)))
    ensures Troubled(log + [e]) == (e.Failed? || e.Lost?)
    ensures HasLoaded(log + [e]) == (e.Accepted? || HasLoaded(log))
  {
    assert (log + [e])[..|log|] == log;
    assert (log + [e])[|log|] == e;
    assert forall i :: 0 <= i < |log| ==> (log + [e])[i] == log[i];
    forall i | 0 <= i < |log + [e]| ensures Follows((log + [e])[..i], (log + [e])[i]) {
      assert (log + [e])[..i] == log[..i];
    }
  }

  // A cursor that is accepted, and perhaps checked.
  lemma AcceptedMore(log: seq<Entry>, known: Option<Cursor>, manual: bool)
    requires Sound(log) && Follows(log, Accepted(known))
    ensures var next := log + [Accepted(known)] + (if manual then [Checked] else []);
      Sound(next) && Shown(next) == known && Uncertain(next) == (!manual && Uncertain(log)) && !Troubled(next) &&
      HasLoaded(next)
  {
    OneMore(log, Accepted(known));
    if manual {
      OneMore(log + [Accepted(known)], Checked);
    } else {
      assert log + [Accepted(known)] + [] == log + [Accepted(known)];
    }
  }

  lemma LoadEndsKeepsInv(w: World, response: Response)
    requires Inv(w) && w.reader.flight.Loading?
    ensures Inv(Next(w, LoadEnds(response)))
  {
    var r := w.reader;
    if r.alive && LoadAccepts(r.known, response) {
      var known := if response.Answer? then Some(response.value) else None;
      AcceptedMore(w.log, known, r.flight.manual);
      assert Next(w, LoadEnds(response)).log ==
        w.log + [Accepted(known)] + (if r.flight.manual then [Checked] else []);
    } else if r.alive {
      OneMore(w.log, Failed);
    } else {
      assert Next(w, LoadEnds(response)).log == w.log;
    }
  }

  lemma MarkEndsKeepsInv(w: World, response: Response)
    requires Inv(w) && w.reader.flight.Marking?
    ensures Inv(Next(w, MarkEnds(response)))
  {
    var r, w' := w.reader, Next(w, MarkEnds(response));
    if r.alive {
      OneMore(w.log, if MarkAccepts(r.known, r.flight.target, response) then Accepted(Some(response.value)) else Lost);
    } else {
      assert w'.log == w.log;
    }
  }

  lemma StepKeepsInv(w: World, step: Step)
    requires Inv(w)
    ensures Inv(Next(w, step))
  {
    match step
    case Load(_) =>
    case LoadEnds(response) => if w.reader.flight.Loading? { LoadEndsKeepsInv(w, response); }
    case Mark(shownThrough, ready) =>
      if CanMark(w.reader, shownThrough, ready) { OneMore(w.log, Sent(RequestFor(w.reader, shownThrough))); }
    case MarkEnds(response) => if w.reader.flight.Marking? { MarkEndsKeepsInv(w, response); }
    case Close =>
  }

  lemma {:induction false} RunKeepsInv(steps: seq<Step>)
    ensures Inv(Run(steps))
  {
    if steps != [] {
      RunKeepsInv(steps[..|steps| - 1]);
      StepKeepsInv(Run(steps[..|steps| - 1]), steps[|steps| - 1]);
    }
  }

  lemma {:induction false} ShownCoversAccepted(log: seq<Entry>, i: int, j: int)
    requires Sound(log) && 0 <= i < j <= |log| && log[i].Accepted?
    ensures NotOlder(log[i].cursor, Shown(log[..j]))
    ensures Shown(log[..j]).Some? ==> Consistent(Shown(log[..j]).value)
    decreases j
  {
    assert log[..j][..j - 1] == log[..j - 1] && Follows(log[..j - 1], log[j - 1]);
    if i < j - 1 {
      ShownCoversAccepted(log, i, j - 1);
    }
  }

  // Whatever is answered, and whenever: no cursor shown after another is behind it in any
  // respect, the list of channels is told numbers that never get smaller, and no read position
  // claims more than has been delivered.
  lemma CursorNeverGoesBack(steps: seq<Step>, i: int, j: int)
    requires 0 <= i < j < |Run(steps).log| && Run(steps).log[i].Accepted? && Run(steps).log[j].Accepted?
    ensures var a, b := Run(steps).log[i].cursor, Run(steps).log[j].cursor;
      NotOlder(a, b) && Read(a) <= Read(b) && Revision(a) <= Revision(b) &&
      0 <= Read(b) <= Delivered(b)
  {
    RunKeepsInv(steps);
    AcceptedInOrder(Run(steps).log, i, j);
  }

  lemma AcceptedInOrder(log: seq<Entry>, i: int, j: int)
    requires Sound(log) && 0 <= i < j < |log| && log[i].Accepted? && log[j].Accepted?
    ensures var a, b := log[i].cursor, log[j].cursor;
      NotOlder(a, b) && Read(a) <= Read(b) && Revision(a) <= Revision(b) && 0 <= Read(b) <= Delivered(b)
  {
    ShownCoversAccepted(log, i, j);
    assert Follows(log[..i], log[i]) && Follows(log[..j], log[j]);
  }

  // So the notices one reader's cursors send to the list of channels are never ahead of each other
  // in different ways, which is what the list needs to end up the same in whatever order they come.
  lemma NoticesAreComparable(steps: seq<Step>, i: int, j: int)
    requires 0 <= i < |Run(steps).log| && 0 <= j < |Run(steps).log|
    requires Run(steps).log[i].Accepted? && Run(steps).log[j].Accepted?
    ensures var a, b := Run(steps).log[i].cursor, Run(steps).log[j].cursor;
      Channels.Comparable(Channels.Position(Read(a), Revision(a)), Channels.Position(Read(b), Revision(b)))
  {
    if i < j { CursorNeverGoesBack(steps, i, j); }
    if j < i { CursorNeverGoesBack(steps, j, i); }
  }

  // Every request to mark messages read asks for more than any cursor shown before had read, for
  // no less than it had delivered, and keeps what is delivered ahead of what is read.
  lemma MarksOnlyMoveForward(steps: seq<Step>, i: int, j: int)
    requires 0 <= i < j < |Run(steps).log| && Run(steps).log[i].Accepted? && Run(steps).log[j].Sent?
    ensures var a, q := Run(steps).log[i].cursor, Run(steps).log[j].request;
      q.read > Read(a) && q.delivered >= Delivered(a) && q.expectedRevision >= Revision(a) && q.delivered >= q.read
  {
    RunKeepsInv(steps);
    var log := Run(steps).log;
    ShownCoversAccepted(log, i, j);
    assert Follows(log[..j], log[j]) && Follows(log[..i], log[i]);
  }

  lemma {:induction false} UncertainUntilChecked(log: seq<Entry>, i: int)
    requires 0 <= i < |log| && log[i].Lost? && forall k :: i < k < |log| ==> !log[k].Checked?
    ensures Uncertain(log)
  {
    if i < |log| - 1 {
      UncertainUntilChecked(log[..|log| - 1], i);
    }
  }

  // After a mark whose effect is unknown nothing more is marked until the reader has checked the
  // saved position.
  lemma NoMarkWhileUncertain(steps: seq<Step>, i: int, j: int)
    requires 0 <= i < j < |Run(steps).log| && Run(steps).log[i].Lost? && Run(steps).log[j].Sent?
    ensures exists k :: i < k < j && Run(steps).log[k].Checked?
  {
    RunKeepsInv(steps);
    var log := Run(steps).log;
    assert Follows(log[..j], log[j]);
    if forall k :: i < k < j ==> !log[k].Checked? {
      UncertainUntilChecked(log[..j], i);
    }
  }

  // ---------------------------------------------------------------- exactly when

  // The channel's messages are marked as read exactly if the component is there, nothing is under
  // way, the messages are shown, a position was loaded, nothing is in doubt or went wrong last, and
  // something further than the position shown has been on the screen. What is asked for is to have
  // read that, and to have it delivered, unless more is, on top of the revision shown.
  lemma MarkIsSentIff(steps: seq<Step>, shownThrough: int, ready: bool)
    ensures var now, next := Run(steps), Run(steps + [Mark(shownThrough, ready)]);
      var seen := Shown(now.log);
      if (now.reader.alive && now.reader.flight.Idle? && ready && HasLoaded(now.log) && !Uncertain(now.log) &&
        !Troubled(now.log) && shownThrough > if seen.Some? then seen.value.read else 0) then
        var delivered :=
          if seen.Some? && seen.value.delivered > shownThrough then seen.value.delivered else shownThrough;
        var revision := if seen.Some? then seen.value.revision else 0;
        next.log == now.log + [Sent(Request(revision, delivered, shownThrough))] &&
        next.reader.flight == Marking(shownThrough) && next.reader.alive
      else next == now
  {
    assert (steps + [Mark(shownThrough, ready)])[..|steps|] == steps;
    RunKeepsInv(steps);
  }

  // The position is loaded exactly if nothing is under way, and, unless the reader asks for it,
  // nothing is in doubt or went wrong last.
  lemma LoadBeginsIff(steps: seq<Step>, manual: bool)
    ensures var now, next := Run(steps), Run(steps + [Load(manual)]);
      if (now.reader.alive && now.reader.flight.Idle? && (manual || !(Uncertain(now.log) || Troubled(now.log)))) then
        next == now.(reader := now.reader.(flight := Loading(manual)))
      else next == now
  {
    assert (steps + [Load(manual)])[..|steps|] == steps;
    RunKeepsInv(steps);
  }

  // A load is accepted exactly if it brings a cursor of this channel and reader, sound, and behind
  // the one shown in none of its numbers, or says that there is none while none is shown.
  lemma LoadIsAcceptedIff(steps: seq<Step>, response: Response)
    requires Run(steps).reader.flight.Loading? && Run(steps).reader.alive
    ensures var now, next := Run(steps), Run(steps + [LoadEnds(response)]);
      var seen := Shown(now.log);
      var accepted :=
        if response.Answer? then
          var c := response.value;
          c.belongs && c.revision > 0 && 0 <= c.read <= c.delivered &&
          (seen.Some? ==>
            seen.value.revision <= c.revision && seen.value.read <= c.read && seen.value.delivered <= c.delivered)
        else response.NotFound? && seen.None?;
      var cursor := if response.Answer? then Some(response.value) else None;
      var checked := if now.reader.flight.manual then [Checked] else [];
      next.reader.flight.Idle? && next.reader.alive &&
      next.log == now.log + if accepted then [Accepted(cursor)] + checked else [Failed]
  {
    assert (steps + [LoadEnds(response)])[..|steps|] == steps;
    RunKeepsInv(steps);
  }

  // A mark is confirmed exactly by such a cursor with the very position asked for; anything else
  // leaves it in doubt.
  lemma MarkIsConfirmedIff(steps: seq<Step>, response: Response)
    requires Run(steps).reader.flight.Marking? && Run(steps).reader.alive
    ensures var now, next := Run(steps), Run(steps + [MarkEnds(response)]);
      var seen := Shown(now.log);
      var confirmed :=
        response.Answer? &&
        (var c := response.value;
         c.belongs && c.revision > 0 && 0 <= c.read <= c.delivered && c.read == now.reader.flight.target &&
         (seen.Some? ==>
           seen.value.revision <= c.revision && seen.value.read <= c.read && seen.value.delivered <= c.delivered));
      next.reader.flight.Idle? && next.reader.alive &&
      next.log == now.log + [if confirmed then Accepted(Some(response.value)) else Lost]
  {
    assert (steps + [MarkEnds(response)])[..|steps|] == steps;
    RunKeepsInv(steps);
  }

  // Once the component is gone nothing is sent, shown or told any more.
  lemma {:induction false} ClosedIsSilent(steps: seq<Step>, more: seq<Step>)
    requires !Run(steps).reader.alive
    ensures !Run(steps + more).reader.alive && Run(steps + more).log == Run(steps).log
  {
    if more == [] {
      assert steps + more == steps;
    } else {
      assert (steps + more)[..|steps + more| - 1] == steps + more[..|more| - 1];
      ClosedIsSilent(steps, more[..|more| - 1]);
    }
  }
}
